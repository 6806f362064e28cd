/**
 The transactional updater: backup, stop, replace, start, health, and rollback on failure.

 Directories are maps from entry name to file or directory. The state file lives in the
 install directory beside the program files and is never part of a backup.
 */
module UpdateTypes {
  import opened Wrappers

  /**
   An entry of the install directory. The state file is "update_state.json", the write probe
   ".winos_update_write_probe"; any other name is Named.
   */
  datatype Name = StateFile | WriteProbe | Named(name: string)

  datatype State = State(version: string, backups: seq<string>, lastBackup: Option<string>)

  /** A file holds raw bytes, or the JSON text of an updater state. */
  datatype Content = Raw(bytes: seq<nat>) | StateDoc(state: State)

  datatype Node = File(content: Content) | Dir(entries: map<Name, Node>)

  type Tree = map<Name, Node>

  /** A package is one file, or a directory whose members replace the install directory. */
  datatype Package = FilePackage(version: string, name: Name, content: Content)
                   | DirPackage(version: string, entries: Tree)

  /** What a hook did. `ok` is compared by identity with True and False. */
  datatype OkField = OkTrue | OkFalse | OkOther
  datatype HookOutcome = Raises | ReturnsNone | ReturnsNonMapping | Returns(ok: OkField, status: Option<string>)

  /** A file-system error at the given step of a replacement, leaving anything at that name. */
  datatype Fault = Fault(step: nat, junk: Option<Node>)

  /** A failing write of the state file, which may leave anything in it. */
  datatype SaveFault = SaveFault(junk: Option<Content>)

  /** How the write probe of the permissions stage fares. */
  datatype ProbeOutcome = AccessDenied | WriteFails(truncated: bool) | UnlinkFails | ProbeWorks

  /** Everything outside the updater that one call meets. A missing hook is None. */
  datatype Env = Env(verified: bool, stop: Option<HookOutcome>, start: Option<HookOutcome>,
                     health: Option<HookOutcome>, probe: ProbeOutcome, fault: Option<Fault>,
                     save: Option<SaveFault>)

  datatype Stage = Preflight | Permissions | Backup | Stop | Replace | Start | Health | Finished

  datatype Report = Report(ok: bool, stage: Stage, stages: seq<Stage>, rolledBack: bool,
                           backup: Option<string>, version: Option<string>)

  const HEALTH_OK: set<string> := {"ok", "healthy", "ready"}

  /** The program files of an install directory. */
  function Members(t: Tree): Tree { t - {StateFile} }
}

/** Backup names and the version a rollback reads back from one. */
module BackupNames {

  const PREFIX := "backup-"

  function NameOf(version: string): string { PREFIX + version }

  /** The final component of a relative POSIX path, skipping empty and "." components. */
  function FinalComponent(path: string): string
    decreases |path|
  {
    if path == "" then ""
    else
      var i := LastSlash(path, |path|);
      var last := path[i..];
      if last != "" && last != "." then last
      else if i == 0 then ""
      else FinalComponent(path[..i - 1])
  }

  /** The index just after the last '/' before `n`, or 0. */
  function LastSlash(path: string, n: nat): (i: nat)
    requires n <= |path|
    ensures i <= n && forall k | i <= k < n :: path[k] != '/'
    ensures i > 0 ==> path[i - 1] == '/'
  {
    if n == 0 || path[n - 1] == '/' then n else LastSlash(path, n - 1)
  }

  /** `s` without the first occurrence of `pattern`. */
  function WithoutFirst(s: string, pattern: string): string
    decreases |s|
  {
    if pattern <= s then s[|pattern|..]
    else if s == "" then ""
    else [s[0]] + WithoutFirst(s[1..], pattern)
  }

  function VersionRestored(version: string): string {
    WithoutFirst(FinalComponent(NameOf(version)), PREFIX)
  }

  lemma {:induction false} FinalComponentHasNoSlash(path: string)
    ensures '/' !in FinalComponent(path)
    decreases |path|
  {
    if path == "" {
    } else {
      var i := LastSlash(path, |path|);
      if path[i..] == "" || path[i..] == "." {
        if i > 0 { FinalComponentHasNoSlash(path[..i - 1]); }
      }
    }
  }

  lemma {:induction false} WithoutFirstShrinks(s: string, pattern: string)
    ensures forall c | c in WithoutFirst(s, pattern) :: c in s
    decreases |s|
  {
    if pattern <= s || s == "" {
    } else {
      WithoutFirstShrinks(s[1..], pattern);
    }
  }

  /** A rollback reads back the version it should exactly when the version has no '/'. */
  lemma VersionRestoredIff(version: string)
    ensures VersionRestored(version) == version <==> '/' !in version
  {
    var name := NameOf(version);
    if '/' !in version {
      var i := LastSlash(name, |name|);
      assert i == 0 by {
        assert forall k | 0 <= k < |name| :: name[k] == if k < |PREFIX| then PREFIX[k] else version[k - |PREFIX|];
        assert '/' !in PREFIX;
      }
      assert name[0] == 'b';
      assert FinalComponent(name) == name;
      assert name[|PREFIX|..] == version;
    } else {
      FinalComponentHasNoSlash(name);
      WithoutFirstShrinks(FinalComponent(name), PREFIX);
    }
  }
}

/** What each operation does to the whole world, as functions on values. */
module UpdateSpec {
  import opened Wrappers
  import opened UpdateTypes
  import BackupNames
  import Texts

  datatype World = World(install: Tree, backupDir: map<string, Tree>, state: State)

  /** The state file is a file, and no backup contains it. */
  predicate Valid(w: World) {
    && (StateFile in w.install ==> w.install[StateFile].File?)
    && (forall d | d in w.backupDir :: StateFile !in w.backupDir[d])
  }

  function Saved(t: Tree, st: State): Tree { t[StateFile := File(StateDoc(st))] }

  const NEW_STATE := State("1.0.0", [], None)

  /** What a new manager reads from the state file; None where reading it raises. */
  function LoadState(t: Tree): Option<State> {
    if StateFile !in t then Some(NEW_STATE)
    else match t[StateFile]
      case File(StateDoc(st)) => Some(st)
      case _ => None
  }

  /** A new manager over the same directories would know what this one knows. */
  predicate Synced(w: World) { LoadState(w.install) == Some(w.state) }

  function BackupWorld(w: World): World {
    var dest := BackupNames.NameOf(w.state.version);
    var st := w.state.(backups := w.state.backups + [dest]);
    World(Saved(w.install, st), w.backupDir[dest := Members(w.install)], st)
  }

  predicate CanRollback(w: World) {
    w.state.backups != [] && w.state.backups[|w.state.backups| - 1] in w.backupDir
  }

  function RollbackWorld(w: World): World {
    if !CanRollback(w) then w
    else
      var latest := w.state.backups[|w.state.backups| - 1];
      var st := w.state.(version := BackupNames.WithoutFirst(BackupNames.FinalComponent(latest), BackupNames.PREFIX));
      World(Saved(w.backupDir[latest], st), w.backupDir, st)
  }

  /** Copying a file onto an installed directory puts it inside that directory. */
  function CopyFile(t: Tree, name: Name, content: Content): Option<Tree> {
    if name in t && t[name].Dir? then
      if name in t[name].entries && t[name].entries[name].Dir? then None
      else Some(t[name := Dir(t[name].entries[name := File(content)])])
    else Some(t[name := File(content)])
  }

  /** A package directory meets an installed file of the same name; the state file is one. */
  predicate Clash(t: Tree, entries: Tree) {
    exists n | n in entries :: entries[n].Dir? && (n == StateFile || (n in t && t[n].File?))
  }

  function Removed(t: Tree, entries: Tree): set<Name> { t.Keys - entries.Keys - {StateFile} }

  predicate ReplaceRaises(t: Tree, p: Package, fault: Option<Fault>) {
    match p
    case FilePackage(_, name, content) => CopyFile(t, name, content).None? || (fault.Some? && fault.value.step == 0)
    case DirPackage(_, entries) =>
      Clash(t, entries) || (fault.Some? && fault.value.step < |Removed(t, entries)| + |entries|)
  }

  /** The install directory after a replacement that did not raise. */
  function Replaced(t: Tree, p: Package): Tree {
    match p
    case FilePackage(_, name, content) =>
      var c := CopyFile(t, name, content); if c.Some? then c.value else t
    case DirPackage(_, entries) => (map n | n in t && n == StateFile :: t[n]) + entries
  }

  /** The permissions stage: whether it passes, and the install directory it leaves. */
  function AfterProbe(t: Tree, outcome: ProbeOutcome): (bool, Tree) {
    if outcome.AccessDenied? || (WriteProbe in t && t[WriteProbe].Dir?) then (false, t)
    else match outcome
      case WriteFails(truncated) => (false, if truncated then t[WriteProbe := File(Raw([]))] else t)
      case UnlinkFails => (false, t[WriteProbe := File(Raw(OK_BYTES))])
      case _ => (true, t - {WriteProbe})
  }

  const OK_BYTES: seq<nat> := [111, 107]

  predicate HealthyStatus(s: Option<string>) { s.Some? && Texts.Lower(s.value) in HEALTH_OK }

  /** A None result passes; health needs a conclusive status or a true `ok` without a bad one. */
  predicate Succeeds(kind: Stage, r: HookOutcome) {
    match r
    case Raises => false
    case ReturnsNone => true
    case ReturnsNonMapping => false
    case Returns(ok, status) =>
      if kind == Health then
        if ok.OkFalse? then false
        else if ok.OkTrue? then status.None? || HealthyStatus(status)
        else HealthyStatus(status)
      else ok.OkTrue?
  }

  function StageOrder(checkWritable: bool): seq<Stage> {
    [Preflight] + (if checkWritable then [Permissions] else []) + [Backup, Stop, Replace, Start, Health, Finished]
  }

  /** Where a call that took its backup stops; `t` is the install directory then. */
  function LateStage(t: Tree, p: Package, env: Env): Stage {
    if env.stop.None? || !Succeeds(Stop, env.stop.value) then Stop
    else if ReplaceRaises(t, p, env.fault) || env.save.Some? then Replace
    else if env.start.None? || !Succeeds(Start, env.start.value) then Start
    else if env.health.None? || !Succeeds(Health, env.health.value) then Health
    else Finished
  }

  /** The replacement was done and its version noted in memory, whether or not the call went on. */
  predicate Noted(t: Tree, p: Package, env: Env) {
    env.stop.Some? && Succeeds(Stop, env.stop.value) && !ReplaceRaises(t, p, env.fault)
  }

  function ProbedTree(t: Tree, checkWritable: bool, env: Env): Tree {
    if checkWritable then AfterProbe(t, env.probe).1 else t
  }

  /** Where the call stops. */
  function FinalStage(t: Tree, p: Package, checkWritable: bool, env: Env): Stage {
    if !env.verified || env.stop.None? || env.start.None? || env.health.None? then Preflight
    else if checkWritable && !AfterProbe(t, env.probe).0 then Permissions
    else LateStage(ProbedTree(t, checkWritable, env), p, env)
  }

  /** The world in which the backup is taken. */
  function ProbedWorld(w: World, checkWritable: bool, env: Env): World {
    w.(install := ProbedTree(w.install, checkWritable, env))
  }

  function ReplacedWorld(w: World, p: Package, backup: string): World {
    var st := w.state.(version := p.version, lastBackup := Some(backup));
    World(Saved(Replaced(w.install, p), st), w.backupDir, st)
  }

  /** A failure after the replacement leaves the name of its backup behind. */
  function WithLastBackup(w: World, backup: string): World {
    w.(state := w.state.(lastBackup := Some(backup)))
  }

  /** From the backup to the end of the call; `noted` tells whether the replacement was noted. */
  function LateWorld(backed: World, p: Package, stage: Stage, noted: bool, backup: string): World {
    if stage == Finished then ReplacedWorld(backed, p, backup)
    else if noted then RollbackWorld(WithLastBackup(backed, backup))
    else RollbackWorld(backed)
  }

  /** A whole transactional apply. Only its final state and stage are visible to a caller. */
  function ApplyWorld(w: World, p: Package, checkWritable: bool, env: Env): World {
    var stage := FinalStage(w.install, p, checkWritable, env);
    var probed := ProbedWorld(w, checkWritable, env);
    if stage == Preflight then w
    else if stage == Permissions then probed
    else LateWorld(BackupWorld(probed), p, stage, Noted(probed.install, p, env), BackupNames.NameOf(w.state.version))
  }
}

/** The updater itself, changing its directories entry by entry. */
module Updater {
  import opened Wrappers
  import opened UpdateTypes
  import opened UpdateSpec
  import BackupNames

  class UpdateManager {
    var install: Tree
    var backupDir: map<string, Tree>
    var state: State

    function Current(): World
      reads this
    {
      World(install, backupDir, state)
    }

    constructor (install: Tree, backupDir: map<string, Tree>, state: State)
      ensures Current() == World(install, backupDir, state)
    {
      this.install, this.backupDir, this.state := install, backupDir, state;
    }

    /** A manager over existing directories knows what the state file says, or none is made. */
    static method Open(install: Tree, backupDir: map<string, Tree>) returns (m: Option<UpdateManager>)
      ensures m.None? <==> LoadState(install).None?
      ensures m.Some? ==>
                && fresh(m.value) && Synced(m.value.Current())
                && m.value.install == install && m.value.backupDir == backupDir
    {
      m := None;
      if StateFile !in install {
        var manager := new UpdateManager(install, backupDir, NEW_STATE);
        m := Some(manager);
      } else if install[StateFile].File? && install[StateFile].content.StateDoc? {
        var manager := new UpdateManager(install, backupDir, install[StateFile].content.state);
        m := Some(manager);
      }
    }

    method SaveState()
      requires Valid(Current())
      modifies this`install
      ensures install == Saved(old(install), state)
    {
      install := install[StateFile := File(StateDoc(state))];
    }

    /** The same where the write may fail; the state file stays a file. */
    method TrySaveState(fault: Option<SaveFault>) returns (raised: bool)
      requires StateFile in install ==> install[StateFile].File?
      modifies this`install
      ensures raised == fault.Some?
      ensures !raised ==> install == Saved(old(install), state)
      ensures StateFile in install ==> install[StateFile].File?
    {
      if fault.Some? {
        if fault.value.junk.Some? { install := install[StateFile := File(fault.value.junk.value)]; }
        return true;
      }
      install := install[StateFile := File(StateDoc(state))];
      return false;
    }

    method BackupCurrent() returns (dest: string)
      requires Valid(Current())
      modifies this
      ensures Current() == BackupWorld(old(Current())) && Valid(Current())
      ensures dest == BackupNames.NameOf(old(state.version))
    {
      dest := BackupNames.NameOf(state.version);
      backupDir := backupDir[dest := map[]];
      CopyInto(dest);
      state := state.(backups := state.backups + [dest]);
      SaveState();
    }

    /** Copy every member of the install directory into the empty backup directory `dest`. */
    method CopyInto(dest: string)
      requires dest in backupDir && backupDir[dest] == map[]
      modifies this`backupDir
      ensures backupDir == old(backupDir)[dest := Members(install)]
    {
      var left := install.Keys;
      ghost var copied: Tree := map[];
      NothingCopied(install);
      while left != {}
        invariant left <= install.Keys && copied == Members(install - left)
        invariant backupDir == old(backupDir)[dest := copied]
        decreases |left|
      {
        var n :| n in left;
        OneMoreCopied(install, left, n);
        left := left - {n};
        if n != StateFile {
          CopyOne(dest, n, old(backupDir), copied);
          copied := copied[n := install[n]];
        }
      }
      assert install - {} == install;
    }

    method CopyOne(dest: string, n: Name, ghost others: map<string, Tree>, ghost copied: Tree)
      requires n in install && backupDir == others[dest := copied]
      modifies this`backupDir
      ensures backupDir == others[dest := copied[n := install[n]]]
    {
      backupDir := backupDir[dest := backupDir[dest][n := install[n]]];
    }

    static lemma NothingCopied(t: Tree)
      ensures Members(t - t.Keys) == map[]
    {
    }

    static lemma OneMoreCopied(t: Tree, left: set<Name>, n: Name)
      requires n in left && left <= t.Keys
      ensures Members(t - (left - {n})) == if n == StateFile then Members(t - left) else Members(t - left)[n := t[n]]
    {
    }

    /** An interrupted operation leaves anything at `n`; the state file stays a file. */
    method LeavePartial(n: Name, junk: Option<Node>)
      requires StateFile in install && install[StateFile].File?
      modifies this`install
      ensures StateFile in install ==> install[StateFile].File?
    {
      match junk
      case None => install := install - {n};
      case Some(node) => if n != StateFile || node.File? { install := install[n := node]; }
    }

    method ReplaceInstallTree(p: Package, fault: Option<Fault>) returns (raised: bool)
      requires StateFile in install && install[StateFile].File?
      modifies this`install
      ensures raised <==> ReplaceRaises(old(install), p, fault)
      ensures !raised ==> install == Replaced(old(install), p)
      ensures StateFile in install ==> install[StateFile].File?
    {
      match p
      case FilePackage(_, name, content) =>
        var copied := CopyFile(install, name, content);
        if fault.Some? && fault.value.step == 0 {
          LeavePartial(name, fault.value.junk);
          return true;
        }
        if copied.None? { return true; }
        install := copied.value;
        return false;
      case DirPackage(_, entries) =>
        raised := ReplaceMembers(entries, fault);
    }

    method ReplaceMembers(entries: Tree, fault: Option<Fault>) returns (raised: bool)
      requires StateFile in install && install[StateFile].File?
      modifies this`install
      ensures raised <==> Clash(old(install), entries) ||
                          (fault.Some? && fault.value.step < |Removed(old(install), entries)| + |entries|)
      ensures !raised ==> install == (map n | n in old(install) && n == StateFile :: old(install)[n]) + entries
      ensures StateFile in install ==> install[StateFile].File?
    {
      var orphans := Removed(install, entries);
      OrphansDoNotMatter(install, entries);
      raised := RemoveOrphans(entries, fault);
      if !raised { raised := CopyEntries(entries, fault, |orphans|); }
    }

    /** First pass: delete every member the package does not name. */
    method RemoveOrphans(entries: Tree, fault: Option<Fault>) returns (raised: bool)
      requires StateFile in install && install[StateFile].File?
      modifies this`install
      ensures raised <==> fault.Some? && fault.value.step < |Removed(old(install), entries)|
      ensures !raised ==> install == old(install) - Removed(old(install), entries)
      ensures StateFile in install ==> install[StateFile].File?
    {
      ghost var t, orphans := install, Removed(install, entries);
      var steps := 0;
      var left := Removed(install, entries);
      while left != {}
        invariant left <= orphans && steps + |left| == |orphans|
        invariant forall n :: n in install <==> n in t && n !in orphans - left
        invariant forall n | n in install :: install[n] == t[n]
        invariant fault.Some? ==> steps <= fault.value.step
        decreases |left|
      {
        var n :| n in left;
        if fault.Some? && fault.value.step == steps {
          LeavePartial(n, fault.value.junk);
          return true;
        }
        left, steps := left - {n}, steps + 1;
        install := install - {n};
      }
      SameTree(install, t - orphans);
      return false;
    }

    /** Second pass: put every package member in place, starting at step `first`. */
    method CopyEntries(entries: Tree, fault: Option<Fault>, first: nat) returns (raised: bool)
      requires StateFile in install && install[StateFile].File?
      requires install.Keys <= entries.Keys + {StateFile} && (fault.Some? ==> first <= fault.value.step)
      modifies this`install
      ensures raised <==> Clash(old(install), entries) || (fault.Some? && fault.value.step < first + |entries|)
      ensures !raised ==> install == (map n | n in old(install) && n == StateFile :: old(install)[n]) + entries
      ensures StateFile in install ==> install[StateFile].File?
    {
      ghost var t := install;
      var steps := first;
      var todo := entries.Keys;
      while todo != {}
        invariant todo <= entries.Keys && steps + |todo| == first + |entries.Keys|
        invariant forall n :: n in install <==> n in t || (n in entries && n !in todo)
        invariant forall n | n in install :: install[n] == if n in entries && n !in todo then entries[n] else t[n]
        invariant fault.Some? ==> steps <= fault.value.step
        invariant forall n | n in entries && n !in todo :: !(entries[n].Dir? && n in t && t[n].File?)
        decreases |todo|
      {
        var n :| n in todo;
        if fault.Some? && fault.value.step == steps {
          LeavePartial(n, fault.value.junk);
          return true;
        }
        if entries[n].Dir? && n in install && install[n].File? {
          return true; // removing the file as a tree raises
        }
        todo, steps := todo - {n}, steps + 1;
        install := install[n := entries[n]];
      }
      SameTree(install, (map n | n in t && n == StateFile :: t[n]) + entries);
      return false;
    }

    method Rollback() returns (ok: bool)
      requires Valid(Current())
      modifies this
      ensures Current() == RollbackWorld(old(Current())) && Valid(Current())
      ensures ok == CanRollback(old(Current()))
    {
      if state.backups == [] { return false; }
      var latest := state.backups[|state.backups| - 1];
      if latest !in backupDir { return false; }
      RestoreMembers(backupDir[latest]);
      state := state.(version := BackupNames.WithoutFirst(BackupNames.FinalComponent(latest), BackupNames.PREFIX));
      SaveState();
      return true;
    }

    /** Delete what the backup does not name, then put every backup member back. */
    method RestoreMembers(backup: Tree)
      requires StateFile !in backup
      modifies this`install
      ensures install == (map n | n in old(install) && n == StateFile :: old(install)[n]) + backup
    {
      ghost var t := install;
      RemoveUnnamed(backup);
      PutBack(backup);
      SameTree(install, (map n | n in t && n == StateFile :: t[n]) + backup);
    }

    method RemoveUnnamed(backup: Tree)
      modifies this`install
      ensures forall n :: n in install <==> n in old(install) && (n in backup || n == StateFile)
      ensures forall n | n in install :: install[n] == old(install)[n]
    {
      ghost var t := install;
      var left := install.Keys;
      while left != {}
        invariant left <= t.Keys
        invariant forall n :: n in install <==> n in t && (n in left || n in backup || n == StateFile)
        invariant forall n | n in install :: install[n] == t[n]
        decreases |left|
      {
        var n :| n in left;
        left := left - {n};
        if n != StateFile && n !in backup { install := install - {n}; }
      }
    }

    method PutBack(backup: Tree)
      modifies this`install
      ensures forall n :: n in install <==> n in old(install) || n in backup
      ensures forall n | n in install :: install[n] == if n in backup then backup[n] else old(install)[n]
    {
      ghost var t := install;
      var todo := backup.Keys;
      while todo != {}
        invariant todo <= backup.Keys
        invariant forall n :: n in install <==> n in t || (n in backup && n !in todo)
        invariant forall n | n in install :: install[n] == if n in backup && n !in todo then backup[n] else t[n]
        decreases |todo|
      {
        var n :| n in todo;
        todo := todo - {n};
        install := install - {n};
        install := install[n := backup[n]];
      }
    }

    method InstallDirWritable(outcome: ProbeOutcome) returns (ok: bool)
      requires Valid(Current())
      modifies this`install
      ensures (ok, install) == AfterProbe(old(install), outcome)
    {
      if outcome.AccessDenied? { return false; }
      if WriteProbe in install && install[WriteProbe].Dir? { return false; }
      if outcome.WriteFails? {
        if outcome.truncated { install := install[WriteProbe := File(Raw([]))]; }
        return false;
      }
      install := install[WriteProbe := File(Raw(OK_BYTES))];
      if outcome.UnlinkFails? { return false; }
      install := install - {WriteProbe};
      assert install == old(install) - {WriteProbe};
      return true;
    }

    /** Stop, replace, start and health, once the backup is taken; a failure ends the walk. */
    method RunStages(p: Package, env: Env, backup: string) returns (stage: Stage, trail: seq<Stage>)
      requires Valid(Current())
      requires StateFile in install && install[StateFile].File?
      requires env.stop.Some? && env.start.Some? && env.health.Some?
      modifies this
      ensures Valid(Current()) && backupDir == old(backupDir)
      ensures stage == LateStage(old(install), p, env) && trail == LateTrail(stage)
      ensures !Noted(old(install), p, env) ==> state == old(state)
      ensures Noted(old(install), p, env) ==> state == old(state).(version := p.version, lastBackup := Some(backup))
      ensures stage !in {Stop, Replace} ==> Current() == ReplacedWorld(old(Current()), p, backup)
    {
      trail := [Stop];
      if !Succeeds(Stop, env.stop.value) { return Stop, trail; }
      trail := trail + [Replace];
      var raised := ReplaceAndSave(p, env, backup);
      if raised { return Replace, trail; }
      trail := trail + [Start];
      if !Succeeds(Start, env.start.value) { return Start, trail; }
      trail := trail + [Health];
      if !Succeeds(Health, env.health.value) { return Health, trail; }
      trail := trail + [Finished];
      return Finished, trail;
    }

    /** The replace stage: the tree, the version in memory, and the state file, which may all fail. */
    method ReplaceAndSave(p: Package, env: Env, backup: string) returns (raised: bool)
      requires Valid(Current())
      requires StateFile in install && install[StateFile].File?
      modifies this
      ensures Valid(Current()) && backupDir == old(backupDir)
      ensures raised <==> ReplaceRaises(old(install), p, env.fault) || env.save.Some?
      ensures state == if ReplaceRaises(old(install), p, env.fault) then old(state)
                       else old(state).(version := p.version, lastBackup := Some(backup))
      ensures !raised ==> Current() == ReplacedWorld(old(Current()), p, backup)
    {
      raised := ReplaceInstallTree(p, env.fault);
      if raised { return; }
      state := state.(version := p.version, lastBackup := Some(backup));
      raised := TrySaveState(env.save);
    }

    method UpdateAfterBackup(p: Package, env: Env, backup: string)
      returns (stage: Stage, trail: seq<Stage>, rolled: bool)
      requires Valid(Current()) && CanRollback(Current())
      requires StateFile in install && install[StateFile].File?
      requires env.stop.Some? && env.start.Some? && env.health.Some?
      modifies this
      ensures Valid(Current())
      ensures stage == LateStage(old(install), p, env) && trail == LateTrail(stage)
      ensures Current() == LateWorld(old(Current()), p, stage, Noted(old(install), p, env), backup)
      ensures rolled == (stage != Finished)
    {
      ghost var backed := Current();
      stage, trail := RunStages(p, env, backup);
      if stage == Finished { return stage, trail, false; }
      RollbackIgnoresInstall(if Noted(backed.install, p, env) then WithLastBackup(backed, backup) else backed,
                             Current());
      rolled := Rollback();
    }

    method ApplyOsTransactional(p: Package, checkWritable: bool, env: Env) returns (r: Report)
      requires Valid(Current())
      modifies this
      ensures Current() == ApplyWorld(old(Current()), p, checkWritable, env) && Valid(Current())
      ensures r == ReportOf(FinalStage(old(install), p, checkWritable, env), checkWritable, p,
                            BackupNames.NameOf(old(state.version)))
    {
      var failed, stages := RunChecks(checkWritable, env);
      if failed.Some? {
        EarlyEnd(old(Current()), p, checkWritable, env);
        return Report(false, failed.value, stages, false, None, None);
      }
      PastTheChecks(old(Current()), Current(), p, checkWritable, env);
      r := BackupAndUpdate(p, env, stages);
    }

    /** Preflight and permissions: where they fail, if they do, and the stages they went through. */
    method RunChecks(checkWritable: bool, env: Env) returns (failed: Option<Stage>, stages: seq<Stage>)
      requires Valid(Current())
      modifies this
      ensures failed == FailedCheck(old(install), checkWritable, env) && Valid(Current())
      ensures Current() == if failed == Some(Preflight) then old(Current())
                           else ProbedWorld(old(Current()), checkWritable, env)
      ensures stages == if failed == Some(Preflight) then [Preflight] else EarlyStages(checkWritable)
    {
      stages := [Preflight];
      if !env.verified || env.stop.None? || env.start.None? || env.health.None? { return Some(Preflight), stages; }
      if checkWritable {
        stages := stages + [Permissions];
        var writable := InstallDirWritable(env.probe);
        if !writable { return Some(Permissions), stages; }
      }
      failed := None;
    }

    /** The call once the checks passed: the backup, then the stages that it makes reversible. */
    method BackupAndUpdate(p: Package, env: Env, stages: seq<Stage>) returns (r: Report)
      requires Valid(Current()) && env.stop.Some? && env.start.Some? && env.health.Some?
      modifies this
      ensures Valid(Current())
      ensures var backed := BackupWorld(old(Current()));
              var dest, stage := BackupNames.NameOf(old(state.version)), LateStage(backed.install, p, env);
              && Current() == LateWorld(backed, p, stage, Noted(backed.install, p, env), dest)
              && r == Report(stage == Finished, stage, stages + [Backup] + LateTrail(stage), stage != Finished,
                             Some(dest), if stage == Finished then Some(p.version) else None)
    {
      var backup := BackupCurrent();
      var stage, trail, rolled := UpdateAfterBackup(p, env, backup);
      r := Report(stage == Finished, stage, stages + [Backup] + trail, rolled, Some(backup),
                  if stage == Finished then Some(p.version) else None);
    }
  }

  lemma SameTree(a: Tree, b: Tree)
    requires forall n :: n in a <==> n in b
    requires forall n | n in a :: a[n] == b[n]
    ensures a == b
  {
  }

  function LateTrail(stage: Stage): seq<Stage> {
    match stage
    case Stop => [Stop]
    case Replace => [Stop, Replace]
    case Start => [Stop, Replace, Start]
    case Health => [Stop, Replace, Start, Health]
    case _ => [Stop, Replace, Start, Health, Finished]
  }

  function EarlyStages(checkWritable: bool): seq<Stage> { [Preflight] + (if checkWritable then [Permissions] else []) }

  /** The check that a call fails, if any. */
  function FailedCheck(t: Tree, checkWritable: bool, env: Env): Option<Stage> {
    if !env.verified || env.stop.None? || env.start.None? || env.health.None? then Some(Preflight)
    else if checkWritable && !AfterProbe(t, env.probe).0 then Some(Permissions)
    else None
  }

  /** What a call that stops at `stage` reports. */
  function ReportOf(stage: Stage, checkWritable: bool, p: Package, backup: string): Report {
    var early := EarlyStages(checkWritable);
    if stage == Preflight then Report(false, stage, [Preflight], false, None, None)
    else if stage == Permissions then Report(false, stage, early, false, None, None)
    else Report(stage == Finished, stage, early + [Backup] + LateTrail(stage), stage != Finished, Some(backup),
                if stage == Finished then Some(p.version) else None)
  }

  /** The trail is a prefix of the fixed order, ends at the reported stage, and tells success. */
  lemma ReportIsHonest(t: Tree, p: Package, checkWritable: bool, env: Env, backup: string)
    ensures var r := ReportOf(FinalStage(t, p, checkWritable, env), checkWritable, p, backup);
            && r.stages <= StageOrder(checkWritable)
            && r.stages != [] && r.stages[|r.stages| - 1] == r.stage
            && (r.ok <==> r.stage == Finished)
            && (r.rolledBack <==> r.backup.Some? && !r.ok)
            && (r.backup.Some? <==> r.stage !in {Preflight, Permissions})
  {
  }

  /** A failed check is the final stage, and ends the call. */
  lemma EarlyEnd(w: World, p: Package, checkWritable: bool, env: Env)
    requires FailedCheck(w.install, checkWritable, env).Some?
    ensures var stage := FailedCheck(w.install, checkWritable, env).value;
            && stage in {Preflight, Permissions} && FinalStage(w.install, p, checkWritable, env) == stage
            && ApplyWorld(w, p, checkWritable, env) ==
               if stage == Preflight then w else ProbedWorld(w, checkWritable, env)
  {
  }

  /** Once the checks pass, the call is its late part run on the world after the backup. */
  lemma PastTheChecks(w: World, probed: World, p: Package, checkWritable: bool, env: Env)
    requires Valid(w) && probed == ProbedWorld(w, checkWritable, env)
    requires FailedCheck(w.install, checkWritable, env).None?
    ensures probed.state == w.state
    ensures var backed := BackupWorld(probed);
            var stage := LateStage(backed.install, p, env);
            && stage !in {Preflight, Permissions}
            && stage == FinalStage(w.install, p, checkWritable, env)
            && ApplyWorld(w, p, checkWritable, env) ==
               LateWorld(backed, p, stage, Noted(backed.install, p, env), BackupNames.NameOf(w.state.version))
  {
    ReplaceIgnoresState(probed.install, BackupWorld(probed).state, p, env.fault);
  }

  lemma OrphansDoNotMatter(t: Tree, entries: Tree)
    ensures Clash(t - Removed(t, entries), entries) == Clash(t, entries)
    ensures (map n | n in t - Removed(t, entries) && n == StateFile :: (t - Removed(t, entries))[n])
            == map n | n in t && n == StateFile :: t[n]
  {
    var t' := t - Removed(t, entries);
    forall n | n in entries ensures (n in t' && t'[n].File?) == (n in t && t[n].File?) {}
  }

  lemma ClashIgnoresState(t: Tree, st: State, entries: Tree)
    ensures Clash(Saved(t, st), entries) == Clash(t, entries)
    ensures Removed(Saved(t, st), entries) == Removed(t, entries)
  {
    forall n | n in entries && n != StateFile
      ensures (n in Saved(t, st) && Saved(t, st)[n].File?) == (n in t && t[n].File?)
    {
    }
  }

  lemma CopyIgnoresState(t: Tree, st: State, name: Name, content: Content)
    requires StateFile in t ==> t[StateFile].File?
    ensures CopyFile(Saved(t, st), name, content).None? == CopyFile(t, name, content).None?
  {
    if name != StateFile { assert (name in Saved(t, st)) == (name in t); }
  }

  /** Whether a replacement raises does not depend on what the state file says. */
  lemma ReplaceIgnoresState(t: Tree, st: State, p: Package, fault: Option<Fault>)
    ensures ReplaceRaises(Saved(t, st), p, fault) == ReplaceRaises(t, p, fault)
    requires StateFile in t ==> t[StateFile].File?
  {
    match p
    case FilePackage(_, name, content) => CopyIgnoresState(t, st, name, content);
    case DirPackage(_, entries) => ClashIgnoresState(t, st, entries);
  }

  /** A rollback restores the same world whatever the install directory and the version. */
  lemma RollbackIgnoresInstall(w: World, w': World)
    requires w.backupDir == w'.backupDir && CanRollback(w)
    requires w'.state == w.state.(version := w'.state.version)
    ensures RollbackWorld(w) == RollbackWorld(w')
  {
  }
}

/** What the updater promises, over single calls and over histories. */
module UpdateGuarantees {
  import opened Wrappers
  import opened UpdateTypes
  import opened UpdateSpec
  import BackupNames

  /** When the permissions stage changes the install directory it was only meant to test. */
  predicate ProbeDisturbs(t: Tree, outcome: ProbeOutcome) {
    var found := if WriteProbe in t then Some(t[WriteProbe]) else None;
    match outcome
    case AccessDenied => false
    case WriteFails(truncated) => truncated && !(found.Some? && (found.value.Dir? || found.value == File(Raw([]))))
    case UnlinkFails => !(found.Some? && (found.value.Dir? || found.value == File(Raw(OK_BYTES))))
    case ProbeWorks => found.Some? && found.value.File?
  }

  lemma ProbeLeavesTreeIff(t: Tree, outcome: ProbeOutcome)
    ensures AfterProbe(t, outcome).1 == t <==> !ProbeDisturbs(t, outcome)
  {
    if outcome.ProbeWorks? && WriteProbe !in t { assert t - {WriteProbe} == t; }
  }

  /** Members that the package brings: for a file, those of the install directory with it. */
  function Delivered(t: Tree, p: Package): Tree {
    match p
    case FilePackage(_, _, _) => Members(Replaced(t, p))
    case DirPackage(_, entries) => Members(entries)
  }

  /** The state file beside the program files makes no difference to copying a file over them. */
  lemma FileDelivers(t: Tree, saved: Tree, name: Name, content: Content)
    requires StateFile in t ==> t[StateFile].File?
    requires StateFile in saved && saved[StateFile].File? && Members(saved) == Members(t)
    requires CopyFile(t, name, content).Some?
    ensures CopyFile(saved, name, content).Some?
    ensures Members(CopyFile(saved, name, content).value) == Members(CopyFile(t, name, content).value)
  {
    if name == StateFile {
      MembersWith(t, name, File(content));
      MembersWith(saved, name, File(content));
    } else {
      assert name in t <==> name in Members(t);
      assert name in saved <==> name in Members(saved);
      assert name in t ==> t[name] == Members(t)[name] && saved[name] == Members(saved)[name];
      MembersWith(t, name, CopyFile(t, name, content).value[name]);
      MembersWith(saved, name, CopyFile(saved, name, content).value[name]);
    }
  }

  lemma MembersWith(t: Tree, name: Name, node: Node)
    ensures Members(t[name := node]) == if name == StateFile then Members(t) else Members(t)[name := node]
  {
  }

  lemma SuccessDelivers(start: World, p: Package, backup: string)
    requires Valid(start) && !ReplaceRaises(start.install, p, None)
    ensures var w' := ReplacedWorld(BackupWorld(start), p, backup);
            && Members(w'.install) == Delivered(start.install, p)
            && w'.install[StateFile] == File(StateDoc(w'.state))
  {
    var saved := BackupWorld(start).install;
    assert Members(saved) == Members(start.install);
    match p
    case FilePackage(_, name, content) =>
      FileDelivers(start.install, saved, name, content);
      MembersWith(Replaced(saved, p), StateFile, File(StateDoc(ReplacedWorld(BackupWorld(start), p, backup).state)));
    case DirPackage(_, entries) =>
      assert Members(Replaced(saved, p)) == Members(entries);
  }

  lemma FailureRestores(start: World, backup: string, noted: bool)
    requires Valid(start)
    ensures var backed := BackupWorld(start);
            var w' := RollbackWorld(if noted then WithLastBackup(backed, backup) else backed);
            && Members(w'.install) == Members(start.install)
            && w'.state.version == BackupNames.VersionRestored(start.state.version)
            && w'.install[StateFile] == File(StateDoc(w'.state))
  {
    var st := RollbackWorld(if noted then WithLastBackup(BackupWorld(start), backup) else BackupWorld(start)).state;
    assert Members(Saved(Members(start.install), st)) == Members(start.install);
  }

  /**
   A call either installs the package and its version, or stops before the backup, or ends
   with the members and the version it found. Where the write probe disturbed the tree the
   members are those the probe left.
   */
  lemma AllOrNothing(w: World, p: Package, checkWritable: bool, env: Env)
    requires Valid(w)
    ensures var w' := ApplyWorld(w, p, checkWritable, env);
            var stage := FinalStage(w.install, p, checkWritable, env);
            var start := ProbedWorld(w, checkWritable, env);
            && stage != Backup
            && (stage == Finished ==>
                  && Members(w'.install) == Delivered(start.install, p)
                  && w'.state.version == p.version
                  && w'.install[StateFile] == File(StateDoc(w'.state)))
            && (stage == Preflight ==> w' == w)
            && (stage == Permissions ==> w' == start && checkWritable)
            && (stage in {Stop, Replace, Start, Health} ==>
                  && Members(w'.install) == Members(start.install)
                  && w'.state.version == BackupNames.VersionRestored(w.state.version)
                  && w'.install[StateFile] == File(StateDoc(w'.state)))
  {
    var stage := FinalStage(w.install, p, checkWritable, env);
    var start := ProbedWorld(w, checkWritable, env);
    var dest := BackupNames.NameOf(w.state.version);
    if stage == Finished {
      SuccessDelivers(start, p, dest);
    } else if stage in {Stop, Replace, Start, Health} {
      FailureRestores(start, dest, Noted(start.install, p, env));
    }
  }

  lemma BackupKeepsValid(w: World)
    requires Valid(w)
    ensures Valid(BackupWorld(w))
  {
  }

  lemma RollbackKeepsValid(w: World)
    requires Valid(w)
    ensures Valid(RollbackWorld(w))
  {
  }

  lemma LateKeepsValid(w: World, p: Package, stage: Stage, noted: bool, backup: string)
    requires Valid(w)
    ensures Valid(LateWorld(w, p, stage, noted, backup))
  {
    RollbackKeepsValid(w);
    RollbackKeepsValid(WithLastBackup(w, backup));
  }

  lemma ProbeKeepsValid(w: World, checkWritable: bool, env: Env)
    requires Valid(w)
    ensures Valid(ProbedWorld(w, checkWritable, env))
  {
  }

  lemma ApplyKeepsValid(w: World, p: Package, checkWritable: bool, env: Env)
    requires Valid(w)
    ensures Valid(ApplyWorld(w, p, checkWritable, env))
  {
    ProbeKeepsValid(w, checkWritable, env);
    BackupKeepsValid(ProbedWorld(w, checkWritable, env));
    LateKeepsValid(BackupWorld(ProbedWorld(w, checkWritable, env)), p,
                   FinalStage(w.install, p, checkWritable, env),
                   Noted(ProbedTree(w.install, checkWritable, env), p, env), BackupNames.NameOf(w.state.version));
  }

  /**
   The promise in its documented form: a failed call leaves every program file as it was,
   exactly when the package was refused at once, the directory is not checked, or the write
   probe neither replaced nor left behind a file.
   */
  lemma FailureLeavesMembersIff(w: World, p: Package, checkWritable: bool, env: Env)
    requires Valid(w) && FinalStage(w.install, p, checkWritable, env) != Finished
    ensures Members(ApplyWorld(w, p, checkWritable, env).install) == Members(w.install) <==>
            !(checkWritable && env.verified && env.stop.Some? && env.start.Some? && env.health.Some? &&
              ProbeDisturbs(w.install, env.probe))
  {
    AllOrNothing(w, p, checkWritable, env);
    ProbeLeavesTreeIff(w.install, env.probe);
    MembersTellIff(w.install, AfterProbe(w.install, env.probe).1);
  }

  /** Directories with the same state file differ in their program files if they differ at all. */
  lemma MembersTellIff(t: Tree, u: Tree)
    requires StateFile in t <==> StateFile in u
    requires StateFile in t ==> t[StateFile] == u[StateFile]
    ensures Members(u) == Members(t) <==> u == t
  {
    if Members(u) == Members(t) {
      forall n ensures n in t <==> n in u {
        assert n == StateFile || (n in t <==> n in Members(t));
        assert n == StateFile || (n in u <==> n in Members(u));
      }
      forall n | n in t ensures t[n] == u[n] {
        assert n == StateFile || (t[n] == Members(t)[n] && u[n] == Members(u)[n]);
      }
    }
  }

  /** A failed call keeps the version exactly when the version is one a backup name can carry. */
  lemma FailureKeepsVersionIff(w: World, p: Package, checkWritable: bool, env: Env)
    requires Valid(w) && FinalStage(w.install, p, checkWritable, env) in {Stop, Replace, Start, Health}
    ensures ApplyWorld(w, p, checkWritable, env).state.version == w.state.version <==> '/' !in w.state.version
  {
    AllOrNothing(w, p, checkWritable, env);
    BackupNames.VersionRestoredIff(w.state.version);
  }

  // ---- Histories -------------------------------------------------------------------------

  /**
   Anything that can happen between two backups; an edit is any change to the program files.
   Reopen replaces the manager by a new one, unless reading the state file raises.
   */
  datatype Event = Apply(p: Package, checkWritable: bool, env: Env) | RollBack | Edit(members: Tree) | Reopen

  function Happens(w: World, e: Event): World {
    match e
    case Apply(p, cw, env) => ApplyWorld(w, p, cw, env)
    case RollBack => RollbackWorld(w)
    case Edit(members) =>
      w.(install := Members(members) + (map n | n in w.install && n == StateFile :: w.install[n]))
    case Reopen => if LoadState(w.install).Some? then w.(state := LoadState(w.install).value) else w
  }

  // ---- The state file --------------------------------------------------------------------

  lemma LateKeepsSynced(start: World, p: Package, stage: Stage, noted: bool, backup: string)
    ensures Synced(LateWorld(BackupWorld(start), p, stage, noted, backup))
  {
    assert CanRollback(BackupWorld(start)) && CanRollback(WithLastBackup(BackupWorld(start), backup));
  }

  lemma ApplyKeepsSynced(w: World, p: Package, checkWritable: bool, env: Env)
    requires Synced(w)
    ensures Synced(ApplyWorld(w, p, checkWritable, env))
  {
    var probed := ProbedWorld(w, checkWritable, env);
    LateKeepsSynced(probed, p, FinalStage(w.install, p, checkWritable, env), Noted(probed.install, p, env),
                    BackupNames.NameOf(w.state.version));
  }

  /** Whatever happens, the state file says what the manager knows: a new one changes nothing. */
  lemma EventKeepsSynced(w: World, e: Event)
    requires Synced(w)
    ensures Synced(Happens(w, e)) && (e == Reopen ==> Happens(w, e) == w)
  {
    match e
    case Apply(p, checkWritable, env) => ApplyKeepsSynced(w, p, checkWritable, env);
    case RollBack =>
    case Edit(_) =>
    case Reopen =>
  }

  /** After any history a new manager knows exactly what the old one knew. */
  lemma {:induction false} HistoryKeepsSynced(w: World, events: seq<Event>)
    requires Synced(w)
    ensures Synced(History(w, events)) && Happens(History(w, events), Reopen) == History(w, events)
    decreases |events|
  {
    if events == [] {
    } else {
      EventKeepsSynced(w, events[0]);
      HistoryKeepsSynced(Happens(w, events[0]), events[1..]);
    }
  }

  /** The manager stays the same, or starts out knowing what its state file says. */
  predicate Reopenable(w: World, events: seq<Event>) { Synced(w) || Reopen !in events }

  /** What a backup was taken of. */
  datatype Snapshot = Snapshot(members: Tree, version: string)

  /** The program files and the version at the most recent backup, if one was taken. */
  function Snapped(w: World, e: Event, before: Option<Snapshot>): Option<Snapshot> {
    match e
    case Apply(p, cw, env) =>
      if FinalStage(w.install, p, cw, env) in {Preflight, Permissions} then before
      else Some(Snapshot(Members(ProbedWorld(w, cw, env).install), w.state.version))
    case _ => before
  }

  function History(w: World, events: seq<Event>): World
    decreases |events|
  {
    if events == [] then w else History(Happens(w, events[0]), events[1..])
  }

  function LastSnapshot(w: World, events: seq<Event>, before: Option<Snapshot>): Option<Snapshot>
    decreases |events|
  {
    if events == [] then before
    else LastSnapshot(Happens(w, events[0]), events[1..], Snapped(w, events[0], before))
  }

  /** The newest listed backup exists, holds the program files of the snapshot and bears its version. */
  predicate NewestBackupIs(w: World, snapshot: Option<Snapshot>) {
    if snapshot.None? then w.state.backups == []
    else
      && CanRollback(w)
      && w.state.backups[|w.state.backups| - 1] == BackupNames.NameOf(snapshot.value.version)
      && w.backupDir[w.state.backups[|w.state.backups| - 1]] == snapshot.value.members
  }

  lemma BackupIsNewest(w: World)
    ensures NewestBackupIs(BackupWorld(w), Some(Snapshot(Members(w.install), w.state.version)))
  {
  }

  lemma RollbackKeepsNewest(w: World, snapshot: Option<Snapshot>)
    requires NewestBackupIs(w, snapshot)
    ensures NewestBackupIs(RollbackWorld(w), snapshot)
  {
  }

  lemma LateKeepsNewest(w: World, p: Package, stage: Stage, noted: bool, backup: string, snapshot: Option<Snapshot>)
    requires NewestBackupIs(w, snapshot)
    ensures NewestBackupIs(LateWorld(w, p, stage, noted, backup), snapshot)
  {
    RollbackKeepsNewest(w, snapshot);
    RollbackKeepsNewest(WithLastBackup(w, backup), snapshot);
  }

  lemma ApplyKeepsNewest(w: World, p: Package, checkWritable: bool, env: Env, snapshot: Option<Snapshot>)
    requires NewestBackupIs(w, snapshot)
    ensures NewestBackupIs(ApplyWorld(w, p, checkWritable, env), Snapped(w, Apply(p, checkWritable, env), snapshot))
  {
    var probed := ProbedWorld(w, checkWritable, env);
    BackupIsNewest(probed);
    LateKeepsNewest(BackupWorld(probed), p, FinalStage(w.install, p, checkWritable, env),
                    Noted(probed.install, p, env), BackupNames.NameOf(w.state.version),
                    Some(Snapshot(Members(probed.install), w.state.version)));
  }

  lemma EventKeepsNewest(w: World, e: Event, snapshot: Option<Snapshot>)
    requires Valid(w) && NewestBackupIs(w, snapshot) && (Synced(w) || e != Reopen)
    ensures Valid(Happens(w, e)) && NewestBackupIs(Happens(w, e), Snapped(w, e, snapshot))
  {
    match e
    case Apply(p, checkWritable, env) =>
      ApplyKeepsValid(w, p, checkWritable, env);
      ApplyKeepsNewest(w, p, checkWritable, env, snapshot);
    case RollBack =>
      RollbackKeepsValid(w);
      RollbackKeepsNewest(w, snapshot);
    case Edit(_) =>
    case Reopen => assert Happens(w, e) == w;
  }

  /** After any history the newest listed backup is the tree at the most recent backup. */
  lemma {:induction false} HistoryKeepsNewest(w: World, events: seq<Event>, snapshot: Option<Snapshot>)
    requires Valid(w) && NewestBackupIs(w, snapshot) && Reopenable(w, events)
    ensures Valid(History(w, events)) && NewestBackupIs(History(w, events), LastSnapshot(w, events, snapshot))
    decreases |events|
  {
    if events == [] {
    } else {
      EventKeepsNewest(w, events[0], snapshot);
      if Synced(w) { EventKeepsSynced(w, events[0]); }
      HistoryKeepsNewest(Happens(w, events[0]), events[1..], Snapped(w, events[0], snapshot));
    }
  }

  /**
   Rolling back after any history, from any edit of the tree, restores exactly the program
   files of the most recent backup, with no orphan, and a second rollback changes nothing. It
   restores the version of that backup, too, exactly when a backup name can carry it.
   */
  lemma RollbackAfterHistory(w: World, events: seq<Event>, edited: Tree)
    requires Valid(w) && w.state.backups == [] && Reopenable(w, events)
    ensures var now := Happens(History(w, events), Edit(edited));
            var snapshot := LastSnapshot(w, events, None);
            && CanRollback(now) == snapshot.Some?
            && (snapshot.Some? ==>
                  && Members(RollbackWorld(now).install) == snapshot.value.members
                  && (RollbackWorld(now).state.version == snapshot.value.version <==> '/' !in snapshot.value.version))
            && (snapshot.None? ==> RollbackWorld(now) == now)
            && RollbackWorld(RollbackWorld(now)) == RollbackWorld(now)
  {
    var snapshot := LastSnapshot(w, events, None);
    HistoryKeepsNewest(w, events, None);
    EventKeepsNewest(History(w, events), Edit(edited), snapshot);
    var now := Happens(History(w, events), Edit(edited));
    if CanRollback(now) {
      RollbackToSnapshot(now, snapshot.value);
    }
  }

  lemma RollbackToSnapshot(now: World, snapshot: Snapshot)
    requires Valid(now) && NewestBackupIs(now, Some(snapshot))
    ensures Members(RollbackWorld(now).install) == snapshot.members
    ensures RollbackWorld(now).state.version == snapshot.version <==> '/' !in snapshot.version
    ensures RollbackWorld(RollbackWorld(now)) == RollbackWorld(now)
  {
    BackupNames.VersionRestoredIff(snapshot.version);
    var back := RollbackWorld(now);
    assert Members(Saved(snapshot.members, back.state)) == snapshot.members;
    assert RollbackWorld(back).state == back.state;
  }

  /** A second backup of one version replaces the first, though both stay listed. */
  lemma SameVersionBackupOverwrites(w: World, edited: Tree)
    requires Valid(w)
    ensures var twice := BackupWorld(Happens(BackupWorld(w), Edit(edited)));
            var n := |w.state.backups|;
            && |twice.state.backups| == n + 2 && twice.state.backups[n] == twice.state.backups[n + 1]
            && twice.backupDir[twice.state.backups[n]] == Members(edited)
  {
    var once := Happens(BackupWorld(w), Edit(edited));
    assert Members(once.install) == Members(edited);
  }

  /** An installed file of the write probe's name is lost by a call that then stops the service in vain. */
  lemma ProbeNameIsLost() returns (w: World, p: Package, env: Env)
    ensures Valid(w) && FinalStage(w.install, p, true, env) == Stop
    ensures Members(ApplyWorld(w, p, true, env).install) != Members(w.install)
  {
    var fine := Some(ReturnsNone);
    w := World(map[WriteProbe := File(Raw([1]))], map[], State("1.0.0", [], None));
    p := DirPackage("2.0.0", map[]);
    env := Env(true, Some(Raises), fine, fine, ProbeWorks, None, None);
    assert w.install[WriteProbe] == File(Raw([1]));
    FailureLeavesMembersIff(w, p, true, env);
  }
}
