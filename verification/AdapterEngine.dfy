/** The per-application OpenAPI document: one operation for every action with valid evidence. */
module VirtualApi {
  import opened Wrappers
  import opened Texts
  import opened EvidenceRecords

  const MAX_FRAGMENT := 120

  predicate IsSafe(c: char) { 'a' <= c <= 'z' || 'A' <= c <= 'Z' || '0' <= c <= '9' || c == '_' || c == '-' }

  function DropUnsafe(s: string): (r: string)
    ensures |r| <= |s| && (s != "" && !IsSafe(s[0]) ==> |r| < |s|)
  {
    if s != "" && !IsSafe(s[0]) then DropUnsafe(s[1..]) else s
  }

  /** Every run of other characters becomes one underscore. */
  function Collapse(s: string): string
    decreases |s|
  {
    if s == "" then ""
    else if IsSafe(s[0]) then [s[0]] + Collapse(s[1..])
    else "_" + Collapse(DropUnsafe(s))
  }

  function TrimUnderscores(s: string): string
    decreases |s|
  {
    if s != "" && s[0] == '_' then TrimUnderscores(s[1..])
    else if s != "" && s[|s| - 1] == '_' then TrimUnderscores(s[..|s| - 1])
    else s
  }

  function Fragment(s: string, fallback: string): string {
    var cleaned := TrimUnderscores(Collapse(Strip(s)));
    var f := if cleaned == "" then fallback else cleaned;
    if |f| > MAX_FRAGMENT then f[..MAX_FRAGMENT] else f
  }

  function OperationId(app: string, name: string): string {
    "app__" + Fragment(app, "app") + "__" + Fragment(name, "op")
  }

  function PathOf(app: string, name: string): string { "/v1/apps/" + app + "/actions/" + name }

  datatype Operation = Operation(operationId: string, verificationId: string)

  type Document = map<string, Operation>

  /** A success with an identifier whose fingerprint, if it has one, is that of the action. */
  predicate Publishable(a: Action, fp: Content -> string) {
    && Verified(a.verification) && HasText(a.verification.fields, "verification_id")
    && (HasText(a.verification.fields, "action_fp") ==>
          a.verification.fields["action_fp"] == Text(fp(ContentOf(a))))
  }

  function OperationOf(app: string, a: Action): Operation
    requires Verified(a.verification) && HasText(a.verification.fields, "verification_id")
  {
    Operation(OperationId(app, a.name), Strip(a.verification.fields["verification_id"].s))
  }

  function Paths(app: string, actions: seq<Action>, fp: Content -> string): Document {
    if actions == [] then map[]
    else
      var init, a := Paths(app, actions[..|actions| - 1], fp), actions[|actions| - 1];
      if Publishable(a, fp) then init[PathOf(app, a.name) := OperationOf(app, a)] else init
  }

  /** No operation identifier is used by two paths. */
  ghost predicate UniqueIds(d: Document) {
    forall p, q | p in d && q in d && d[p].operationId == d[q].operationId :: p == q
  }

  lemma PathsDiffer(app: string, m: string, n: string)
    requires PathOf(app, m) == PathOf(app, n)
    ensures m == n
  {
    var k := |"/v1/apps/" + app + "/actions/"|;
    assert PathOf(app, m)[k..] == m && PathOf(app, n)[k..] == n;
  }

  ghost predicate Lists(app: string, actions: seq<Action>, fp: Content -> string, p: string) {
    exists i :: 0 <= i < |actions| && Publishable(actions[i], fp) && p == PathOf(app, actions[i].name)
  }

  lemma ListsOneMore(app: string, init: seq<Action>, a: Action, fp: Content -> string, p: string)
    ensures Lists(app, init + [a], fp, p) <==>
            Lists(app, init, fp, p) || (Publishable(a, fp) && p == PathOf(app, a.name))
  {
    var all := init + [a];
    if Lists(app, init, fp, p) {
      var i :| 0 <= i < |init| && Publishable(init[i], fp) && p == PathOf(app, init[i].name);
      assert all[i] == init[i];
    }
    if Publishable(a, fp) && p == PathOf(app, a.name) { assert all[|init|] == a; }
  }

  lemma {:induction false} PathsKeys(app: string, actions: seq<Action>, fp: Content -> string, p: string)
    ensures p in Paths(app, actions, fp) <==> Lists(app, actions, fp, p)
    decreases |actions|
  {
    if actions == [] {
    } else {
      var n := |actions| - 1;
      PathsKeys(app, actions[..n], fp, p);
      ListsOneMore(app, actions[..n], actions[n], fp, p);
      assert actions == actions[..n] + [actions[n]];
    }
  }

  lemma {:induction false} PathsIds(app: string, actions: seq<Action>, fp: Content -> string, name: string)
    requires PathOf(app, name) in Paths(app, actions, fp)
    ensures Paths(app, actions, fp)[PathOf(app, name)].operationId == OperationId(app, name)
    decreases |actions|
  {
    var n := |actions| - 1;
    if PathOf(app, name) == PathOf(app, actions[n].name) { PathsDiffer(app, name, actions[n].name); }
    if Publishable(actions[n], fp) && name == actions[n].name {
    } else {
      PathsIds(app, actions[..n], fp, name);
    }
  }

  /** The document has a path for exactly the publishable actions, each with its own operation. */
  lemma PathsList(app: string, actions: seq<Action>, fp: Content -> string)
    ensures forall p :: p in Paths(app, actions, fp) <==> Lists(app, actions, fp, p)
    ensures forall i | 0 <= i < |actions| && Publishable(actions[i], fp) ::
              && PathOf(app, actions[i].name) in Paths(app, actions, fp)
              && Paths(app, actions, fp)[PathOf(app, actions[i].name)].operationId == OperationId(app, actions[i].name)
  {
    forall p ensures p in Paths(app, actions, fp) <==> Lists(app, actions, fp, p) {
      PathsKeys(app, actions, fp, p);
    }
    forall i | 0 <= i < |actions| && Publishable(actions[i], fp)
      ensures PathOf(app, actions[i].name) in Paths(app, actions, fp)
      ensures Paths(app, actions, fp)[PathOf(app, actions[i].name)].operationId == OperationId(app, actions[i].name)
    {
      assert Lists(app, actions, fp, PathOf(app, actions[i].name));
      PathsIds(app, actions, fp, actions[i].name);
    }
  }

  /** Two publishable actions whose names differ but shorten to the same fragment. */
  ghost predicate Clash(actions: seq<Action>, fp: Content -> string) {
    exists i, j :: 0 <= i < |actions| && 0 <= j < |actions|
      && Publishable(actions[i], fp) && Publishable(actions[j], fp)
      && actions[i].name != actions[j].name && Fragment(actions[i].name, "op") == Fragment(actions[j].name, "op")
  }

  lemma SameId(app: string, m: string, n: string)
    ensures OperationId(app, m) == OperationId(app, n) <==> Fragment(m, "op") == Fragment(n, "op")
  {
    var k := |"app__" + Fragment(app, "app") + "__"|;
    assert OperationId(app, m)[k..] == Fragment(m, "op") && OperationId(app, n)[k..] == Fragment(n, "op");
  }

  /** The document is refused exactly when two published names clash. */
  lemma RefusedIffClash(app: string, actions: seq<Action>, fp: Content -> string)
    ensures UniqueIds(Paths(app, actions, fp)) <==> !Clash(actions, fp)
  {
    var d := Paths(app, actions, fp);
    PathsList(app, actions, fp);
    if Clash(actions, fp) {
      ClashRefuses(app, actions, fp);
    } else {
      forall p, q | p in d && q in d && d[p].operationId == d[q].operationId ensures p == q {
        assert Lists(app, actions, fp, p) && Lists(app, actions, fp, q);
        var i :| 0 <= i < |actions| && Publishable(actions[i], fp) && p == PathOf(app, actions[i].name);
        var j :| 0 <= j < |actions| && Publishable(actions[j], fp) && q == PathOf(app, actions[j].name);
        SameId(app, actions[i].name, actions[j].name);
      }
    }
  }

  lemma ClashRefuses(app: string, actions: seq<Action>, fp: Content -> string)
    requires Clash(actions, fp)
    ensures !UniqueIds(Paths(app, actions, fp))
  {
    PathsList(app, actions, fp);
    var i, j :| 0 <= i < |actions| && 0 <= j < |actions|
      && Publishable(actions[i], fp) && Publishable(actions[j], fp)
      && actions[i].name != actions[j].name && Fragment(actions[i].name, "op") == Fragment(actions[j].name, "op");
    SameId(app, actions[i].name, actions[j].name);
    var p, q := PathOf(app, actions[i].name), PathOf(app, actions[j].name);
    if p == q { PathsDiffer(app, actions[i].name, actions[j].name); }
  }

  // ---- Which names never clash -----------------------------------------------------------

  /** A name that is its own fragment. */
  predicate Tidy(name: string) {
    && 0 < |name| <= MAX_FRAGMENT && (forall i | 0 <= i < |name| :: IsSafe(name[i]))
    && name[0] != '_' && name[|name| - 1] != '_'
  }

  lemma {:induction false} CollapseKeeps(s: string)
    requires forall i | 0 <= i < |s| :: IsSafe(s[i])
    ensures Collapse(s) == s
  {
    if s == "" {
    } else {
      CollapseKeeps(s[1..]);
    }
  }

  lemma TidyIsKept(name: string)
    requires Tidy(name)
    ensures Fragment(name, "op") == name
  {
    StripTrimmed(name);
    CollapseKeeps(name);
  }

  /** Tidy names never clash. */
  lemma TidyNamesPublish(app: string, actions: seq<Action>, fp: Content -> string)
    requires forall i | 0 <= i < |actions| && Publishable(actions[i], fp) :: Tidy(actions[i].name)
    ensures UniqueIds(Paths(app, actions, fp))
  {
    forall i | 0 <= i < |actions| && Publishable(actions[i], fp)
      ensures Fragment(actions[i].name, "op") == actions[i].name
    {
      TidyIsKept(actions[i].name);
    }
    RefusedIffClash(app, actions, fp);
  }

  /** But a tidy name does clash with itself and an underscore, as for controls "ok" and "ok.". */
  lemma UnderscoreClashes(name: string)
    requires Tidy(name)
    ensures Fragment(name + "_", "op") == Fragment(name, "op") && name + "_" != name
  {
    var longer := name + "_";
    TidyIsKept(name);
    StripTrimmed(longer);
    CollapseKeeps(longer);
    assert longer[0] == name[0] && longer[..|longer| - 1] == name;
    assert TrimUnderscores(longer) == TrimUnderscores(name);
    assert TrimUnderscores(name) == name;
  }

  // ---- Generating the document -----------------------------------------------------------

  /** Refuse a document in which an operation identifier occurs twice. */
  method Validate(d: Document) returns (accepted: bool)
    ensures accepted <==> UniqueIds(d)
  {
    var pending, seen: map<string, string> := d.Keys, map[];
    while pending != {}
      invariant pending <= d.Keys
      invariant forall p | p in d && p !in pending :: d[p].operationId in seen && seen[d[p].operationId] == p
      invariant forall x | x in seen :: seen[x] in d && seen[x] !in pending && d[seen[x]].operationId == x
    {
      var p :| p in pending;
      var x := d[p].operationId;
      if x in seen {
        assert seen[x] != p && d[seen[x]].operationId == x;
        return false;
      }
      seen := seen[x := p];
      pending := pending - {p};
    }
    accepted := true;
  }

  /** The document for an adapter, or nothing when validation refuses it. */
  method GenerateOpenapi(app: string, actions: seq<Action>, fp: Content -> string) returns (r: Option<Document>)
    ensures r.Some? <==> !Clash(actions, fp)
    ensures r.Some? ==> r.value == Paths(app, actions, fp)
  {
    var paths: Document := map[];
    for i := 0 to |actions|
      invariant paths == Paths(app, actions[..i], fp)
    {
      var a := actions[i];
      assert actions[..i + 1][..i] == actions[..i];
      if Publishable(a, fp) { paths := paths[PathOf(app, a.name) := OperationOf(app, a)]; }
    }
    assert actions[..|actions|] == actions;
    RefusedIffClash(app, actions, fp);
    var accepted := Validate(paths);
    r := if accepted then Some(paths) else None;
  }
}

/**
 The adapter engine: a registry of adapters in memory, their manifests in the store, and the
 recording of verdicts. Each method is one critical section, so every interleaving of threads
 is a sequence of these calls on adapters that were resolved at any earlier time.
 */
module AdapterEngine {
  import opened Wrappers
  import opened Texts
  import opened EvidenceRecords
  import opened VirtualApi

  /** Every success carries an identifier and a fingerprint, and nothing else carries an identifier. */
  ghost predicate WellKept(actions: seq<Action>) {
    forall i | 0 <= i < |actions| ::
      && Held(actions[i].verification)
      && (Verified(actions[i].verification) ==> HasText(actions[i].verification.fields, "action_fp"))
  }

  ghost predicate Stamped(actions: seq<Action>, fp: Content -> string) {
    forall i | 0 <= i < |actions| :: !Misstamped(actions[i], fp)
  }

  /** The published paths are those of the verified actions whose evidence is about their own content. */
  lemma PublishesExactly(app: string, actions: seq<Action>, fp: Content -> string, p: string)
    requires WellKept(actions)
    ensures p in Paths(app, actions, fp) <==>
            exists i :: 0 <= i < |actions| && Verified(actions[i].verification)
              && !Misstamped(actions[i], fp) && p == PathOf(app, actions[i].name)
  {
    PathsKeys(app, actions, fp, p);
    if Lists(app, actions, fp, p) {
      var i :| 0 <= i < |actions| && Publishable(actions[i], fp) && p == PathOf(app, actions[i].name);
      assert Held(actions[i].verification) && !Misstamped(actions[i], fp);
    }
    if i :| 0 <= i < |actions| && Verified(actions[i].verification)
              && !Misstamped(actions[i], fp) && p == PathOf(app, actions[i].name) {
      assert Publishable(actions[i], fp);
    }
  }

  /** The stored document mirrors the actions, unless they clash: then it is an older one. */
  ghost predicate Consistent(app: string, actions: seq<Action>, doc: Document, fp: Content -> string) {
    && Strip(app) != "" && WellKept(actions) && UniqueIds(doc)
    && (doc == Paths(app, actions, fp) <==> !Clash(actions, fp))
  }

  lemma NewIsConsistent(app: string, actions: seq<Action>, fp: Content -> string)
    requires Strip(app) != "" && WellKept(actions) && !Clash(actions, fp)
    ensures Consistent(app, actions, Paths(app, actions, fp), fp)
  {
    RefusedIffClash(app, actions, fp);
  }

  lemma StaleIsConsistent(app: string, actions: seq<Action>, doc: Document, fp: Content -> string)
    requires Strip(app) != "" && WellKept(actions) && Clash(actions, fp) && UniqueIds(doc)
    ensures Consistent(app, actions, doc, fp) && doc != Paths(app, actions, fp)
  {
    RefusedIffClash(app, actions, fp);
  }

  /** An adapter object; the engine knows it by the number of its making. */
  datatype Adapter = Adapter(appId: string, actions: seq<Action>, openapi: Document, bound: bool, persisted: bool)

  datatype Outcome = NotFound | Refused | Recorded(verified: bool, persisted: bool)

  /** What discovery knows about a control. */
  datatype Control = Control(name: string, automationId: string, controlType: string, params: seq<string>, risk: string)

  function Discovered(cs: seq<Control>): seq<Action> {
    seq(|cs|, i requires 0 <= i < |cs| =>
      Action(cs[i].name, cs[i].automationId, cs[i].controlType, cs[i].params, cs[i].risk, Absent))
  }

  /** The position of the first action of that name, or the length. */
  function IndexOf(actions: seq<Action>, name: string): (i: nat)
    ensures i <= |actions| && (i < |actions| ==> actions[i].name == name)
    ensures forall k | 0 <= k < i :: actions[k].name != name
  {
    if actions == [] || actions[0].name == name then 0
    else
      var i := IndexOf(actions[1..], name);
      assert forall k | 0 < k <= i :: actions[k].name == actions[1..][k - 1].name;
      1 + i
  }

  /** The verdict as it is recorded on an action that was `before` and is now `after`. */
  function Stamp(verdict: Fields, before: Action, after: Action, fp: Content -> string): Fields {
    if fp(ContentOf(before)) != fp(ContentOf(after)) then
      map["state" := Text("FAILED"), "evidence" := Text("content changed"), "code" := Text("ACTION_FP_CHANGED")]
    else if Claimed(verdict) then verdict["action_fp" := Text(fp(ContentOf(after)))]
    else verdict
  }

  /** What the action becomes; `edited` is its content after the probe if somebody changed it meanwhile. */
  function Judged(before: Action, verdict: Fields, edited: Option<Control>, fp: Content -> string): Action {
    var after := if edited == None then before else
      Action(edited.value.name, edited.value.automationId, edited.value.controlType, edited.value.params,
             edited.value.risk, before.verification);
    after.(verification := Record(Stamp(verdict, before, after, fp)))
  }

  /** The verdict goes to the first action of that name. */
  function RecordedOn(actions: seq<Action>, name: string, verdict: Fields, edited: Option<Control>,
                      fp: Content -> string): seq<Action>
    requires IndexOf(actions, name) < |actions|
  {
    var i := IndexOf(actions, name);
    actions[i := Judged(actions[i], verdict, edited, fp)]
  }

  /** A success is recorded exactly when it was one for the content the action still has. */
  lemma JudgedProperties(before: Action, verdict: Fields, edited: Option<Control>, fp: Content -> string)
    requires Ideal(fp) && Minted(verdict)
    ensures var a := Judged(before, verdict, edited, fp);
            && Held(a.verification) && !Misstamped(a, fp)
            && (Verified(a.verification) ==> HasText(a.verification.fields, "action_fp"))
            && (Verified(a.verification) <==> Claimed(verdict) && ContentOf(a) == ContentOf(before))
            && (edited == None ==> ContentOf(a) == ContentOf(before))
  {
    var after := Judged(before, verdict, edited, fp);
    StampKeeps(verdict, before, after, fp);
  }

  /**
   Recorded evidence is a proof of what was probed exactly when the probed action has the
   content of the recorded one: the action may belong to another adapter by now.
   */
  lemma ProvesWhatWasProbedIff(before: Action, verdict: Fields, probed: Content, fp: Content -> string)
    requires Ideal(fp) && Minted(verdict) && Claimed(verdict)
    ensures Proves(Judged(before, verdict, None, fp).verification, fp(ContentOf(before)))
    ensures Proves(Judged(before, verdict, None, fp).verification, fp(probed)) <==> probed == ContentOf(before)
  {
    JudgedProperties(before, verdict, None, fp);
  }

  /** Recording keeps all evidence well kept and, if it was so, about the right content. */
  lemma RecordingKeeps(actions: seq<Action>, name: string, verdict: Fields, edited: Option<Control>,
                       fp: Content -> string)
    requires Ideal(fp) && Minted(verdict) && WellKept(actions) && IndexOf(actions, name) < |actions|
    ensures WellKept(RecordedOn(actions, name, verdict, edited, fp))
    ensures Stamped(actions, fp) ==> Stamped(RecordedOn(actions, name, verdict, edited, fp), fp)
  {
    JudgedProperties(actions[IndexOf(actions, name)], verdict, edited, fp);
  }

  ghost predicate CompleteEntries(es: seq<Entry>) {
    forall i | 0 <= i < |es| :: es[i].Entry? ==> Complete(es[i])
  }

  ghost predicate CompleteFile(f: File) {
    ReadManifest(f).Some? ==> CompleteEntries(ReadManifest(f).value.actions)
  }

  ghost predicate CompleteStore(store: map<string, File>) { forall n | n in store :: CompleteFile(store[n]) }

  /** Saved manifests leave nothing out. */
  lemma SavedIsComplete(store: map<string, File>, name: string, app: string, actions: seq<Action>)
    requires CompleteStore(store)
    ensures CompleteStore(store[name := ToFile(app, actions)])
  {
    assert CompleteFile(ToFile(app, actions));
  }

  /** What listing the manifests of a directory finds. */
  predicate IsListed(name: string) {
    |name| >= 5 && name[|name| - 5..] == ".json"
  }

  function Manifests(files: map<string, File>): map<string, File> {
    map n | n in files && IsListed(n) :: files[n]
  }

  /** The name of a manifest keeps letters, digits and "-_."; everything else becomes an underscore. */
  function SafeName(app: string, alnum: char -> bool): string {
    seq(|app|, i requires 0 <= i < |app| => if alnum(app[i]) || app[i] in "-_." then app[i] else '_')
  }

  function FileName(app: string, alnum: char -> bool): (name: string)
    ensures IsListed(name)
  {
    assert (SafeName(app, alnum) + ".json")[|SafeName(app, alnum)|..] == ".json";
    SafeName(app, alnum) + ".json"
  }

  function TemporaryName(app: string, alnum: char -> bool): (name: string)
    ensures !IsListed(name)
  {
    var name := SafeName(app, alnum) + ".json.tmp";
    assert name[|name| - 1] == 'p';
    name
  }

  /** Nothing is written; part of the temporary file is; or it is not renamed. */
  datatype DiskFault = Unwritable | Torn(part: File) | Unrenamed

  /** The directory after a manifest was written to a temporary file and renamed. */
  function Written(files: map<string, File>, temporary: string, name: string, manifest: File,
                   fault: Option<DiskFault>): map<string, File> {
    match fault
    case None => (files - {temporary})[name := manifest]
    case Some(Unwritable) => files
    case Some(Torn(part)) => files[temporary := part]
    case Some(Unrenamed) => files[temporary := manifest]
  }

  /** A file that is not listed may come, change or go unseen. */
  lemma UnlistedIsUnseen(files: map<string, File>, temporary: string, part: File)
    requires !IsListed(temporary)
    ensures Manifests(files[temporary := part]) == Manifests(files)
    ensures Manifests(files - {temporary}) == Manifests(files)
  {
  }

  lemma ListedIsSeen(files: map<string, File>, name: string, manifest: File)
    requires IsListed(name)
    ensures Manifests(files[name := manifest]) == Manifests(files)[name := manifest]
  {
  }

  /** Whatever happens, no manifest is seen in part, and no other one changes. */
  lemma WrittenInWhole(files: map<string, File>, temporary: string, name: string, manifest: File,
                       fault: Option<DiskFault>)
    requires IsListed(name) && !IsListed(temporary)
    ensures Manifests(Written(files, temporary, name, manifest, fault)) ==
            if fault.None? then Manifests(files)[name := manifest] else Manifests(files)
  {
    UnlistedIsUnseen(files, temporary, if fault.Some? && fault.value.Torn? then fault.value.part else manifest);
    ListedIsSeen(files - {temporary}, name, manifest);
  }

  function CleanEntry(e: Entry, fp: Content -> string): Entry
    requires e.Entry?
  {
    e.(verification := Sanitize(e.verification, Some(fp(EntryContent(e)))))
  }

  ghost predicate CleansOne(es: seq<Entry>, e: Entry, fp: Content -> string) {
    exists j :: 0 <= j < |es| && es[j].Entry? && e == CleanEntry(es[j], fp)
  }

  lemma {:induction false} CleanedFrom(es: seq<Entry>, fp: Content -> string, i: nat)
    requires i < |Cleaned(es, fp)|
    ensures CleansOne(es, Cleaned(es, fp)[i], fp)
    decreases |es|
  {
    var n := |es| - 1;
    var front := Cleaned(es[..n], fp);
    if i < |front| {
      CleanedFrom(es[..n], fp, i);
      var j :| 0 <= j < n && es[..n][j].Entry? && front[i] == CleanEntry(es[..n][j], fp);
      assert es[j] == es[..n][j];
    } else {
      assert es[n].Entry? && Cleaned(es, fp)[i] == CleanEntry(es[n], fp);
    }
  }

  /** Whatever a manifest says, what is restored from it is well kept; complete entries are well stamped. */
  lemma RestoredIsKept(es: seq<Entry>, fp: Content -> string)
    requires Ideal(fp)
    ensures WellKept(RestoredAll(es, fp))
    ensures CompleteEntries(es) ==> Stamped(RestoredAll(es, fp), fp)
  {
    var clean, actions := Cleaned(es, fp), RestoredAll(es, fp);
    forall i | 0 <= i < |actions|
      ensures CleansOne(es, clean[i], fp)
      ensures Held(actions[i].verification)
      ensures Verified(actions[i].verification) ==> HasText(actions[i].verification.fields, "action_fp")
      ensures Misstamped(actions[i], fp) ==> !Complete(clean[i])
    {
      CleanedFrom(es, fp, i);
      KeptEntry(clean[i], fp);
      MisstampedIff(clean[i], fp);
    }
  }

  lemma KeptEntry(e: Entry, fp: Content -> string)
    requires e.Entry?
    ensures Held(Restored(e, fp).verification)
    ensures Verified(Restored(e, fp).verification) ==> HasText(Restored(e, fp).verification.fields, "action_fp")
  {
    var expected := fp(EntryContent(e));
    SanitizeIsIdempotent(e.verification, Some(expected));
    SurvivesIff(e.verification, expected);
  }

  lemma StampKeeps(verdict: Fields, before: Action, after: Action, fp: Content -> string)
    requires Ideal(fp) && Minted(verdict)
    ensures var f := Stamp(verdict, before, after, fp);
            && Minted(f)
            && (Claimed(f) <==> Claimed(verdict) && ContentOf(before) == ContentOf(after))
            && (Claimed(f) ==> Proves(Record(f), fp(ContentOf(after))))
  {
  }

  ghost predicate Sound(a: Adapter, fp: Content -> string) { Consistent(a.appId, a.actions, a.openapi, fp) }

  ghost predicate AllSound(adapters: seq<Adapter>, fp: Content -> string) {
    adapters == [] || (AllSound(adapters[..|adapters| - 1], fp) && Sound(adapters[|adapters| - 1], fp))
  }

  /** Every success is about the content its action has. */
  ghost predicate AllStamped(adapters: seq<Adapter>, fp: Content -> string) {
    adapters == [] || (AllStamped(adapters[..|adapters| - 1], fp) && Stamped(adapters[|adapters| - 1].actions, fp))
  }

  lemma {:induction false} SoundAt(adapters: seq<Adapter>, fp: Content -> string, k: nat)
    requires k < |adapters| && AllSound(adapters, fp)
    ensures Sound(adapters[k], fp)
  {
    var n := |adapters| - 1;
    if k == n {
    } else {
      SoundAt(adapters[..n], fp, k);
    }
  }

  lemma {:induction false} StampedAt(adapters: seq<Adapter>, fp: Content -> string, k: nat)
    requires k < |adapters| && AllStamped(adapters, fp)
    ensures Stamped(adapters[k].actions, fp)
  {
    var n := |adapters| - 1;
    if k == n {
    } else {
      StampedAt(adapters[..n], fp, k);
    }
  }

  lemma AppendKeeps(adapters: seq<Adapter>, b: Adapter, fp: Content -> string)
    requires AllSound(adapters, fp) && Sound(b, fp)
    ensures AllSound(adapters + [b], fp)
    ensures AllStamped(adapters, fp) && Stamped(b.actions, fp) ==> AllStamped(adapters + [b], fp)
  {
    assert (adapters + [b])[..|adapters|] == adapters;
  }

  lemma {:induction false} ReplaceKeepsSound(adapters: seq<Adapter>, k: nat, b: Adapter, fp: Content -> string)
    requires k < |adapters| && AllSound(adapters, fp) && Sound(b, fp)
    ensures AllSound(adapters[k := b], fp)
  {
    var n := |adapters| - 1;
    if k < n {
      ReplaceKeepsSound(adapters[..n], k, b, fp);
      assert adapters[k := b][..n] == adapters[..n][k := b];
    } else {
      assert adapters[k := b][..n] == adapters[..n];
    }
  }

  lemma {:induction false} ReplaceKeepsStamped(adapters: seq<Adapter>, k: nat, b: Adapter, fp: Content -> string)
    requires k < |adapters| && AllStamped(adapters, fp) && (Stamped(adapters[k].actions, fp) ==> Stamped(b.actions, fp))
    ensures AllStamped(adapters[k := b], fp)
  {
    var n := |adapters| - 1;
    if k < n {
      ReplaceKeepsStamped(adapters[..n], k, b, fp);
      assert adapters[k := b][..n] == adapters[..n][k := b];
    } else {
      assert adapters[k := b][..n] == adapters[..n];
    }
  }

  /** Recording a verdict on one adapter keeps all evidence about the content of its action. */
  lemma RecordedStaysStamped(adapters: seq<Adapter>, k: nat, b: Adapter, name: string, verdict: Fields,
                             edited: Option<Control>, fp: Content -> string)
    requires Ideal(fp) && Minted(verdict) && k < |adapters| && AllSound(adapters, fp) && AllStamped(adapters, fp)
    requires IndexOf(adapters[k].actions, name) < |adapters[k].actions|
    requires b.actions == RecordedOn(adapters[k].actions, name, verdict, edited, fp)
    ensures AllStamped(adapters[k := b], fp)
  {
    SoundAt(adapters, fp, k);
    RecordingKeeps(adapters[k].actions, name, verdict, edited, fp);
    ReplaceKeepsStamped(adapters, k, b, fp);
  }

  /** The registry names adapters by number, each under its own application. */
  predicate Registered(registry: map<string, nat>, adapters: seq<Adapter>) {
    forall app | app in registry :: registry[app] < |adapters| && adapters[registry[app]].appId == app
  }

  /** What the manifest in a file restores is this adapter. */
  ghost predicate Restores(f: File, a: Adapter, fp: Content -> string) {
    && ReadManifest(f).Some? && ReadManifest(f).value.appId == a.appId
    && a.actions == RestoredAll(ReadManifest(f).value.actions, fp) && !a.bound
    && a.openapi == Paths(a.appId, a.actions, fp) && !Clash(a.actions, fp)
  }

  /** Some trusted file restores this adapter. */
  ghost predicate RestoredFrom(a: Adapter, files: map<string, File>, trusted: Manifest -> bool, fp: Content -> string) {
    exists n :: n in files && Restores(files[n], a, fp) && trusted(ReadManifest(files[n]).value)
  }

  /** All that was registered still is, and all that was added was restored from trusted files. */
  ghost predicate Extends(r0: map<string, nat>, a0: seq<Adapter>, r1: map<string, nat>, a1: seq<Adapter>,
                          files: map<string, File>, trusted: Manifest -> bool, fp: Content -> string) {
    && a0 <= a1
    && (forall app | app in r0 :: app in r1 && r1[app] == r0[app])
    && (forall app | app in r1 && app !in r0 :: |a0| <= r1[app] < |a1|)
    && (forall i | |a0| <= i < |a1| :: RestoredFrom(a1[i], files, trusted, fp))
  }

  lemma ExtendsFurther(r0: map<string, nat>, a0: seq<Adapter>, r1: map<string, nat>, a1: seq<Adapter>,
                       r2: map<string, nat>, a2: seq<Adapter>,
                       files: map<string, File>, trusted: Manifest -> bool, fp: Content -> string)
    requires Extends(r0, a0, r1, a1, files, trusted, fp) && Extends(r1, a1, r2, a2, files, trusted, fp)
    ensures Extends(r0, a0, r2, a2, files, trusted, fp)
  {
    forall i | |a0| <= i < |a2| ensures RestoredFrom(a2[i], files, trusted, fp) {
      if i < |a1| { assert a2[i] == a1[i]; }
    }
  }

  /** The application of every readable, trusted file of these names is registered. */
  ghost predicate Covers(files: map<string, File>, names: set<string>, trusted: Manifest -> bool,
                         registry: map<string, nat>) {
    forall n | n in names && n in files && ReadManifest(files[n]).Some? && trusted(ReadManifest(files[n]).value) ::
      ReadManifest(files[n]).value.appId in registry
  }

  /** A trusted file whose actions clash. */
  ghost predicate ClashIn(f: File, trusted: Manifest -> bool, fp: Content -> string) {
    && ReadManifest(f).Some? && trusted(ReadManifest(f).value)
    && Clash(RestoredAll(ReadManifest(f).value.actions, fp), fp)
  }

  /** Nothing was verified yet, so nothing is published. */
  method NewAdapter(app: string, controls: seq<Control>, fp: Content -> string) returns (a: Adapter)
    requires Strip(app) != ""
    ensures a == Adapter(app, Discovered(controls), map[], true, false)
    ensures Sound(a, fp) && Stamped(a.actions, fp)
  {
    var actions := Discovered(controls);
    assert forall p :: !Lists(app, actions, fp, p);
    PathsList(app, actions, fp);
    assert Paths(app, actions, fp) == map[];
    NewIsConsistent(app, actions, fp);
    var doc := GenerateOpenapi(app, actions, fp);
    a := Adapter(app, actions, doc.value, true, false);
  }

  /** The adapter that one manifest restores; nothing when its document is refused. */
  method Restore(m: Manifest, fp: Content -> string) returns (r: Option<Adapter>)
    requires Ideal(fp) && Strip(m.appId) != ""
    ensures r.None? <==> Clash(RestoredAll(m.actions, fp), fp)
    ensures r.Some? ==> r.value.appId == m.appId && r.value.actions == RestoredAll(m.actions, fp) && !r.value.bound
    ensures r.Some? ==> r.value.openapi == Paths(m.appId, r.value.actions, fp) && Sound(r.value, fp)
  {
    var actions := RestoredAll(m.actions, fp);
    RestoredIsKept(m.actions, fp);
    var doc := GenerateOpenapi(m.appId, actions, fp);
    if doc.None? { return None; }
    NewIsConsistent(m.appId, actions, fp);
    r := Some(Adapter(m.appId, actions, doc.value, false, false));
  }

  /** The adapter after a verdict: when publication raises, the document stays as it was. */
  ghost function AfterVerdict(a: Adapter, name: string, verdict: Fields, edited: Option<Control>,
                              fp: Content -> string): Adapter {
    if IndexOf(a.actions, name) == |a.actions| then a
    else
      var now := RecordedOn(a.actions, name, verdict, edited, fp);
      a.(actions := now, openapi := if Clash(now, fp) then a.openapi else Paths(a.appId, now, fp))
  }

  ghost function OutcomeOf(a: Adapter, name: string, verdict: Fields, edited: Option<Control>,
                           fp: Content -> string, persisted: bool): Outcome {
    var i := IndexOf(a.actions, name);
    if i == |a.actions| then NotFound
    else
      var now := RecordedOn(a.actions, name, verdict, edited, fp);
      if Clash(now, fp) then Refused else Recorded(Verified(now[i].verification), persisted)
  }

  /**
   What a verdict does: it goes to the first action of its name and to no other, counts as a
   success when it is one for unchanged content, and the document follows or is known stale.
   */
  lemma VerdictMeans(a: Adapter, name: string, verdict: Fields, edited: Option<Control>, fp: Content -> string,
                     persisted: bool)
    requires Ideal(fp) && Sound(a, fp) && Minted(verdict)
    ensures var b, r := AfterVerdict(a, name, verdict, edited, fp), OutcomeOf(a, name, verdict, edited, fp, persisted);
            && Sound(b, fp) && b == a.(actions := b.actions, openapi := b.openapi)
            && (r == NotFound <==> forall i | 0 <= i < |a.actions| :: a.actions[i].name != name)
            && (r == NotFound ==> b == a)
            && (r != NotFound ==>
                  var i := IndexOf(a.actions, name);
                  && i < |a.actions| && a.actions[i].name == name && |b.actions| == |a.actions|
                  && (forall k | 0 <= k < |a.actions| && k != i :: b.actions[k] == a.actions[k])
                  && (Verified(b.actions[i].verification) <==>
                        Claimed(verdict) && ContentOf(b.actions[i]) == ContentOf(a.actions[i]))
                  && (r.Recorded? ==> r.verified == Verified(b.actions[i].verification)))
            && (r.Recorded? ==> b.openapi == Paths(b.appId, b.actions, fp))
            && (r == Refused ==> b.openapi == a.openapi && b.openapi != Paths(b.appId, b.actions, fp))
  {
    var i := IndexOf(a.actions, name);
    if i < |a.actions| {
      RecordingKeeps(a.actions, name, verdict, edited, fp);
      JudgedProperties(a.actions[i], verdict, edited, fp);
      DocumentFollows(a, RecordedOn(a.actions, name, verdict, edited, fp), fp);
    }
  }

  lemma DocumentFollows(a: Adapter, now: seq<Action>, fp: Content -> string)
    requires Sound(a, fp) && WellKept(now)
    ensures var doc := if Clash(now, fp) then a.openapi else Paths(a.appId, now, fp);
            Sound(a.(actions := now, openapi := doc), fp) && (Clash(now, fp) ==> doc != Paths(a.appId, now, fp))
  {
    if Clash(now, fp) {
      StaleIsConsistent(a.appId, now, a.openapi, fp);
    } else {
      NewIsConsistent(a.appId, now, fp);
    }
  }

  /** Record a verdict in memory: on the action, then in the document that follows from it. */
  method Judge(a: Adapter, name: string, verdict: Fields, edited: Option<Control>, fp: Content -> string)
    returns (b: Adapter, r: Outcome)
    ensures b == AfterVerdict(a, name, verdict, edited, fp) && r == OutcomeOf(a, name, verdict, edited, fp, false)
  {
    var i := IndexOf(a.actions, name);
    if i == |a.actions| { return a, NotFound; }
    b := a.(actions := RecordedOn(a.actions, name, verdict, edited, fp));
    var doc := GenerateOpenapi(b.appId, b.actions, fp);
    if doc.None? { return b, Refused; }
    b := b.(openapi := doc.value);
    r := Recorded(Verified(b.actions[i].verification), false);
  }

  /** A store after an adapter was saved. */
  function SavedIn(store: map<string, File>, a: Adapter, alnum: char -> bool): map<string, File> {
    store[FileName(a.appId, alnum) := ToFile(a.appId, a.actions)]
  }

  function MarkedSaved(a: Adapter, saved: bool): Adapter { a.(persisted := a.persisted || saved) }

  lemma ReplacedTwice(adapters: seq<Adapter>, k: nat, b: Adapter, saved: bool)
    requires k < |adapters|
    ensures adapters[k := b][k := MarkedSaved(b, saved)] == adapters[k := MarkedSaved(b, saved)]
    ensures !saved ==> MarkedSaved(b, saved) == b
  {
  }

  lemma MarkingKeeps(registry: map<string, nat>, adapters: seq<Adapter>, k: nat, saved: bool, fp: Content -> string)
    requires AllSound(adapters, fp) && Registered(registry, adapters) && k < |adapters|
    ensures AllSound(adapters[k := MarkedSaved(adapters[k], saved)], fp)
    ensures Registered(registry, adapters[k := MarkedSaved(adapters[k], saved)])
  {
    SoundAt(adapters, fp, k);
    ReplaceKeepsSound(adapters, k, MarkedSaved(adapters[k], saved), fp);
  }

  lemma VerdictKeeps(registry: map<string, nat>, adapters: seq<Adapter>, k: nat, name: string, verdict: Fields,
                     edited: Option<Control>, fp: Content -> string)
    requires Ideal(fp) && Minted(verdict)
    requires AllSound(adapters, fp) && Registered(registry, adapters) && k < |adapters|
    ensures var b := AfterVerdict(adapters[k], name, verdict, edited, fp);
            AllSound(adapters[k := b], fp) && Registered(registry, adapters[k := b])
  {
    SoundAt(adapters, fp, k);
    VerdictMeans(adapters[k], name, verdict, edited, fp, false);
    ReplaceKeepsSound(adapters, k, AfterVerdict(adapters[k], name, verdict, edited, fp), fp);
  }

  class Engine {
    const fp: Content -> string
    const alnum: char -> bool
    var registry: map<string, nat>
    var files: map<string, File>   // the directory of the store
    var adapters: seq<Adapter>   // every adapter made so far: threads may still hold any of them

    constructor (fp: Content -> string, alnum: char -> bool, files: map<string, File>)
      requires Ideal(fp)
      ensures Valid() && this.fp == fp && this.alnum == alnum && this.files == files
      ensures adapters == [] && registry == map[]
    {
      this.fp, this.alnum, this.files, registry, adapters := fp, alnum, files, map[], [];
    }

    ghost predicate Valid()
      reads this
    {
      Ideal(fp) && AllSound(adapters, fp) && Registered(registry, adapters)
    }

    /** The manifests that loading reads. */
    function Store(): map<string, File>
      reads this`files
    {
      Manifests(files)
    }

    /**
     Write the manifest of an adapter beside its file and rename it over that. Wherever this
     stops, the manifests are the old ones, or those with this one in whole.
     */
    method Save(a: Adapter, fault: Option<DiskFault>) returns (ok: bool)
      modifies this`files
      ensures ok == fault.None?
      ensures files == Written(old(files), TemporaryName(a.appId, alnum), FileName(a.appId, alnum),
                               ToFile(a.appId, a.actions), fault)
      ensures Store() == if ok then SavedIn(old(Store()), a, alnum) else old(Store())
    {
      var temporary, name := TemporaryName(a.appId, alnum), FileName(a.appId, alnum);
      var manifest := ToFile(a.appId, a.actions);
      WrittenInWhole(files, temporary, name, manifest, fault);
      ok := false;
      match fault
      case Some(Unwritable) =>
      case Some(Torn(part)) => files := files[temporary := part];
      case Some(Unrenamed) => files := files[temporary := manifest];
      case None =>
        files := files[temporary := manifest];
        files := (files - {temporary})[name := manifest];
        ok := true;
    }

    /** Register a new adapter for the discovered controls; a blank name is rejected. */
    method CreateAdapter(app: string, controls: seq<Control>, fault: Option<DiskFault>) returns (created: bool)
      requires Valid()
      modifies this
      ensures Valid() && (created <==> Strip(app) != "")
      ensures !created ==> registry == old(registry) && files == old(files) && adapters == old(adapters)
      ensures created ==>
                var a := Adapter(app, Discovered(controls), map[], true, fault.None?);
                && registry == old(registry)[app := |old(adapters)|] && adapters == old(adapters) + [a]
                && Store() == if fault.None? then SavedIn(old(Store()), a, alnum) else old(Store())
    {
      if Strip(app) == "" { return false; }
      var a := NewAdapter(app, controls, fp);
      registry := registry[app := |adapters|];
      var saved := Save(a, fault);
      AppendKeeps(adapters, a.(persisted := saved), fp);
      adapters := adapters + [a.(persisted := saved)];
      created := true;
    }

    /**
     Restore the readable, trusted manifests of applications that are not registered. A
     manifest whose document is refused raises: the rest is then not restored.
     */
    method LoadPersistedAdapters(trusted: Manifest -> bool) returns (raised: bool)
      requires Valid()
      modifies this`registry, this`adapters
      ensures Valid() && Extends(old(registry), old(adapters), registry, adapters, Store(), trusted, fp)
      ensures raised || Covers(Store(), Store().Keys, trusted, registry)
      ensures raised ==> exists n :: n in Store() && ClashIn(Store()[n], trusted, fp)
    {
      var pending := Store().Keys;
      raised := false;
      while pending != {} && !raised
        invariant Valid() && pending <= Store().Keys
        invariant Extends(old(registry), old(adapters), registry, adapters, Store(), trusted, fp)
        invariant raised || Covers(Store(), Store().Keys - pending, trusted, registry)
        invariant raised ==> exists n :: n in Store() && ClashIn(Store()[n], trusted, fp)
        decreases |pending|
      {
        var n :| n in pending;
        ghost var r, a := registry, adapters;
        raised := LoadOne(n, trusted);
        ExtendsFurther(old(registry), old(adapters), r, a, registry, adapters, Store(), trusted, fp);
        pending := pending - {n};
      }
    }

    /** Load one manifest. */
    method LoadOne(n: string, trusted: Manifest -> bool) returns (raised: bool)
      requires Valid() && n in Store()
      modifies this`registry, this`adapters
      ensures Valid() && (raised ==> ClashIn(Store()[n], trusted, fp))
      ensures Extends(old(registry), old(adapters), registry, adapters, Store(), trusted, fp)
      ensures raised || Covers(Store(), {n}, trusted, registry)
    {
      raised := false;
      var read := ReadManifest(Store()[n]);
      if read.Some? && read.value.appId !in registry && trusted(read.value) {
        var m := read.value;
        var a := Restore(m, fp);
        if a.None? { return true; }
        assert Restores(Store()[n], a.value, fp);
        registry := registry[m.appId := |adapters|];
        AppendKeeps(adapters, a.value, fp);
        adapters := adapters + [a.value];
      }
    }

    /**
     Record a verdict on the first action of that name, on adapter number `k`, which was
     resolved earlier; by now another one may be registered for its application. Publication
     raises when names clash: then the verdict stands, the document is the old one and
     nothing is saved.
     */
    method RecordVerdict(k: nat, name: string, verdict: Fields, edited: Option<Control>, fault: Option<DiskFault>)
      returns (r: Outcome)
      requires Valid() && k < |adapters| && Minted(verdict)
      modifies this`files, this`adapters
      ensures Valid() && r == OutcomeOf(old(adapters)[k], name, verdict, edited, fp, fault.None?)
      ensures var b := AfterVerdict(old(adapters)[k], name, verdict, edited, fp);
              && adapters == old(adapters)[k := MarkedSaved(b, r.Recorded? && r.persisted)]
              && Store() == if r.Recorded? && r.persisted then SavedIn(old(Store()), b, alnum) else old(Store())
      ensures !r.Recorded? ==> files == old(files)
    {
      r := JudgeAt(k, name, verdict, edited);
      ReplacedTwice(old(adapters), k, adapters[k], r.Recorded? && fault.None?);
      if r.Recorded? {
        var saved := SaveAt(k, fault);
        r := r.(persisted := saved);
      }
    }

    /** The part in memory. */
    method JudgeAt(k: nat, name: string, verdict: Fields, edited: Option<Control>) returns (r: Outcome)
      requires Valid() && k < |adapters| && Minted(verdict)
      modifies this`adapters
      ensures Valid() && r == OutcomeOf(old(adapters)[k], name, verdict, edited, fp, false)
      ensures adapters == old(adapters)[k := AfterVerdict(old(adapters)[k], name, verdict, edited, fp)]
    {
      VerdictKeeps(registry, adapters, k, name, verdict, edited, fp);
      var b;
      b, r := Judge(adapters[k], name, verdict, edited, fp);
      adapters := adapters[k := b];
    }

    /** The part on disk: a published verdict is saved. */
    method SaveAt(k: nat, fault: Option<DiskFault>) returns (saved: bool)
      requires Valid() && k < |adapters|
      modifies this`files, this`adapters
      ensures Valid() && saved == fault.None?
      ensures adapters == old(adapters)[k := MarkedSaved(old(adapters)[k], saved)]
      ensures Store() == if saved then SavedIn(old(Store()), old(adapters)[k], alnum) else old(Store())
    {
      saved := Save(adapters[k], fault);
      MarkingKeeps(registry, adapters, k, saved, fp);
      adapters := adapters[k := MarkedSaved(adapters[k], saved)];
    }

    method ResetAdapters()
      requires Valid()
      modifies this`registry
      ensures Valid() && registry == map[]
    {
      registry := map[];
    }

    /** Anyone may change the files of the store. */
    method EditStore(files: map<string, File>)
      requires Valid()
      modifies this`files
      ensures Valid() && this.files == files
    {
      this.files := files;
    }
  }

  /**
   What the two invariants say of any adapter: a verified action carries an identifier and the
   fingerprint of its own content, and the stored document has exactly the paths of the
   verified actions if and only if no two published names clash.
   */
  lemma EvidenceInvariant(adapters: seq<Adapter>, fp: Content -> string, k: nat)
    requires k < |adapters| && AllSound(adapters, fp) && AllStamped(adapters, fp)
    ensures forall i | 0 <= i < |adapters[k].actions| && Verified(adapters[k].actions[i].verification) ::
              Proves(adapters[k].actions[i].verification, fp(ContentOf(adapters[k].actions[i])))
    ensures adapters[k].openapi == Paths(adapters[k].appId, adapters[k].actions, fp) <==>
            !Clash(adapters[k].actions, fp)
    ensures forall p :: p in Paths(adapters[k].appId, adapters[k].actions, fp) <==>
              exists i :: 0 <= i < |adapters[k].actions| && Verified(adapters[k].actions[i].verification)
                && p == PathOf(adapters[k].appId, adapters[k].actions[i].name)
  {
    SoundAt(adapters, fp, k);
    StampedAt(adapters, fp, k);
    var a := adapters[k];
    forall i | 0 <= i < |a.actions| && Verified(a.actions[i].verification)
      ensures Proves(a.actions[i].verification, fp(ContentOf(a.actions[i])))
    {
      assert !Misstamped(a.actions[i], fp);
    }
    forall p ensures p in Paths(a.appId, a.actions, fp) <==>
                     exists i :: 0 <= i < |a.actions| && Verified(a.actions[i].verification)
                       && p == PathOf(a.appId, a.actions[i].name)
    {
      PublishesExactly(a.appId, a.actions, fp, p);
    }
  }

  // ---- Failing inputs --------------------------------------------------------------------

  function Success(id: string): Fields { map["state" := Text("VERIFIED"), "verification_id" := Text(id)] }

  lemma SuccessIsMinted(id: string)
    requires Trimmed(id) && id != ""
    ensures Minted(Success(id)) && Claimed(Success(id))
  {
    StripTrimmed(id);
  }

  function FieldAction(name: string, v: Verification): Action { Action(name, "field", "Edit", [], "low", v) }

  /** A proven entry without a name comes back verified for content that the action has not. */
  lemma MissingNameKeepsProof(fp: Content -> string) returns (e: Entry)
    requires Ideal(fp)
    ensures e.Entry? && e.name == None && Misstamped(Restored(e, fp), fp)
  {
    var content := Content(None, Some("field"), Some("Edit"), [], "low");
    var proof := Success("ver_1")["action_fp" := Text(fp(content))];
    e := Entry(None, Some("field"), Some("Edit"), [], None, Record(proof));
    StripTrimmed("ver_1");
    assert EntryContent(e) == content && proof["action_fp"] == Text(fp(content));
    MisstampedIff(e, fp);
  }

  /**
   Two names that differ by an underscore, such as "ok" and "ok_": when the second action is
   verified after the first, the stored document is no longer that of the verified actions.
   */
  lemma SecondSuccessIsNotPublished(app: string, name: string, verdict: Fields, fp: Content -> string)
    returns (actions: seq<Action>)
    requires Ideal(fp) && Strip(app) != "" && Tidy(name) && Minted(verdict) && Claimed(verdict)
    ensures WellKept(actions) && IndexOf(actions, name + "_") < |actions|
    ensures Consistent(app, actions, Paths(app, actions, fp), fp)
    ensures var now := RecordedOn(actions, name + "_", verdict, None, fp);
            Clash(now, fp) && Paths(app, actions, fp) != Paths(app, now, fp)
  {
    var first, second := Judged(FieldAction(name, Absent), verdict, None, fp), FieldAction(name + "_", Absent);
    JudgedProperties(FieldAction(name, Absent), verdict, None, fp);
    JudgedProperties(second, verdict, None, fp);
    actions := [first, second];
    SecondOfTwo(first, second);
    var now := RecordedOn(actions, second.name, verdict, None, fp);
    assert now == [first, Judged(second, verdict, None, fp)];
    UnderscoreClashes(name);
    TwoClash(now, fp);
    OneCannotClash(first, second, fp);
    NewIsConsistent(app, actions, fp);
    StaleIsConsistent(app, now, Paths(app, actions, fp), fp);
  }

  lemma SecondOfTwo(first: Action, second: Action)
    requires first.name != second.name
    ensures IndexOf([first, second], second.name) == 1
  {
    assert [first, second][1..] == [second];
  }

  lemma TwoClash(actions: seq<Action>, fp: Content -> string)
    requires |actions| == 2 && Publishable(actions[0], fp) && Publishable(actions[1], fp)
    requires actions[0].name != actions[1].name && Fragment(actions[0].name, "op") == Fragment(actions[1].name, "op")
    ensures Clash(actions, fp)
  {
  }

  lemma OneCannotClash(first: Action, second: Action, fp: Content -> string)
    requires second.verification == Absent
    ensures !Clash([first, second], fp)
  {
  }

  /** A success seen through another adapter's action of the same name is recorded all the same. */
  lemma ProbedElsewhere(fp: Content -> string) returns (before: Action, probed: Action, verdict: Fields)
    requires Ideal(fp)
    ensures before.name == probed.name && Minted(verdict) && Claimed(verdict)
    ensures Verified(Judged(before, verdict, None, fp).verification)
    ensures !Proves(Judged(before, verdict, None, fp).verification, fp(ContentOf(probed)))
  {
    verdict := Success("ver_1");
    SuccessIsMinted("ver_1");
    before, probed := FieldAction("set", Absent), FieldAction("set", Absent).(automationId := "other");
    assert ContentOf(before).automationId != ContentOf(probed).automationId;
    ProvesWhatWasProbedIff(before, verdict, ContentOf(probed), fp);
  }
}
