/**
 Runs of the adapter engine: any sequence of operations from any store, as the sequence of
 moments they lead through, and what every moment keeps.
 */
module EvidenceRuns {
  import opened Wrappers
  import opened Texts
  import opened EvidenceRecords
  import opened VirtualApi
  import opened AdapterEngine
  import P = Probe

  /**
   One operation, or a change of the store by somebody. A verdict event carries the attempts
   it was made from, each with the setup of its time.
   */
  datatype Event =
    | Create(app: string, controls: seq<Control>, fault: Option<DiskFault>)
    | Load(trusted: Manifest -> bool)
    | Verify(k: nat, name: string, setups: nat -> P.Setup, sessions: seq<Option<P.Session>>, verdict: Fields,
             edited: Option<Control>, fault: Option<DiskFault>)
    | Reset
    | Edit(files: map<string, File>)

  /** The verdict is the record of what all its attempts together say. */
  ghost predicate Possible(e: Event) {
    e.Verify? ==>
      && e.sessions != [] && P.AllFollow(e.setups, e.sessions) && Minted(e.verdict)
      && (Claimed(e.verdict) <==> P.Combined(P.Verdicts(e.setups, e.sessions)).state == P.Verified)
  }

  /** Every record the verifier makes of its attempts is possible. */
  lemma RecordsArePossible(e: Event, evidence: string, suffix: string)
    requires e.Verify? && e.sessions != [] && P.AllFollow(e.setups, e.sessions)
    requires e.verdict == P.RecordOf(P.Combined(P.Verdicts(e.setups, e.sessions)), evidence, suffix)
    ensures Possible(e)
  {
    P.RecordIsMinted(P.Combined(P.Verdicts(e.setups, e.sessions)), evidence, suffix);
  }

  /** What the engine and its store are between two operations. */
  datatype Moment = Moment(registry: map<string, nat>, adapters: seq<Adapter>, store: map<string, File>)

  /** The fingerprint of an engine, and which characters it takes for letters and digits. */
  datatype Setting = Setting(fp: Content -> string, alnum: char -> bool)

  function NewlyMade(e: Event): Adapter
    requires e.Create?
  {
    Adapter(e.app, Discovered(e.controls), map[], true, e.fault.None?)
  }

  ghost function OutcomeAt(m: Moment, e: Event, s: Setting): Outcome
    requires e.Verify? && e.k < |m.adapters|
  {
    OutcomeOf(m.adapters[e.k], e.name, e.verdict, e.edited, s.fp, e.fault.None?)
  }

  ghost function JudgedBy(m: Moment, e: Event, s: Setting): Adapter
    requires e.Verify? && e.k < |m.adapters|
  {
    AfterVerdict(m.adapters[e.k], e.name, e.verdict, e.edited, s.fp)
  }

  ghost predicate Publishes(m: Moment, e: Event, s: Setting) {
    e.Verify? && e.k < |m.adapters| && OutcomeAt(m, e, s).Recorded?
  }

  /** The adapter that an operation saves, if it saves one. */
  ghost function SavedBy(m: Moment, e: Event, s: Setting): Option<Adapter> {
    match e
    case Create(app, _, fault) => if Strip(app) != "" && fault.None? then Some(NewlyMade(e)) else None
    case Verify(_, _, _, _, _, _, fault) =>
      if Publishes(m, e, s) && fault.None? then Some(JudgedBy(m, e, s)) else None
    case _ => None
  }

  ghost function StoreAfter(m: Moment, e: Event, s: Setting): map<string, File> {
    if e.Edit? then Manifests(e.files)
    else
      var saved := SavedBy(m, e, s);
      if saved.Some? then SavedIn(m.store, saved.value, s.alnum) else m.store
  }

  /** One operation leads from one moment to the next. */
  ghost predicate Leads(m: Moment, e: Event, m': Moment, s: Setting) {
    && m'.store == StoreAfter(m, e, s)
    && match e
       case Create(app, _, _) =>
         if Strip(app) == "" then m' == m
         else m'.registry == m.registry[app := |m.adapters|] && m'.adapters == m.adapters + [NewlyMade(e)]
       case Load(trusted) =>
         && Extends(m.registry, m.adapters, m'.registry, m'.adapters, m.store, trusted, s.fp)
         && Registered(m'.registry, m'.adapters)
         && (Covers(m.store, m.store.Keys, trusted, m'.registry)
             || exists n :: n in m.store && ClashIn(m.store[n], trusted, s.fp))
       case Verify(k, _, _, _, _, _, fault) =>
         && m'.registry == m.registry
         && m'.adapters == if k >= |m.adapters| then m.adapters
                           else m.adapters[k := MarkedSaved(JudgedBy(m, e, s), Publishes(m, e, s) && fault.None?)]
       case Reset => m'.registry == map[] && m'.adapters == m.adapters
       case Edit(_) => m'.registry == m.registry && m'.adapters == m.adapters
  }

  ghost predicate IsStep(t: seq<Moment>, events: seq<Event>, s: Setting, i: nat)
    requires i < |events| && i + 1 < |t|
  {
    Possible(events[i]) && Leads(t[i], events[i], t[i + 1], s)
  }

  /** The moments that a sequence of possible operations leads through. */
  ghost predicate IsRun(t: seq<Moment>, events: seq<Event>, s: Setting) {
    |t| == |events| + 1 && Ideal(s.fp) && forall i: nat | i < |events| :: IsStep(t, events, s, i)
  }

  lemma StepOf(t: seq<Moment>, events: seq<Event>, s: Setting, i: nat)
    requires IsRun(t, events, s) && i < |events|
    ensures Ideal(s.fp) && Possible(events[i]) && Leads(t[i], events[i], t[i + 1], s)
  {
    assert IsStep(t, events, s, i);
  }

  lemma StoreStep(t: seq<Moment>, events: seq<Event>, s: Setting, i: nat)
    requires IsRun(t, events, s) && i < |events|
    ensures t[i + 1].store == StoreAfter(t[i], events[i], s)
  {
    StepOf(t, events, s, i);
  }

  /** A run that begins with a fresh engine. */
  ghost predicate Starts(t: seq<Moment>) { t != [] && t[0].adapters == [] && t[0].registry == map[] }

  ghost function Now(engine: Engine): Moment
    reads engine
  {
    Moment(engine.registry, engine.adapters, engine.Store())
  }

  ghost function SettingOf(engine: Engine): Setting { Setting(engine.fp, engine.alnum) }

  method Perform(engine: Engine, e: Event)
    requires engine.Valid() && Possible(e)
    modifies engine
    ensures engine.Valid() && Leads(old(Now(engine)), e, Now(engine), SettingOf(engine))
  {
    match e
    case Create(_, _, _) => PerformCreate(engine, e);
    case Load(_) => PerformLoad(engine, e);
    case Verify(_, _, _, _, _, _, _) => PerformVerify(engine, e);
    case Reset => engine.ResetAdapters();
    case Edit(files) => engine.EditStore(files);
  }

  method PerformCreate(engine: Engine, e: Event)
    requires engine.Valid() && e.Create?
    modifies engine
    ensures engine.Valid() && Leads(old(Now(engine)), e, Now(engine), SettingOf(engine))
  {
    var _ := engine.CreateAdapter(e.app, e.controls, e.fault);
  }

  method PerformLoad(engine: Engine, e: Event)
    requires engine.Valid() && e.Load?
    modifies engine
    ensures engine.Valid() && Leads(old(Now(engine)), e, Now(engine), SettingOf(engine))
  {
    var _ := engine.LoadPersistedAdapters(e.trusted);
  }

  method PerformVerify(engine: Engine, e: Event)
    requires engine.Valid() && e.Verify? && Possible(e)
    modifies engine
    ensures engine.Valid() && Leads(old(Now(engine)), e, Now(engine), SettingOf(engine))
  {
    if e.k < |engine.adapters| {
      var _ := engine.RecordVerdict(e.k, e.name, e.verdict, e.edited, e.fault);
    }
  }

  lemma StepsStay(t: seq<Moment>, t': seq<Moment>, events: seq<Event>, s: Setting, n: nat)
    requires t <= t' && n < |t| && n <= |events| && forall j: nat | j < n :: IsStep(t, events, s, j)
    ensures forall j: nat | j < n :: IsStep(t', events, s, j)
  {
    forall j: nat | j < n ensures IsStep(t', events, s, j) { assert IsStep(t, events, s, j); }
  }

  /** Any sequence of operations on a fresh engine over any store is a run. */
  method Run(engine: Engine, events: seq<Event>) returns (ghost t: seq<Moment>)
    requires engine.Valid() && engine.adapters == [] && forall i | 0 <= i < |events| :: Possible(events[i])
    modifies engine
    ensures engine.Valid()
    ensures IsRun(t, events, SettingOf(engine)) && Starts(t)
    ensures t[0] == old(Now(engine)) && t[|events|] == Now(engine)
  {
    t := [Now(engine)];
    for i := 0 to |events|
      invariant engine.Valid() && |t| == i + 1
      invariant t[0] == old(Now(engine)) && t[i] == Now(engine)
      invariant forall j: nat | j < i :: IsStep(t, events, SettingOf(engine), j)
    {
      ghost var before := t;
      Perform(engine, events[i]);
      t := t + [Now(engine)];
      StepsStay(before, t, events, SettingOf(engine), i);
      assert IsStep(t, events, SettingOf(engine), i);
    }
  }

  // ---- What every moment keeps -----------------------------------------------------------

  ghost predicate Good(m: Moment, fp: Content -> string) {
    AllSound(m.adapters, fp) && Registered(m.registry, m.adapters)
  }

  lemma RestoredIsSound(a: Adapter, files: map<string, File>, trusted: Manifest -> bool, fp: Content -> string)
    requires Ideal(fp) && RestoredFrom(a, files, trusted, fp)
    ensures Sound(a, fp)
    ensures CompleteStore(files) ==> Stamped(a.actions, fp)
  {
    var n :| n in files && Restores(files[n], a, fp) && trusted(ReadManifest(files[n]).value);
    RestoredIsKept(ReadManifest(files[n]).value.actions, fp);
    NewIsConsistent(a.appId, a.actions, fp);
    assert CompleteStore(files) ==> CompleteFile(files[n]);
  }

  lemma {:induction false} LoadingKeepsSound(a0: seq<Adapter>, a1: seq<Adapter>, files: map<string, File>,
                                             trusted: Manifest -> bool, fp: Content -> string)
    requires Ideal(fp) && AllSound(a0, fp) && a0 <= a1
    requires forall i | |a0| <= i < |a1| :: RestoredFrom(a1[i], files, trusted, fp)
    ensures AllSound(a1, fp)
    ensures CompleteStore(files) && AllStamped(a0, fp) ==> AllStamped(a1, fp)
    decreases |a1|
  {
    var n := |a1| - 1;
    if |a1| == |a0| {
      assert a1 == a0;
    } else {
      LoadingKeepsSound(a0, a1[..n], files, trusted, fp);
      RestoredIsSound(a1[n], files, trusted, fp);
    }
  }

  lemma NewIsSound(e: Event, fp: Content -> string)
    requires e.Create? && Strip(e.app) != ""
    ensures Sound(NewlyMade(e), fp) && Stamped(NewlyMade(e).actions, fp) && !Clash(NewlyMade(e).actions, fp)
  {
    var a := NewlyMade(e);
    assert forall p :: !Lists(a.appId, a.actions, fp, p);
    PathsList(a.appId, a.actions, fp);
    assert Paths(a.appId, a.actions, fp) == map[];
    NewIsConsistent(a.appId, a.actions, fp);
  }

  lemma LeadsKeepsGood(m: Moment, e: Event, m': Moment, s: Setting)
    requires Ideal(s.fp) && Possible(e) && Leads(m, e, m', s) && Good(m, s.fp)
    ensures Good(m', s.fp)
  {
    match e
    case Create(app, _, _) => if Strip(app) != "" { CreateKeepsGood(m, e, s); }
    case Load(trusted) => LoadingKeepsSound(m.adapters, m'.adapters, m.store, trusted, s.fp);
    case Verify(k, _, _, _, _, _, _) => if k < |m.adapters| { VerifyKeepsGood(m, e, s); }
    case Reset =>
    case Edit(_) =>
  }

  lemma CreateKeepsGood(m: Moment, e: Event, s: Setting)
    requires e.Create? && Strip(e.app) != "" && Good(m, s.fp)
    ensures AllSound(m.adapters + [NewlyMade(e)], s.fp)
    ensures Registered(m.registry[e.app := |m.adapters|], m.adapters + [NewlyMade(e)])
  {
    NewIsSound(e, s.fp);
    AppendKeeps(m.adapters, NewlyMade(e), s.fp);
  }

  lemma VerifyKeepsGood(m: Moment, e: Event, s: Setting)
    requires e.Verify? && e.k < |m.adapters| && Ideal(s.fp) && Minted(e.verdict) && Good(m, s.fp)
    ensures var all := m.adapters[e.k := MarkedSaved(JudgedBy(m, e, s), Publishes(m, e, s) && e.fault.None?)];
            AllSound(all, s.fp) && Registered(m.registry, all)
  {
    var b, saved := JudgedBy(m, e, s), Publishes(m, e, s) && e.fault.None?;
    VerdictKeeps(m.registry, m.adapters, e.k, e.name, e.verdict, e.edited, s.fp);
    MarkingKeeps(m.registry, m.adapters[e.k := b], e.k, saved, s.fp);
    ReplacedTwice(m.adapters, e.k, b, saved);
  }

  /** Every adapter of every moment is sound. */
  lemma {:induction false} RunStaysGood(t: seq<Moment>, events: seq<Event>, s: Setting, i: nat)
    requires IsRun(t, events, s) && Starts(t) && i < |t|
    ensures Good(t[i], s.fp)
  {
    if i == 0 {
    } else {
      RunStaysGood(t, events, s, i - 1);
      StepOf(t, events, s, i - 1);
      LeadsKeepsGood(t[i - 1], events[i - 1], t[i], s);
    }
  }

  // ---- Evidence about its own content ----------------------------------------------------

  /** The store is not edited into manifests that leave fingerprinted fields out. */
  ghost predicate Careful(e: Event) { e.Edit? ==> CompleteStore(Manifests(e.files)) }

  lemma LeadsKeepsStamped(m: Moment, e: Event, m': Moment, s: Setting)
    requires Ideal(s.fp) && Possible(e) && Leads(m, e, m', s) && Good(m, s.fp) && Careful(e)
    requires AllStamped(m.adapters, s.fp) && CompleteStore(m.store)
    ensures AllStamped(m'.adapters, s.fp) && CompleteStore(m'.store)
  {
    if SavedBy(m, e, s).Some? {
      var a := SavedBy(m, e, s).value;
      SavedIsComplete(m.store, FileName(a.appId, s.alnum), a.appId, a.actions);
    }
    match e
    case Create(app, _, _) =>
      if Strip(app) != "" {
        NewIsSound(e, s.fp);
        AppendKeeps(m.adapters, NewlyMade(e), s.fp);
      }
    case Load(trusted) => LoadingKeepsSound(m.adapters, m'.adapters, m.store, trusted, s.fp);
    case Verify(k, name, _, _, verdict, edited, fault) =>
      if k < |m.adapters| { VerifyKeepsStamped(m, e, s); }
    case Reset =>
    case Edit(_) =>
  }

  lemma VerifyKeepsStamped(m: Moment, e: Event, s: Setting)
    requires e.Verify? && e.k < |m.adapters| && Ideal(s.fp) && Minted(e.verdict) && Good(m, s.fp)
    requires AllStamped(m.adapters, s.fp)
    ensures AllStamped(m.adapters[e.k := MarkedSaved(JudgedBy(m, e, s), Publishes(m, e, s) && e.fault.None?)], s.fp)
  {
    var b := MarkedSaved(JudgedBy(m, e, s), Publishes(m, e, s) && e.fault.None?);
    if IndexOf(m.adapters[e.k].actions, e.name) == |m.adapters[e.k].actions| {
      ReplaceKeepsStamped(m.adapters, e.k, b, s.fp);
    } else {
      RecordedStaysStamped(m.adapters, e.k, b, e.name, e.verdict, e.edited, s.fp);
    }
  }

  /** Unless an incomplete manifest gets into the store, all evidence of a run is about its own content. */
  lemma {:induction false} RunStaysStamped(t: seq<Moment>, events: seq<Event>, s: Setting, i: nat)
    requires IsRun(t, events, s) && Starts(t) && i < |t|
    requires CompleteStore(t[0].store) && forall j | 0 <= j < |events| :: Careful(events[j])
    ensures AllStamped(t[i].adapters, s.fp) && CompleteStore(t[i].store)
  {
    if i == 0 {
    } else {
      RunStaysStamped(t, events, s, i - 1);
      RunStaysGood(t, events, s, i - 1);
      StepOf(t, events, s, i - 1);
      LeadsKeepsStamped(t[i - 1], events[i - 1], t[i], s);
    }
  }
}
