/**
 What a restart keeps. A manifest lies in a file named after its application, and different
 applications can share a file name; so a saved adapter survives exactly until another
 application of its file name is saved or somebody edits the store.
 */
module EvidenceRestarts {
  import opened Wrappers
  import opened Texts
  import opened EvidenceRecords
  import opened VirtualApi
  import opened AdapterEngine
  import opened EvidenceRuns

  function FileOf(a: Adapter, s: Setting): string { FileName(a.appId, s.alnum) }

  /** The file of an adapter holds its manifest. */
  ghost predicate Keeps(store: map<string, File>, a: Adapter, s: Setting) {
    FileOf(a, s) in store && store[FileOf(a, s)] == ToFile(a.appId, a.actions)
  }

  /** Saving another application keeps the manifest of the first exactly when their files differ. */
  lemma SaveKeepsOtherIff(store: map<string, File>, a: Adapter, b: Adapter, s: Setting)
    requires a.appId != b.appId
    ensures Keeps(SavedIn(SavedIn(store, a, s.alnum), b, s.alnum), a, s) <==>
            FileOf(a, s) != FileOf(b, s)
  {
    assert ToFile(a.appId, a.actions).appId != ToFile(b.appId, b.actions).appId;
  }

  /** A blank and an underscore are the same in a file name. */
  lemma SharedFileName(alnum: char -> bool)
    requires !alnum(' ')
    ensures FileName("crm a", alnum) == FileName("crm_a", alnum) && "crm a" != "crm_a"
  {
    assert "crm a"[3] != "crm_a"[3];
    assert SafeName("crm a", alnum) == SafeName("crm_a", alnum);
  }

  // ---- The file of an application over a run ---------------------------------------------

  /** The operation may change the file of this name. */
  ghost predicate Touches(m: Moment, e: Event, name: string, s: Setting) {
    e.Edit? || (SavedBy(m, e, s).Some? && FileOf(SavedBy(m, e, s).value, s) == name)
  }

  /** None of the operations from number `i` up to number `n` touches the file. */
  ghost predicate Untouched(t: seq<Moment>, events: seq<Event>, name: string, s: Setting, i: nat, n: nat)
    requires n <= |events| < |t|
  {
    forall l | i <= l < n :: !Touches(t[l], events[l], name, s)
  }

  /** The adapter that operation `j` saves. */
  ghost predicate SavesAt(t: seq<Moment>, events: seq<Event>, s: Setting, j: nat, a: Adapter)
    requires |events| < |t|
  {
    j < |events| && SavedBy(t[j], events[j], s) == Some(a)
  }

  /** No operation after number `j` saves this application again. */
  ghost predicate LastOf(t: seq<Moment>, events: seq<Event>, s: Setting, j: nat, app: string)
    requires |events| < |t|
  {
    forall l | j < l < |events| && SavedBy(t[l], events[l], s).Some? :: SavedBy(t[l], events[l], s).value.appId != app
  }

  lemma {:induction false} UntouchedKeeps(t: seq<Moment>, events: seq<Event>, s: Setting, a: Adapter, i: nat, n: nat)
    requires IsRun(t, events, s) && i <= n <= |events| && Untouched(t, events, FileOf(a, s), s, i, n)
    ensures Keeps(t[n].store, a, s) <==> Keeps(t[i].store, a, s)
  {
    if n == i {
    } else {
      UntouchedKeeps(t, events, s, a, i, n - 1);
      StoreStep(t, events, s, n - 1);
      assert !Touches(t[n - 1], events[n - 1], FileOf(a, s), s);
    }
  }

  lemma SavedIsKept(t: seq<Moment>, events: seq<Event>, s: Setting, j: nat, a: Adapter)
    requires IsRun(t, events, s) && SavesAt(t, events, s, j, a)
    ensures Keeps(t[j + 1].store, a, s)
  {
    StoreStep(t, events, s, j);
  }

  /**
   Whatever happens after operation `j`, the last save of an adapter, the last operation that
   touches its file decides: another application's save ends it, and an edit keeps it exactly
   when it leaves this very manifest there.
   */
  lemma LastTouchDecides(t: seq<Moment>, events: seq<Event>, s: Setting, j: nat, a: Adapter, l: nat)
    requires IsRun(t, events, s) && LastOf(t, events, s, j, a.appId)
    requires j < l < |events| && Touches(t[l], events[l], FileOf(a, s), s)
    requires Untouched(t, events, FileOf(a, s), s, l + 1, |events|)
    ensures Keeps(t[|events|].store, a, s) <==> events[l].Edit? && Keeps(Manifests(events[l].files), a, s)
  {
    UntouchedKeeps(t, events, s, a, l + 1, |events|);
    TouchLeaves(t, events, s, j, a, l);
  }

  lemma TouchLeaves(t: seq<Moment>, events: seq<Event>, s: Setting, j: nat, a: Adapter, l: nat)
    requires IsRun(t, events, s) && LastOf(t, events, s, j, a.appId)
    requires j < l < |events| && Touches(t[l], events[l], FileOf(a, s), s)
    ensures Keeps(t[l + 1].store, a, s) <==> events[l].Edit? && Keeps(Manifests(events[l].files), a, s)
  {
    StoreStep(t, events, s, l);
    TouchDecides(t[l], events[l], a, s);
  }

  lemma TouchDecides(m: Moment, e: Event, a: Adapter, s: Setting)
    requires Touches(m, e, FileOf(a, s), s) && (SavedBy(m, e, s).Some? ==> SavedBy(m, e, s).value.appId != a.appId)
    ensures Keeps(StoreAfter(m, e, s), a, s) <==> e.Edit? && Keeps(Manifests(e.files), a, s)
  {
    if !e.Edit? { OtherSaveEnds(m, e, a, s); }
  }

  /** Saving another application under the same file name ends a manifest. */
  lemma OtherSaveEnds(m: Moment, e: Event, a: Adapter, s: Setting)
    requires !e.Edit? && Touches(m, e, FileOf(a, s), s) && SavedBy(m, e, s).value.appId != a.appId
    ensures !Keeps(StoreAfter(m, e, s), a, s)
  {
    var b := SavedBy(m, e, s).value;
    assert ToFile(a.appId, a.actions).appId != ToFile(b.appId, b.actions).appId;
  }

  ghost predicate UneditedSince(events: seq<Event>, j: nat) { forall l | j < l < |events| :: !events[l].Edit? }

  /** Another application of the same file name is saved after operation `j`. */
  ghost predicate Overwritten(t: seq<Moment>, events: seq<Event>, s: Setting, j: nat, name: string)
    requires |events| < |t|
  {
    exists l :: j < l < |events| && Touches(t[l], events[l], name, s)
  }

  lemma {:induction false} LastTouch(t: seq<Moment>, events: seq<Event>, name: string, s: Setting, j: nat, n: nat)
    returns (l: nat)
    requires j < n <= |events| < |t| && !Untouched(t, events, name, s, j + 1, n)
    ensures j < l < n && Touches(t[l], events[l], name, s) && Untouched(t, events, name, s, l + 1, n)
  {
    if Touches(t[n - 1], events[n - 1], name, s) {
      l := n - 1;
    } else {
      l := LastTouch(t, events, name, s, j, n - 1);
    }
  }

  /** While nobody edits the store: exactly until another application of its file name is saved. */
  lemma FileKeptIff(t: seq<Moment>, events: seq<Event>, s: Setting, j: nat, a: Adapter)
    requires IsRun(t, events, s) && SavesAt(t, events, s, j, a) && LastOf(t, events, s, j, a.appId)
    requires UneditedSince(events, j)
    ensures Keeps(t[|events|].store, a, s) <==> !Overwritten(t, events, s, j, FileOf(a, s))
  {
    SavedIsKept(t, events, s, j, a);
    if Untouched(t, events, FileOf(a, s), s, j + 1, |events|) {
      UntouchedKeeps(t, events, s, a, j + 1, |events|);
    } else {
      var l := LastTouch(t, events, FileOf(a, s), s, j, |events|);
      LastTouchDecides(t, events, s, j, a, l);
    }
  }

  // ---- Stores that only the engine wrote -------------------------------------------------

  /** A manifest lies in the file of its application and can be published. */
  ghost predicate TidyFile(n: string, f: File, s: Setting) {
    ReadManifest(f).Some? ==>
      && n == FileName(ReadManifest(f).value.appId, s.alnum)
      && !Clash(RestoredAll(ReadManifest(f).value.actions, s.fp), s.fp)
  }

  ghost predicate TidyStore(store: map<string, File>, s: Setting) { forall n | n in store :: TidyFile(n, store[n], s) }

  /** What is saved is published, and still is when it is restored. */
  lemma SavedIsTidy(a: Adapter, s: Setting)
    requires Sound(a, s.fp) && !Clash(a.actions, s.fp)
    ensures TidyFile(FileName(a.appId, s.alnum), ToFile(a.appId, a.actions), s)
  {
    SaveLoadRoundTrip(a.appId, a.actions, s.fp);
    var bs := RestoredAll(ReadManifest(ToFile(a.appId, a.actions)).value.actions, s.fp);
    forall i | 0 <= i < |bs| && Publishable(bs[i], s.fp)
      ensures Publishable(a.actions[i], s.fp) && bs[i].name == a.actions[i].name
    {
      assert bs[i] == a.actions[i].(verification := bs[i].verification);
      assert Held(a.actions[i].verification) && !Misstamped(a.actions[i], s.fp);
    }
  }

  lemma SavedByIsSound(m: Moment, e: Event, s: Setting)
    requires Ideal(s.fp) && Possible(e) && Good(m, s.fp) && SavedBy(m, e, s).Some?
    ensures var a := SavedBy(m, e, s).value; Sound(a, s.fp) && !Clash(a.actions, s.fp)
  {
    match e
    case Create(_, _, _) => NewIsSound(e, s.fp);
    case Verify(k, name, _, _, verdict, edited, fault) =>
      SoundAt(m.adapters, s.fp, k);
      VerdictMeans(m.adapters[k], name, verdict, edited, s.fp, fault.None?);
    case _ =>
  }

  lemma LeadsKeepsTidy(m: Moment, e: Event, m': Moment, s: Setting)
    requires Ideal(s.fp) && Possible(e) && Leads(m, e, m', s) && Good(m, s.fp) && TidyStore(m.store, s)
    requires e.Edit? ==> TidyStore(Manifests(e.files), s)
    ensures TidyStore(m'.store, s)
  {
    if SavedBy(m, e, s).Some? {
      SavedByIsSound(m, e, s);
      SavedIsTidy(SavedBy(m, e, s).value, s);
    }
  }

  /** A run keeps the store tidy while edits do. */
  lemma {:induction false} RunStaysTidy(t: seq<Moment>, events: seq<Event>, s: Setting, i: nat)
    requires IsRun(t, events, s) && Starts(t) && i < |t| && TidyStore(t[0].store, s)
    requires forall l | 0 <= l < i && events[l].Edit? :: TidyStore(Manifests(events[l].files), s)
    ensures TidyStore(t[i].store, s)
  {
    if i == 0 {
    } else {
      RunStaysTidy(t, events, s, i - 1);
      RunStaysGood(t, events, s, i - 1);
      StepOf(t, events, s, i - 1);
      LeadsKeepsTidy(t[i - 1], events[i - 1], t[i], s);
    }
  }

  // ---- The restart -----------------------------------------------------------------------

  /** A new process: a fresh engine over the same directory loads what it finds. */
  method Restart(engine: Engine, trusted: Manifest -> bool) returns (again: Engine, raised: bool)
    requires engine.Valid()
    ensures again.Valid() && again.files == engine.files && SettingOf(again) == SettingOf(engine)
    ensures Extends(map[], [], again.registry, again.adapters, engine.Store(), trusted, engine.fp)
    ensures raised || Covers(engine.Store(), engine.Store().Keys, trusted, again.registry)
    ensures TidyStore(engine.Store(), SettingOf(engine)) ==> !raised
  {
    again := new Engine(engine.fp, engine.alnum, engine.files);
    raised := again.LoadPersistedAdapters(trusted);
    if raised {
      ghost var n :| n in engine.Store() && ClashIn(engine.Store()[n], trusted, engine.fp);
      assert !TidyFile(n, engine.Store()[n], SettingOf(engine));
    }
  }

  /** What such a restart leaves in memory when nothing raised. */
  ghost predicate IsRestart(store: map<string, File>, trusted: Manifest -> bool, registry: map<string, nat>,
                            adapters: seq<Adapter>, fp: Content -> string) {
    && Registered(registry, adapters)
    && Extends(map[], [], registry, adapters, store, trusted, fp) && Covers(store, store.Keys, trusted, registry)
  }

  /** The same actions with the same successes, except those about other content. */
  ghost predicate SameButMisstamped(before: seq<Action>, after: seq<Action>, fp: Content -> string) {
    && |after| == |before|
    && forall i | 0 <= i < |before| ::
         && after[i] == before[i].(verification := after[i].verification)
         && (Verified(after[i].verification) <==> Verified(before[i].verification) && !Misstamped(before[i], fp))
  }

  /** The adapter of an application is back, with its saved actions and their successes. */
  ghost predicate IsBack(a: Adapter, registry: map<string, nat>, adapters: seq<Adapter>, fp: Content -> string)
    requires Registered(registry, adapters)
  {
    && a.appId in registry
    && SameButMisstamped(a.actions, adapters[registry[a.appId]].actions, fp)
    && (adapters[registry[a.appId]].actions == a.actions <==> Stamped(a.actions, fp))
  }

  /** A tidy store restores an application from the one file of its name, if that is its own. */
  lemma RestartFinds(store: map<string, File>, s: Setting, app: string, trusted: Manifest -> bool,
                     registry: map<string, nat>, adapters: seq<Adapter>)
    requires TidyStore(store, s) && IsRestart(store, trusted, registry, adapters, s.fp)
    ensures var name := FileName(app, s.alnum);
            && (app in registry <==> name in store && ReadManifest(store[name]).Some?
                                     && ReadManifest(store[name]).value.appId == app
                                     && trusted(ReadManifest(store[name]).value))
            && (app in registry ==> Restores(store[name], adapters[registry[app]], s.fp))
  {
    var name := FileName(app, s.alnum);
    if app in registry {
      var b := adapters[registry[app]];
      assert RestoredFrom(b, store, trusted, s.fp);
      var n :| n in store && Restores(store[n], b, s.fp) && trusted(ReadManifest(store[n]).value);
      assert TidyFile(n, store[n], s);
    }
  }

  function ManifestOf(a: Adapter): Manifest { Manifest(a.appId, ToFile(a.appId, a.actions).actions.value) }

  lemma ReadsBack(a: Adapter, fp: Content -> string)
    requires Sound(a, fp)
    ensures ReadManifest(ToFile(a.appId, a.actions)) == Some(ManifestOf(a))
    ensures var actions := RestoredAll(ManifestOf(a).actions, fp);
            SameButMisstamped(a.actions, actions, fp) && (actions == a.actions <==> Stamped(a.actions, fp))
  {
    SaveLoadRoundTrip(a.appId, a.actions, fp);
  }

  /** One saved manifest, loaded again. */
  lemma KeptIsBack(store: map<string, File>, s: Setting, a: Adapter, trusted: Manifest -> bool,
                   registry: map<string, nat>, adapters: seq<Adapter>)
    requires TidyStore(store, s) && IsRestart(store, trusted, registry, adapters, s.fp)
    requires Sound(a, s.fp) && Keeps(store, a, s)
    ensures a.appId in registry <==> trusted(ManifestOf(a))
    ensures trusted(ManifestOf(a)) ==> IsBack(a, registry, adapters, s.fp)
  {
    ReadsBack(a, s.fp);
    RestartFinds(store, s, a.appId, trusted, registry, adapters);
  }

  /** An overwritten file holds the manifest of the application that was saved there last. */
  lemma OverwrittenBy(t: seq<Moment>, events: seq<Event>, s: Setting, j: nat, a: Adapter) returns (b: Adapter)
    requires IsRun(t, events, s) && j < |events| && LastOf(t, events, s, j, a.appId)
    requires UneditedSince(events, j) && Overwritten(t, events, s, j, FileOf(a, s))
    ensures b.appId != a.appId && FileOf(b, s) == FileOf(a, s) && Keeps(t[|events|].store, b, s)
  {
    var l := LastTouch(t, events, FileOf(a, s), s, j, |events|);
    b := SavedBy(t[l], events[l], s).value;
    SavedIsKept(t, events, s, l, b);
    UntouchedKeeps(t, events, s, b, l + 1, |events|);
  }

  /** When its file holds the manifest of another application, an application is not restored. */
  lemma OtherIsGone(store: map<string, File>, s: Setting, a: Adapter, b: Adapter, trusted: Manifest -> bool,
                    registry: map<string, nat>, adapters: seq<Adapter>)
    requires TidyStore(store, s) && IsRestart(store, trusted, registry, adapters, s.fp)
    requires b.appId != a.appId && FileOf(b, s) == FileOf(a, s) && Keeps(store, b, s)
    ensures a.appId !in registry
  {
    RestartFinds(store, s, a.appId, trusted, registry, adapters);
    assert ReadManifest(ToFile(b.appId, b.actions)) in {None, Some(ManifestOf(b))};
  }

  /**
   After any run over a store that is tidy, edits included, a restart brings an adapter back
   with its last saved actions and its successes if and only if its manifest is trusted and no
   other application of the same file name was saved since. Otherwise the application is gone.
   */
  lemma RestartKeepsIff(t: seq<Moment>, events: seq<Event>, s: Setting, j: nat, a: Adapter,
                        trusted: Manifest -> bool, registry: map<string, nat>, adapters: seq<Adapter>)
    requires IsRun(t, events, s) && Starts(t) && TidyStore(t[0].store, s)
    requires forall l | 0 <= l < |events| && events[l].Edit? :: TidyStore(Manifests(events[l].files), s)
    requires SavesAt(t, events, s, j, a) && LastOf(t, events, s, j, a.appId) && UneditedSince(events, j)
    requires IsRestart(t[|events|].store, trusted, registry, adapters, s.fp)
    ensures IsBack(a, registry, adapters, s.fp) <==>
            trusted(ManifestOf(a)) && !Overwritten(t, events, s, j, FileOf(a, s))
    ensures a.appId in registry <==> IsBack(a, registry, adapters, s.fp)
  {
    RunStaysTidy(t, events, s, |events|);
    if Overwritten(t, events, s, j, FileOf(a, s)) {
      var b := OverwrittenBy(t, events, s, j, a);
      OtherIsGone(t[|events|].store, s, a, b, trusted, registry, adapters);
    } else {
      FileKeptIff(t, events, s, j, a);
      RunStaysGood(t, events, s, j);
      StepOf(t, events, s, j);
      SavedByIsSound(t[j], events[j], s);
      KeptIsBack(t[|events|].store, s, a, trusted, registry, adapters);
    }
  }

  /** With complete manifests only, the adapter comes back exactly as it was saved. */
  lemma RestartIsExact(t: seq<Moment>, events: seq<Event>, s: Setting, j: nat, a: Adapter,
                       registry: map<string, nat>, adapters: seq<Adapter>)
    requires IsRun(t, events, s) && Starts(t) && SavesAt(t, events, s, j, a)
    requires CompleteStore(t[0].store) && forall l | 0 <= l < |events| :: Careful(events[l])
    requires Registered(registry, adapters) && IsBack(a, registry, adapters, s.fp)
    ensures adapters[registry[a.appId]].actions == a.actions
  {
    RunStaysStamped(t, events, s, j);
    RunStaysStamped(t, events, s, j + 1);
    RunStaysGood(t, events, s, j);
    StepOf(t, events, s, j);
    SavedIsStamped(t[j], events[j], s);
  }

  lemma SavedIsStamped(m: Moment, e: Event, s: Setting)
    requires Ideal(s.fp) && Possible(e) && Good(m, s.fp) && AllStamped(m.adapters, s.fp) && SavedBy(m, e, s).Some?
    ensures Stamped(SavedBy(m, e, s).value.actions, s.fp)
  {
    match e
    case Create(_, _, _) => NewIsSound(e, s.fp);
    case Verify(k, _, _, _, _, _, fault) =>
      VerifyKeepsStamped(m, e, s);
      StampedAt(m.adapters[k := MarkedSaved(JudgedBy(m, e, s), Publishes(m, e, s) && fault.None?)], s.fp, k);
    case _ =>
  }

  // ---- A lost application ----------------------------------------------------------------

  /** Creating "crm_a" after "crm a" leaves nothing of the first for a restart. */
  lemma FirstIsLost(t: seq<Moment>, s: Setting, controls: seq<Control>, trusted: Manifest -> bool,
                    registry: map<string, nat>, adapters: seq<Adapter>)
    requires IsRun(t, [Create("crm a", controls, None), Create("crm_a", controls, None)], s) && Starts(t)
    requires t[0].store == map[] && !s.alnum(' ') && IsRestart(t[2].store, trusted, registry, adapters, s.fp)
    ensures "crm a" !in registry
  {
    var events := [Create("crm a", controls, None), Create("crm_a", controls, None)];
    SharedFileName(s.alnum);
    StripTrimmed("crm a");
    StripTrimmed("crm_a");
    var a := NewlyMade(events[0]);
    assert SavesAt(t, events, s, 0, a) && Touches(t[1], events[1], FileOf(a, s), s);
    RestartKeepsIff(t, events, s, 0, a, trusted, registry, adapters);
  }
}
