/** Where the verified actions of a run come from: files that somebody wrote, or their own probes. */
module EvidenceOrigins {
  import opened Wrappers
  import opened Texts
  import opened EvidenceRecords
  import opened AdapterEngine
  import opened EvidenceRuns
  import P = Probe

  /** Evidence is traced with the application and the content that it is held for. */
  type Source = (string, Content, Fields) -> bool

  /** The content of the action that an entry restores to. */
  function RestoredContent(e: Entry): Content
    requires e.Entry?
  {
    Content(Some(Default(e.name, "")), Some(Default(e.automationId, "")), Some(Default(e.controlType, "")), e.params,
            RiskOf(Default(e.risk, "low")))
  }

  ghost predicate ActionsFrom(app: string, actions: seq<Action>, src: Source) {
    forall i | 0 <= i < |actions| ::
      Verified(actions[i].verification) ==> src(app, ContentOf(actions[i]), actions[i].verification.fields)
  }

  ghost predicate AllFrom(adapters: seq<Adapter>, src: Source) {
    forall i | 0 <= i < |adapters| :: ActionsFrom(adapters[i].appId, adapters[i].actions, src)
  }

  ghost predicate EntriesFrom(app: string, es: seq<Entry>, src: Source) {
    forall i | 0 <= i < |es| ::
      es[i].Entry? && Verified(es[i].verification) ==> src(app, RestoredContent(es[i]), es[i].verification.fields)
  }

  ghost predicate FileFrom(f: File, src: Source) {
    ReadManifest(f).Some? ==> EntriesFrom(ReadManifest(f).value.appId, ReadManifest(f).value.actions, src)
  }

  ghost predicate StoreFrom(files: map<string, File>, src: Source) { forall n | n in files :: FileFrom(files[n], src) }

  // ---- What the operations keep ----------------------------------------------------------

  lemma SavedFrom(app: string, actions: seq<Action>, src: Source)
    requires ActionsFrom(app, actions, src)
    ensures FileFrom(ToFile(app, actions), src)
  {
    forall i | 0 <= i < |actions| ensures RestoredContent(ToEntry(actions[i])) == ContentOf(actions[i]) { }
  }

  lemma SanitizedFrom(v: Verification, expected: Option<string>)
    ensures Verified(Sanitize(v, expected)) ==> Verified(v) && Sanitize(v, expected) == v
  {
  }

  lemma RestoredFromEntry(e: Entry, fp: Content -> string)
    requires e.Entry?
    ensures var a := Restored(CleanEntry(e, fp), fp);
            && ContentOf(a) == RestoredContent(e)
            && (Verified(a.verification) ==> Verified(e.verification) && a.verification == e.verification)
  {
    SanitizedFrom(e.verification, Some(fp(EntryContent(e))));
    SanitizedFrom(CleanEntry(e, fp).verification, Some(fp(EntryContent(CleanEntry(e, fp)))));
  }

  /** Loading believes only what a file says, of the application and the content it says it of. */
  lemma RestoredAreFrom(app: string, es: seq<Entry>, fp: Content -> string, src: Source)
    requires EntriesFrom(app, es, src)
    ensures ActionsFrom(app, RestoredAll(es, fp), src)
  {
    var clean, actions := Cleaned(es, fp), RestoredAll(es, fp);
    forall i | 0 <= i < |actions| && Verified(actions[i].verification)
      ensures src(app, ContentOf(actions[i]), actions[i].verification.fields)
    {
      CleanedFrom(es, fp, i);
      var j :| 0 <= j < |es| && es[j].Entry? && clean[i] == CleanEntry(es[j], fp);
      RestoredFromEntry(es[j], fp);
    }
  }

  lemma LoadedFrom(r0: map<string, nat>, a0: seq<Adapter>, r1: map<string, nat>, a1: seq<Adapter>,
                   files: map<string, File>, trusted: Manifest -> bool, fp: Content -> string, src: Source)
    requires Extends(r0, a0, r1, a1, files, trusted, fp) && AllFrom(a0, src) && StoreFrom(files, src)
    ensures AllFrom(a1, src)
  {
    forall i | 0 <= i < |a1| ensures ActionsFrom(a1[i].appId, a1[i].actions, src) {
      if i < |a0| {
        assert a1[i] == a0[i];
      } else {
        assert RestoredFrom(a1[i], files, trusted, fp);
        var n :| n in files && Restores(files[n], a1[i], fp) && trusted(ReadManifest(files[n]).value);
        RestoredAreFrom(a1[i].appId, ReadManifest(files[n]).value.actions, fp, src);
      }
    }
  }

  /** A recorded success is the verdict, stamped for the content of the action of its name. */
  lemma RecordedFrom(app: string, actions: seq<Action>, name: string, verdict: Fields, edited: Option<Control>,
                     fp: Content -> string, src: Source)
    requires Ideal(fp) && Minted(verdict) && ActionsFrom(app, actions, src) && IndexOf(actions, name) < |actions|
    requires var c := ContentOf(actions[IndexOf(actions, name)]);
             Claimed(verdict) ==> src(app, c, verdict["action_fp" := Text(fp(c))])
    ensures ActionsFrom(app, RecordedOn(actions, name, verdict, edited, fp), src)
  {
    JudgedProperties(actions[IndexOf(actions, name)], verdict, edited, fp);
  }

  // ---- Runs ------------------------------------------------------------------------------

  /** An entry for this application and this content claims this success. */
  ghost predicate InFiles(files: map<string, File>, app: string, c: Content, f: Fields) {
    exists n, i: nat :: n in files && ReadManifest(files[n]).Some? && ReadManifest(files[n]).value.appId == app
      && i < |ReadManifest(files[n]).value.actions| && ReadManifest(files[n]).value.actions[i].Entry?
      && ReadManifest(files[n]).value.actions[i].verification == Record(f)
      && RestoredContent(ReadManifest(files[n]).value.actions[i]) == c
  }

  lemma FilesAreSources(files: map<string, File>, src: Source)
    requires forall app, c, f | InFiles(files, app, c, f) :: src(app, c, f)
    ensures StoreFrom(files, src)
  {
    forall n | n in files && ReadManifest(files[n]).Some?
      ensures EntriesFrom(ReadManifest(files[n]).value.appId, ReadManifest(files[n]).value.actions, src)
    {
      var m := ReadManifest(files[n]).value;
      forall i: nat | i < |m.actions| && m.actions[i].Entry? && Verified(m.actions[i].verification)
        ensures src(m.appId, RestoredContent(m.actions[i]), m.actions[i].verification.fields)
      {
        assert InFiles(files, m.appId, RestoredContent(m.actions[i]), m.actions[i].verification.fields);
      }
    }
  }

  /** The action that a verdict goes to, if there is one. */
  ghost function Target(m: Moment, e: Event): Option<(string, Content)> {
    if !e.Verify? || e.k >= |m.adapters| then None
    else
      var a := m.adapters[e.k];
      var i := IndexOf(a.actions, e.name);
      if i == |a.actions| then None else Some((a.appId, ContentOf(a.actions[i])))
  }

  /**
   The event records this success: it is a verdict on the action of that content on an adapter
   of that application, stamped for that content, and all its attempts were probes that succeeded.
   */
  ghost predicate Probes(m: Moment, e: Event, s: Setting, app: string, c: Content, f: Fields) {
    && Target(m, e) == Some((app, c)) && e.sessions != [] && P.AllProved(e.sessions)
    && f == e.verdict["action_fp" := Text(s.fp(c))]
  }

  ghost predicate Gives(m: Moment, e: Event, s: Setting, app: string, c: Content, f: Fields) {
    (e.Edit? && InFiles(Manifests(e.files), app, c, f)) || Probes(m, e, s, app, c, f)
  }

  /** It was in the files at the start, or one of the first `i` events put it there or probed it. */
  ghost predicate Sourced(t: seq<Moment>, events: seq<Event>, s: Setting, i: nat, app: string, c: Content, f: Fields)
    requires i <= |events| < |t|
  {
    InFiles(t[0].store, app, c, f) || exists j: nat :: j < i && Gives(t[j], events[j], s, app, c, f)
  }

  lemma LeadsKeepsSources(m: Moment, e: Event, m': Moment, s: Setting, src: Source)
    requires Ideal(s.fp) && Possible(e) && Leads(m, e, m', s)
    requires AllFrom(m.adapters, src) && StoreFrom(m.store, src)
    requires forall app, c, f | Gives(m, e, s, app, c, f) :: src(app, c, f)
    ensures AllFrom(m'.adapters, src) && StoreFrom(m'.store, src)
  {
    match e
    case Create(app, _, _) => SavedFrom(app, NewlyMade(e).actions, src);
    case Load(trusted) =>
      LoadedFrom(m.registry, m.adapters, m'.registry, m'.adapters, m.store, trusted, s.fp, src);
    case Verify(_, _, _, _, _, _, _) =>
      VerifyKeepsSources(m, e, s, src);
      if e.k < |m.adapters| { SavedFrom(m.adapters[e.k].appId, JudgedBy(m, e, s).actions, src); }
    case Reset =>
    case Edit(files) =>
      forall app, c, f | InFiles(Manifests(files), app, c, f) ensures src(app, c, f) {
        assert Gives(m, e, s, app, c, f);
      }
      FilesAreSources(Manifests(files), src);
  }

  lemma VerifyKeepsSources(m: Moment, e: Event, s: Setting, src: Source)
    requires Ideal(s.fp) && Possible(e) && e.Verify? && AllFrom(m.adapters, src)
    requires forall app, c, f | Gives(m, e, s, app, c, f) :: src(app, c, f)
    ensures e.k < |m.adapters| ==> ActionsFrom(m.adapters[e.k].appId, JudgedBy(m, e, s).actions, src)
  {
    if Target(m, e).Some? {
      var (app, c) := Target(m, e).value;
      if Claimed(e.verdict) {
        P.RepeatedVerifiedIff(e.setups, e.sessions);
        assert Gives(m, e, s, app, c, e.verdict["action_fp" := Text(s.fp(c))]);
      }
      RecordedFrom(app, m.adapters[e.k].actions, e.name, e.verdict, e.edited, s.fp, src);
    }
  }

  lemma {:induction false} RunKeepsSources(t: seq<Moment>, events: seq<Event>, s: Setting, src: Source, i: nat,
                                           end: nat)
    requires IsRun(t, events, s) && Starts(t) && i <= end <= |events|
    requires forall app, c, f | Sourced(t, events, s, end, app, c, f) :: src(app, c, f)
    ensures AllFrom(t[i].adapters, src) && StoreFrom(t[i].store, src)
  {
    if i == 0 {
      forall app, c, f | InFiles(t[0].store, app, c, f) ensures src(app, c, f) {
        assert Sourced(t, events, s, end, app, c, f);
      }
      FilesAreSources(t[0].store, src);
    } else {
      RunKeepsSources(t, events, s, src, i - 1, end);
      StepOf(t, events, s, i - 1);
      forall app, c, f | Gives(t[i - 1], events[i - 1], s, app, c, f) ensures src(app, c, f) {
        assert Sourced(t, events, s, end, app, c, f);
      }
      LeadsKeepsSources(t[i - 1], events[i - 1], t[i], s, src);
    }
  }

  /**
   At every moment of a run each verified action has its evidence from an entry that somebody
   had written for its application and content, or from a verdict on that very content and application
   whose attempts all were probes that succeeded.
   */
  lemma RunIsSourced(t: seq<Moment>, events: seq<Event>, s: Setting, i: nat, k: nat, n: nat)
    requires IsRun(t, events, s) && Starts(t) && i < |t| && k < |t[i].adapters| && n < |t[i].adapters[k].actions|
    requires Verified(t[i].adapters[k].actions[n].verification)
    ensures var a := t[i].adapters[k].actions[n];
            Sourced(t, events, s, i, t[i].adapters[k].appId, ContentOf(a), a.verification.fields)
  {
    var src: Source := (app, c, f) => Sourced(t, events, s, i, app, c, f);
    RunKeepsSources(t, events, s, src, i, i);
    assert ActionsFrom(t[i].adapters[k].appId, t[i].adapters[k].actions, src);
  }

  /** No file claims a success. */
  ghost predicate ClaimsNothing(files: map<string, File>) {
    forall app, c, f :: InFiles(files, app, c, f) ==> !Claimed(f)
  }

  /**
   When nobody ever writes a success into the store, an action is verified only by a verdict on
   an action of the same application and content, stamped with its fingerprint, and each attempt
   behind it read the original, wrote a different value, read it, wrote the original and read that.
   */
  lemma UnforgedMeansProbed(t: seq<Moment>, events: seq<Event>, s: Setting, i: nat, k: nat, n: nat) returns (j: nat)
    requires IsRun(t, events, s) && Starts(t) && i < |t| && k < |t[i].adapters| && n < |t[i].adapters[k].actions|
    requires Verified(t[i].adapters[k].actions[n].verification)
    requires ClaimsNothing(t[0].store)
    requires forall l | 0 <= l < i && events[l].Edit? :: ClaimsNothing(Manifests(events[l].files))
    ensures j < i && events[j].Verify? && events[j].sessions != []
    ensures var a := t[i].adapters[k].actions[n];
            && events[j].name == a.name && Target(t[j], events[j]) == Some((t[i].adapters[k].appId, ContentOf(a)))
            && a.verification.fields == events[j].verdict["action_fp" := Text(s.fp(ContentOf(a)))]
    ensures forall l | 0 <= l < |events[j].sessions| :: P.Proved(events[j].sessions[l])
  {
    RunIsSourced(t, events, s, i, k, n);
    var app, a := t[i].adapters[k].appId, t[i].adapters[k].actions[n];
    assert Sourced(t, events, s, i, app, ContentOf(a), a.verification.fields);
    j :| j < i && Gives(t[j], events[j], s, app, ContentOf(a), a.verification.fields);
    forall l | 0 <= l < |events[j].sessions| ensures P.Proved(events[j].sessions[l]) {
      P.ProvedAt(events[j].sessions, l);
    }
  }
}
