/**
 Verifying an edit action: read the field, write a probe, read it back, restore the original
 and read that back. The application may answer in any way at any time.
 */
module Probe {
  import opened Wrappers
  import opened Clocks
  import E = EvidenceRecords

  const TIMEOUT := 3.0
  const POLL := 0.05
  const MAX_VERIFICATION_ATTEMPTS := 10
  const PROBE_PREFIX := "winos-verify-"

  /** The value of a field: text, or something else that has a textual form. */
  datatype Content = Plain(s: string) | Other(text: string)

  function TextOf(c: Content): string { match c case Plain(s) => s case Other(t) => t }

  /** One look at the field. */
  datatype Reading = Raised | NoNode | NoValue | Holds(content: Content)

  /** The answer to one invocation of the action. */
  datatype Reply = Accepted | Declined | Failure

  predicate Shows(r: Reading, expected: string) { r == Holds(Plain(expected)) }

  datatype Event = Saw(reading: Reading) | Asked(value: string, reply: Reply)

  // ---- The application -------------------------------------------------------------------

  /** What an application of state `S` does when it is read and when it is written. */
  datatype Behaviour<!S> = Behaviour(onRead: S -> (S, Reading), onWrite: (S, string) -> (S, Reply))

  function After<S>(b: Behaviour<S>, s: S, e: Event): S {
    match e case Saw(_) => b.onRead(s).0 case Asked(v, _) => b.onWrite(s, v).0
  }

  ghost predicate Answers<S>(b: Behaviour<S>, s: S, e: Event) {
    match e case Saw(r) => r == b.onRead(s).1 case Asked(v, r) => r == b.onWrite(s, v).1
  }

  /** The state that a sequence of events leads to. */
  function Replay<S>(b: Behaviour<S>, s: S, t: seq<Event>): S {
    if t == [] then s else After(b, Replay(b, s, t[..|t| - 1]), t[|t| - 1])
  }

  /** Every event is what the application does in the state it was in. */
  ghost predicate Genuine<S>(b: Behaviour<S>, s: S, t: seq<Event>) {
    t == [] || (Genuine(b, s, t[..|t| - 1]) && Answers(b, Replay(b, s, t[..|t| - 1]), t[|t| - 1]))
  }

  lemma ReplayOne<S>(b: Behaviour<S>, s: S, t: seq<Event>, e: Event)
    requires Genuine(b, s, t) && Answers(b, Replay(b, s, t), e)
    ensures Genuine(b, s, t + [e]) && Replay(b, s, t + [e]) == After(b, Replay(b, s, t), e)
  {
    assert (t + [e])[..|t|] == t;
  }

  class Application<S> {
    const behaviour: Behaviour<S>
    const clock: Clock
    const start: S
    var state: S
    var trace: seq<Event>

    constructor (behaviour: Behaviour<S>, start: S, clock: Clock)
      ensures Valid() && this.behaviour == behaviour && this.start == start && this.clock == clock
      ensures state == start && trace == []
    {
      this.behaviour, this.start, this.clock, state, trace := behaviour, start, clock, start, [];
    }

    ghost predicate Valid()
      reads this
    {
      Genuine(behaviour, start, trace) && state == Replay(behaviour, start, trace)
    }

    method Read() returns (r: Reading)
      requires Valid()
      modifies this`state, this`trace, clock
      ensures Valid() && trace == old(trace) + [Saw(r)] && clock.now >= old(clock.now)
    {
      clock.Elapse();
      var (s, reading) := behaviour.onRead(state);
      ReplayOne(behaviour, start, trace, Saw(reading));
      state, r, trace := s, reading, trace + [Saw(reading)];
    }

    method Invoke(value: string) returns (r: Reply)
      requires Valid()
      modifies this`state, this`trace, clock
      ensures Valid() && trace == old(trace) + [Asked(value, r)] && clock.now >= old(clock.now)
    {
      clock.Elapse();
      var (s, reply) := behaviour.onWrite(state, value);
      ReplayOne(behaviour, start, trace, Asked(value, reply));
      state, r, trace := s, reply, trace + [Asked(value, reply)];
    }
  }

  // ---- Waiting ---------------------------------------------------------------------------

  function Reads(rs: seq<Reading>): seq<Event> { seq(|rs|, i requires 0 <= i < |rs| => Saw(rs[i])) }

  lemma ReadsOneMore(rs: seq<Reading>, r: Reading)
    ensures Reads(rs + [r]) == Reads(rs) + [Saw(r)]
  {
  }

  /** Reading went on until the value showed, the reading raised, or time was up. */
  predicate Waited(rs: seq<Reading>, expected: string) {
    rs != [] && forall i | 0 <= i < |rs| - 1 :: rs[i] != Raised && !Shows(rs[i], expected)
  }

  function Last(rs: seq<Reading>): Reading
    requires rs != []
  {
    rs[|rs| - 1]
  }

  /** One more reading, after those of `rs` which followed the trace `base`. */
  method Peek<S>(app: Application<S>, ghost base: seq<Event>, ghost rs: seq<Reading>) returns (last: Reading)
    requires app.Valid() && app.trace == base + Reads(rs)
    modifies app`state, app`trace, app.clock
    ensures app.Valid() && app.trace == base + Reads(rs + [last]) && app.clock.now >= old(app.clock.now)
  {
    last := app.Read();
    ReadsOneMore(rs, last);
  }

  /** Poll until the value shows; at most one reading for every interval, and one more. */
  method WaitForValue<S>(app: Application<S>, expected: string) returns (last: Reading, ghost rs: seq<Reading>)
    requires app.Valid()
    modifies app`state, app`trace, app.clock
    ensures app.Valid() && app.trace == old(app.trace) + Reads(rs)
    ensures Waited(rs, expected) && last == Last(rs)
    ensures |rs| <= 1 + Ceil(TIMEOUT / POLL)
    ensures app.clock.now >= old(app.clock.now)
    ensures last == Raised || Shows(last, expected) || app.clock.now >= old(app.clock.now) + TIMEOUT
  {
    ghost var base, bound := app.trace, Ceil(TIMEOUT / POLL);
    var begin := app.clock.Read();
    var deadline := begin + TIMEOUT;
    rs := [];
    last := NoNode;
    while true
      invariant app.Valid() && app.trace == base + Reads(rs)
      invariant forall i | 0 <= i < |rs| :: rs[i] != Raised && !Shows(rs[i], expected)
      invariant app.clock.now >= begin >= old(app.clock.now) && app.clock.now >= begin + Span(|rs|, POLL)
      invariant |rs| <= bound
      decreases bound - |rs|
    {
      ghost var before := rs;
      last := Peek(app, base, rs);
      rs := rs + [last];
      if last == Raised || Shows(last, expected) { return; }
      var now := app.clock.Read();
      if now >= deadline { return; }
      OneMoreFits(|before|, POLL, TIMEOUT);
      app.clock.Sleep(POLL);
    }
  }

  // ---- The probe -------------------------------------------------------------------------

  datatype State = Verified | Failed | Blocked | Unsupported | Unstable

  datatype Verdict = Verdict(state: State, code: string)

  /** One write and the readings after it; there are none when the write was not accepted. */
  datatype Attempt = Attempt(value: string, reply: Reply, rs: seq<Reading>)

  predicate WellFormed(a: Attempt) { if a.reply == Accepted then Waited(a.rs, a.value) else a.rs == [] }

  predicate Succeeded(a: Attempt)
    requires WellFormed(a)
  {
    a.reply == Accepted && Shows(Last(a.rs), a.value)
  }

  function EventsOf(a: Attempt): seq<Event> { [Asked(a.value, a.reply)] + Reads(a.rs) }

  /** One probe: the first reading, and for a field with a value the attempt and its undoing. */
  datatype Session = Unprobed(first: Reading) | Probed(original: Content, probe: Attempt, undo: Attempt)

  ghost predicate Proper(s: Session) {
    match s
    case Unprobed(first) => !first.Holds?
    case Probed(original, probe, undo) =>
      && WellFormed(probe) && WellFormed(undo)
      && undo.value == TextOf(original) && probe.value != undo.value && PROBE_PREFIX <= probe.value
  }

  function EventsIn(s: Session): seq<Event> {
    match s
    case Unprobed(first) => [Saw(first)]
    case Probed(original, probe, undo) => [Saw(Holds(original))] + EventsOf(probe) + EventsOf(undo)
  }

  /** The verdict of an attempt by itself: how the write was answered and what was seen last. */
  function Candidate(reply: Reply, last: Reading, value: string): Verdict {
    match reply
    case Declined => Verdict(Failed, "INVOKE_FAILED")
    case Failure => Verdict(Failed, "VERIFICATION_EXCEPTION")
    case Accepted =>
      if Shows(last, value) then Verdict(Verified, "")
      else if last == Raised then Verdict(Failed, "VERIFICATION_EXCEPTION")
      else Verdict(Failed, "EFFECT_NOT_OBSERVED")
  }

  function LastSeen(a: Attempt): Reading
    requires WellFormed(a)
  {
    if a.reply == Accepted then Last(a.rs) else NoNode
  }

  /** The verdict when there is nothing to write back: the field was not read, or has no value. */
  function WithoutValue(first: Reading): Verdict {
    match first
    case Raised => Verdict(Failed, "OBSERVATION_FAILED")
    case NoNode => Verdict(Failed, "ELEMENT_NOT_FOUND")
    case _ => Verdict(Unsupported, "ORIGINAL_VALUE_UNAVAILABLE")
  }

  function VerdictOf(s: Session): Verdict
    requires Proper(s)
  {
    match s
    case Unprobed(first) => WithoutValue(first)
    case Probed(_, probe, undo) =>
      if Succeeded(undo) then Candidate(probe.reply, LastSeen(probe), probe.value)
      else Verdict(Failed, "ROLLBACK_FAILED")
  }

  /** Write a value and wait until it shows. */
  method Try<S>(app: Application<S>, value: string) returns (ghost a: Attempt, reply: Reply, last: Reading)
    requires app.Valid()
    modifies app`state, app`trace, app.clock
    ensures app.Valid() && app.trace == old(app.trace) + EventsOf(a)
    ensures WellFormed(a) && a.value == value && a.reply == reply && last == LastSeen(a)
  {
    reply := app.Invoke(value);
    last := NoNode;
    a := Attempt(value, reply, []);
    if reply == Accepted {
      ghost var rs;
      last, rs := WaitForValue(app, value);
      a := Attempt(value, reply, rs);
    }
  }

  /** The probe of an edit action; `session` is the record of what happened. */
  method VerifyEdit<S>(app: Application<S>) returns (v: Verdict, ghost session: Session)
    requires app.Valid()
    modifies app`state, app`trace, app.clock
    ensures app.Valid() && app.trace == old(app.trace) + EventsIn(session)
    ensures Proper(session) && v == VerdictOf(session)
  {
    var first := app.Read();
    session := Unprobed(first);
    if first.Holds? {
      ghost var base := old(app.trace);
      v, session := ProbeField(app, first.content);
      Regroup4(base, [Saw(first)], EventsOf(session.probe), EventsOf(session.undo));
    } else {
      v := WithoutValue(first);
    }
  }

  lemma Regroup4(a: seq<Event>, b: seq<Event>, c: seq<Event>, d: seq<Event>)
    ensures a + b + (c + d) == a + (b + c + d)
  {
  }

  lemma Regroup(a: seq<Event>, b: seq<Event>, c: seq<Event>)
    ensures (a + b) + c == a + (b + c)
  {
  }

  lemma ProbedVerdict(content: Content, probe: Attempt, undo: Attempt)
    requires WellFormed(probe) && WellFormed(undo) && undo.value == TextOf(content)
    requires probe.value != undo.value && PROBE_PREFIX <= probe.value
    ensures Proper(Probed(content, probe, undo))
    ensures VerdictOf(Probed(content, probe, undo)) ==
            if undo.reply == Accepted && Shows(LastSeen(undo), TextOf(content))
            then Candidate(probe.reply, LastSeen(probe), probe.value) else Verdict(Failed, "ROLLBACK_FAILED")
  {
  }

  /** Write the probe, wait for it, write the original and wait for that. */
  method ProbeField<S>(app: Application<S>, content: Content) returns (v: Verdict, ghost session: Session)
    requires app.Valid()
    modifies app`state, app`trace, app.clock
    ensures app.Valid() && Proper(session) && session.Probed? && v == VerdictOf(session)
    ensures session.original == content
    ensures app.trace == old(app.trace) + (EventsOf(session.probe) + EventsOf(session.undo))
  {
    var original := TextOf(content);
    var probe := PickProbe(original);
    ghost var attempt, undo;
    var reply, last, undoReply, undoLast;
    attempt, reply, last := Try(app, probe);
    v := Candidate(reply, last, probe);
    undo, undoReply, undoLast := Try(app, original);
    Regroup(old(app.trace), EventsOf(attempt), EventsOf(undo));
    session := Probed(content, attempt, undo);
    ProbedVerdict(content, attempt, undo);
    if !(undoReply == Accepted && Shows(undoLast, original)) { v := Verdict(Failed, "ROLLBACK_FAILED"); }
  }

  /** Any marked value that differs from the original. */
  method PickProbe(original: string) returns (probe: string)
    ensures probe != original && PROBE_PREFIX <= probe
  {
    var suffix: string := *;
    probe := PROBE_PREFIX + suffix;
    if probe == original { probe := probe + "0"; }
  }

  // ---- What the verdicts mean ------------------------------------------------------------

  /** The values written, in order. */
  function Written(t: seq<Event>): seq<string> {
    if t == [] then []
    else Written(t[..|t| - 1]) + (if t[|t| - 1].Asked? then [t[|t| - 1].value] else [])
  }

  lemma {:induction false} WrittenAppend(a: seq<Event>, b: seq<Event>)
    ensures Written(a + b) == Written(a) + Written(b)
    decreases |b|
  {
    if b == [] {
      assert a + b == a;
    } else {
      WrittenAppend(a, b[..|b| - 1]);
      assert (a + b)[..|a + b| - 1] == a + b[..|b| - 1];
    }
  }

  lemma {:induction false} ReadsWriteNothing(rs: seq<Reading>)
    ensures Written(Reads(rs)) == []
    decreases |rs|
  {
    if rs == [] {
    } else {
      ReadsWriteNothing(rs[..|rs| - 1]);
      assert Reads(rs)[..|rs| - 1] == Reads(rs[..|rs| - 1]);
    }
  }

  lemma AttemptWritesOnce(a: Attempt)
    ensures Written(EventsOf(a)) == [a.value]
  {
    WrittenAppend([Asked(a.value, a.reply)], Reads(a.rs));
    ReadsWriteNothing(a.rs);
    assert Written([Asked(a.value, a.reply)]) == [a.value];
  }

  /** A probe writes nothing, or the probe and then the original. */
  lemma SessionWrites(s: Session)
    requires Proper(s)
    ensures Written(EventsIn(s)) == if s.Unprobed? then [] else [s.probe.value, TextOf(s.original)]
  {
    if s.Probed? {
      WrittenAppend([Saw(Holds(s.original))] + EventsOf(s.probe), EventsOf(s.undo));
      WrittenAppend([Saw(Holds(s.original))], EventsOf(s.probe));
      AttemptWritesOnce(s.probe);
      AttemptWritesOnce(s.undo);
      assert Written([Saw(Holds(s.original))]) == [];
    }
  }

  /** The observation of a value at a position of the trace. */
  predicate Observed(t: seq<Event>, i: int, value: string) { 0 <= i < |t| && t[i] == Saw(Holds(Plain(value))) }

  /**
   Verified means: the original was read, a different probe was written and read back, then
   the original was written and read back, with nothing written in between or afterwards.
   */
  lemma VerifiedMeans(s: Session)
    requires Proper(s) && VerdictOf(s).state == Verified
    ensures var t := EventsIn(s);
            s.Probed? && exists i, j ::
              && 1 < i < j < |t| - 1
              && t[0] == Saw(Holds(s.original)) && t[1] == Asked(s.probe.value, Accepted)
              && s.probe.value != TextOf(s.original)
              && Observed(t, i, s.probe.value)
              && t[j] == Asked(TextOf(s.original), Accepted)
              && Observed(t, |t| - 1, TextOf(s.original))
              && Written(t) == [s.probe.value, TextOf(s.original)]
  {
    var t := EventsIn(s);
    SessionWrites(s);
    var i := |EventsOf(s.probe)|;
    assert t[i] == EventsOf(s.probe)[i - 1];
    assert t[i + 1] == EventsOf(s.undo)[0];
    assert t[|t| - 1] == EventsOf(s.undo)[|s.undo.rs|];
    assert Observed(t, i, s.probe.value);
  }

  /** And it means nothing less: those five observations are also sufficient. */
  lemma VerifiedIff(s: Session)
    requires Proper(s)
    ensures VerdictOf(s).state == Verified <==> s.Probed? && Succeeded(s.probe) && Succeeded(s.undo)
  {
  }

  /** After an attempt, every verdict but "rollback failed" was given with the original in view. */
  lemma OriginalInView(s: Session)
    requires Proper(s) && s.Probed?
    ensures VerdictOf(s).code != "ROLLBACK_FAILED" <==> Observed(EventsIn(s), |EventsIn(s)| - 1, TextOf(s.original))
  {
    var t := EventsIn(s);
    assert t[|t| - 1] == EventsOf(s.undo)[|s.undo.rs|];
  }

  // ---- The whole action ------------------------------------------------------------------

  /** What is known of the action before the application is touched. */
  datatype Setup = Setup(found: bool, bound: bool, allowed: bool, controlType: string)

  predicate Probes(s: Setup) { s.found && s.bound && s.allowed && s.controlType == "Edit" }

  /** The verdict for an action that is not probed. */
  function Refusal(s: Setup): Verdict {
    if !s.found then Verdict(Failed, "")
    else if !s.bound then Verdict(Blocked, "ADAPTER_NOT_BOUND")
    else if !s.allowed then Verdict(Blocked, "")
    else if s.controlType in {"Button", "MenuItem"} then Verdict(Unsupported, "EXPECTED_EFFECT_UNDEFINED")
    else Verdict(Unsupported, "")
  }

  /** One attempt: a proper session exactly when its setup lets it touch the application. */
  ghost predicate Follows(setup: Setup, session: Option<Session>) {
    && (session.Some? <==> Probes(setup))
    && (session.Some? ==> Proper(session.value))
  }

  ghost function VerdictFor(setup: Setup, session: Option<Session>): Verdict
    requires Follows(setup, session)
  {
    if session.Some? then VerdictOf(session.value) else Refusal(setup)
  }

  function EventsOfOne(session: Option<Session>): seq<Event> {
    if session.Some? then EventsIn(session.value) else []
  }

  /** Only a permitted edit action touches the application, and only it can be verified. */
  method VerifyAction<S>(setup: Setup, app: Application<S>) returns (v: Verdict, ghost session: Option<Session>)
    requires app.Valid()
    modifies app`state, app`trace, app.clock
    ensures app.Valid() && app.trace == old(app.trace) + EventsOfOne(session)
    ensures Follows(setup, session) && v == VerdictFor(setup, session)
    ensures v.state == Verified ==> Probes(setup)
  {
    session := None;
    if !setup.found { return Verdict(Failed, ""), session; }
    if !setup.bound { return Verdict(Blocked, "ADAPTER_NOT_BOUND"), session; }
    if !setup.allowed { return Verdict(Blocked, ""), session; }
    if setup.controlType == "Edit" {
      ghost var s;
      v, s := VerifyEdit(app);
      session := Some(s);
    } else if setup.controlType == "Button" || setup.controlType == "MenuItem" {
      v := Verdict(Unsupported, "EXPECTED_EFFECT_UNDEFINED");
    } else {
      v := Verdict(Unsupported, "");
    }
  }

  /** The verdict on several attempts. */
  function Combined(vs: seq<Verdict>): Verdict
    requires vs != []
  {
    if forall i | 0 <= i < |vs| :: vs[i].state == vs[0].state then vs[|vs| - 1] else Verdict(Unstable, "")
  }

  /** Several attempts are verified exactly when each of them is, and unstable when two differ. */
  lemma CombinedIff(vs: seq<Verdict>)
    requires vs != [] && forall i | 0 <= i < |vs| :: vs[i].state != Unstable
    ensures Combined(vs).state == Verified <==> forall i | 0 <= i < |vs| :: vs[i].state == Verified
    ensures Combined(vs).state == Unstable <==> exists i, j :: 0 <= i < j < |vs| && vs[i].state != vs[j].state
  {
    if i :| 0 <= i < |vs| && vs[i].state != vs[0].state {
      assert vs[0].state != vs[i].state;
    }
  }

  function EventsOfAll(sessions: seq<Option<Session>>): seq<Event> {
    if sessions == [] then []
    else
      var last := sessions[|sessions| - 1];
      EventsOfAll(sessions[..|sessions| - 1]) + EventsOfOne(last)
  }

  /** The setup is resolved again for every attempt; each session is proper for its own. */
  ghost predicate AllFollow(setups: nat -> Setup, sessions: seq<Option<Session>>) {
    sessions == [] ||
    (AllFollow(setups, sessions[..|sessions| - 1]) && Follows(setups(|sessions| - 1), sessions[|sessions| - 1]))
  }

  ghost function Verdicts(setups: nat -> Setup, sessions: seq<Option<Session>>): (vs: seq<Verdict>)
    requires AllFollow(setups, sessions)
    ensures |vs| == |sessions|
  {
    if sessions == [] then []
    else
      var n := |sessions| - 1;
      Verdicts(setups, sessions[..n]) + [VerdictFor(setups(n), sessions[n])]
  }

  /** The field was probed, and both the probe and the original were written and read back. */
  ghost predicate Proved(session: Option<Session>) {
    session.Some? && session.value.Probed? && Proper(session.value)
    && Succeeded(session.value.probe) && Succeeded(session.value.undo)
  }

  ghost predicate AllProved(sessions: seq<Option<Session>>) {
    sessions == [] || (AllProved(sessions[..|sessions| - 1]) && Proved(sessions[|sessions| - 1]))
  }

  lemma {:induction false} ProvedAt(sessions: seq<Option<Session>>, i: nat)
    requires AllProved(sessions) && i < |sessions|
    ensures Proved(sessions[i])
    decreases |sessions|
  {
    if i == |sessions| - 1 {
    } else {
      ProvedAt(sessions[..|sessions| - 1], i);
    }
  }

  predicate AllVerified(vs: seq<Verdict>) { forall i | 0 <= i < |vs| :: vs[i].state == Verified }

  predicate NoneUnstable(vs: seq<Verdict>) { forall i | 0 <= i < |vs| :: vs[i].state != Unstable }

  lemma VerifiedProves(setup: Setup, session: Option<Session>)
    requires Follows(setup, session)
    ensures VerdictFor(setup, session).state != Unstable
    ensures VerdictFor(setup, session).state == Verified <==> Proved(session)
  {
    if session.Some? { VerifiedIff(session.value); }
  }

  lemma OneMoreVerdict(vs: seq<Verdict>, v: Verdict)
    ensures AllVerified(vs + [v]) <==> AllVerified(vs) && v.state == Verified
    ensures NoneUnstable(vs + [v]) <==> NoneUnstable(vs) && v.state != Unstable
  {
    assert (vs + [v])[|vs|] == v;
    assert forall i | 0 <= i < |vs| :: (vs + [v])[i] == vs[i];
  }

  lemma {:induction false} AllVerifiedIff(setups: nat -> Setup, sessions: seq<Option<Session>>)
    requires AllFollow(setups, sessions)
    ensures NoneUnstable(Verdicts(setups, sessions))
    ensures AllVerified(Verdicts(setups, sessions)) <==> AllProved(sessions)
    decreases |sessions|
  {
    if sessions == [] {
    } else {
      var n := |sessions| - 1;
      AllVerifiedIff(setups, sessions[..n]);
      VerifiedProves(setups(n), sessions[n]);
      OneMoreVerdict(Verdicts(setups, sessions[..n]), VerdictFor(setups(n), sessions[n]));
    }
  }

  /** Repeated attempts are verified exactly when every one of them is a probe that succeeded. */
  lemma RepeatedVerifiedIff(setups: nat -> Setup, sessions: seq<Option<Session>>)
    requires sessions != [] && AllFollow(setups, sessions)
    ensures Combined(Verdicts(setups, sessions)).state == Verified <==> AllProved(sessions)
  {
    AllVerifiedIff(setups, sessions);
    CombinedIff(Verdicts(setups, sessions));
  }

  /** One more attempt, after those of `sessions` which followed the trace `base`. */
  method VerifyOnceMore<S>(setups: nat -> Setup, app: Application<S>, ghost base: seq<Event>,
                           verdicts: seq<Verdict>, ghost sessions: seq<Option<Session>>)
    returns (verdicts': seq<Verdict>, ghost sessions': seq<Option<Session>>)
    requires app.Valid() && app.trace == base + EventsOfAll(sessions)
    requires AllFollow(setups, sessions) && verdicts == Verdicts(setups, sessions)
    modifies app`state, app`trace, app.clock
    ensures app.Valid() && app.trace == base + EventsOfAll(sessions') && |sessions'| == |sessions| + 1
    ensures AllFollow(setups, sessions') && verdicts' == Verdicts(setups, sessions')
  {
    var one;
    ghost var session;
    one, session := VerifyAction(setups(|verdicts|), app);
    OneMoreAttempt(setups, sessions, session);
    Regroup(base, EventsOfAll(sessions), EventsOfOne(session));
    verdicts', sessions' := verdicts + [one], sessions + [session];
  }

  /**
   Attempt after attempt, each with the adapter, binding and policy of its time; `sessions`
   records them, and the trace is theirs.
   */
  method VerifyActionRepeatedly<S>(setups: nat -> Setup, app: Application<S>, times: int)
    returns (v: Verdict, ghost sessions: seq<Option<Session>>)
    requires app.Valid()
    modifies app`state, app`trace, app.clock
    ensures app.Valid() && app.trace == old(app.trace) + EventsOfAll(sessions)
    ensures !(1 <= times <= MAX_VERIFICATION_ATTEMPTS) ==> sessions == [] && v == Verdict(Failed, "INVALID_ATTEMPTS")
    ensures 1 <= times <= MAX_VERIFICATION_ATTEMPTS ==>
              && |sessions| == times && AllFollow(setups, sessions)
              && v == Combined(Verdicts(setups, sessions))
    ensures v.state == Verified <==> sessions != [] && AllProved(sessions)
  {
    sessions := [];
    if times < 1 || times > MAX_VERIFICATION_ATTEMPTS { return Verdict(Failed, "INVALID_ATTEMPTS"), sessions; }
    ghost var base := app.trace;
    var verdicts: seq<Verdict> := [];
    for i := 0 to times
      invariant app.Valid() && app.trace == base + EventsOfAll(sessions)
      invariant |sessions| == i && AllFollow(setups, sessions)
      invariant verdicts == Verdicts(setups, sessions)
    {
      verdicts, sessions := VerifyOnceMore(setups, app, base, verdicts, sessions);
    }
    v := Combined(verdicts);
    RepeatedVerifiedIff(setups, sessions);
  }

  lemma OneMoreAttempt(setups: nat -> Setup, sessions: seq<Option<Session>>, session: Option<Session>)
    requires AllFollow(setups, sessions) && Follows(setups(|sessions|), session)
    ensures AllFollow(setups, sessions + [session])
    ensures EventsOfAll(sessions + [session]) ==
            EventsOfAll(sessions) + EventsOfOne(session)
    ensures Verdicts(setups, sessions + [session]) ==
            Verdicts(setups, sessions) + [VerdictFor(setups(|sessions|), session)]
  {
    assert (sessions + [session])[..|sessions|] == sessions;
  }

  /** The record that the engine keeps of a verdict. */
  function StateText(s: State): string {
    match s
    case Verified => "VERIFIED"
    case Failed => "FAILED"
    case Blocked => "BLOCKED"
    case Unsupported => "UNSUPPORTED"
    case Unstable => "UNSTABLE"
  }

  function RecordOf(v: Verdict, evidence: string, suffix: string): E.Fields {
    E.MakeVerdict(StateText(v.state), evidence, map["code" := E.Text(v.code)], suffix)
  }

  /** It claims success exactly for a verified verdict, and carries an identifier exactly then. */
  lemma RecordIsMinted(v: Verdict, evidence: string, suffix: string)
    ensures E.Minted(RecordOf(v, evidence, suffix))
    ensures E.Claimed(RecordOf(v, evidence, suffix)) <==> v.state == Verified
  {
    E.VerdictIsMinted(StateText(v.state), evidence, map["code" := E.Text(v.code)], suffix);
  }
}

/**
 The fake application: a tree of controls in which an edit field really changes when it is
 written, and what verifying one of its actions amounts to.
 */
module FakeBackend {
  import opened Wrappers
  import opened Clocks
  import opened Probe

  /** The value of a control: missing, null, or something. */
  datatype Value = Missing | Null | Present(content: Content)

  datatype Node = Node(automationId: Option<string>, controlType: string, value: Value, children: seq<Node>)

  /** The first node of that identifier, in pre-order. */
  function FindNode(n: Node, id: string): Option<Node>
    decreases n, 0
  {
    if n.automationId == Some(id) then Some(n) else FindIn(n.children, id)
  }

  function FindIn(ns: seq<Node>, id: string): Option<Node>
    decreases ns, 1
  {
    if ns == [] then None
    else if FindNode(ns[0], id).Some? then FindNode(ns[0], id)
    else FindIn(ns[1..], id)
  }

  /** The tree in which that first node has the given value. */
  function WithValue(n: Node, id: string, v: Value): Node
    decreases n, 0
  {
    if n.automationId == Some(id) then n.(value := v) else n.(children := WithValueIn(n.children, id, v))
  }

  function WithValueIn(ns: seq<Node>, id: string, v: Value): seq<Node>
    decreases ns, 1
  {
    if ns == [] then []
    else if FindNode(ns[0], id).Some? then [WithValue(ns[0], id, v)] + ns[1..]
    else [ns[0]] + WithValueIn(ns[1..], id, v)
  }

  /** Writing changes what is found, and nothing else: the written node is found again. */
  lemma {:induction false} FoundAfterWrite(n: Node, id: string, v: Value)
    requires FindNode(n, id).Some?
    ensures FindNode(WithValue(n, id, v), id) == Some(FindNode(n, id).value.(value := v))
    decreases n, 0
  {
    if n.automationId != Some(id) { FoundInAfterWrite(n.children, id, v); }
  }

  lemma {:induction false} FoundInAfterWrite(ns: seq<Node>, id: string, v: Value)
    requires FindIn(ns, id).Some?
    ensures FindIn(WithValueIn(ns, id, v), id) == Some(FindIn(ns, id).value.(value := v))
    decreases ns, 1
  {
    if FindNode(ns[0], id).Some? {
      FoundAfterWrite(ns[0], id, v);
    } else {
      FoundInAfterWrite(ns[1..], id, v);
      assert ([ns[0]] + WithValueIn(ns[1..], id, v))[1..] == WithValueIn(ns[1..], id, v);
    }
  }

  /** A second write makes the first one as if it had not been. */
  lemma {:induction false} LastWriteWins(n: Node, id: string, v: Value, w: Value)
    requires FindNode(n, id).Some?
    ensures WithValue(WithValue(n, id, v), id, w) == WithValue(n, id, w)
    decreases n, 0
  {
    if n.automationId != Some(id) { LastWriteWinsIn(n.children, id, v, w); }
  }

  lemma {:induction false} LastWriteWinsIn(ns: seq<Node>, id: string, v: Value, w: Value)
    requires FindIn(ns, id).Some?
    ensures WithValueIn(WithValueIn(ns, id, v), id, w) == WithValueIn(ns, id, w)
    decreases ns, 1
  {
    if FindNode(ns[0], id).Some? {
      FoundAfterWrite(ns[0], id, v);
      LastWriteWins(ns[0], id, v, w);
    } else {
      LastWriteWinsIn(ns[1..], id, v, w);
      assert ([ns[0]] + WithValueIn(ns[1..], id, v))[1..] == WithValueIn(ns[1..], id, v);
    }
  }

  /** Writing the value a node has leaves the tree as it is, and only that does. */
  lemma {:induction false} SameWriteIff(n: Node, id: string, v: Value)
    requires FindNode(n, id).Some?
    ensures WithValue(n, id, v) == n <==> FindNode(n, id).value.value == v
    decreases n, 0
  {
    if n.automationId != Some(id) { SameWriteInIff(n.children, id, v); }
  }

  lemma {:induction false} SameWriteInIff(ns: seq<Node>, id: string, v: Value)
    requires FindIn(ns, id).Some?
    ensures WithValueIn(ns, id, v) == ns <==> FindIn(ns, id).value.value == v
    decreases ns, 1
  {
    var r := WithValueIn(ns, id, v);
    assert ns == [ns[0]] + ns[1..];
    if FindNode(ns[0], id).Some? {
      SameWriteIff(ns[0], id, v);
      assert r[0] == WithValue(ns[0], id, v);
    } else {
      SameWriteInIff(ns[1..], id, v);
      assert r[1..] == WithValueIn(ns[1..], id, v);
    }
  }

  // ---- The tree as a list ----------------------------------------------------------------

  /** A control without its children; the number of children keeps the shape. */
  datatype Row = Row(automationId: Option<string>, controlType: string, value: Value, children: nat)

  function RowOf(n: Node): Row { Row(n.automationId, n.controlType, n.value, |n.children|) }

  /** All controls in pre-order. */
  function Flat(n: Node): seq<Row>
    decreases n, 0
  {
    [RowOf(n)] + FlatAll(n.children)
  }

  function FlatAll(ns: seq<Node>): seq<Row>
    decreases ns, 1
  {
    if ns == [] then [] else Flat(ns[0]) + FlatAll(ns[1..])
  }

  /** The position of the first control of that identifier, or the length. */
  function FirstRow(rows: seq<Row>, id: string): (k: nat)
    ensures k <= |rows| && (k < |rows| ==> rows[k].automationId == Some(id))
    ensures forall i | 0 <= i < k :: rows[i].automationId != Some(id)
  {
    if rows == [] || rows[0].automationId == Some(id) then 0
    else
      var k := FirstRow(rows[1..], id);
      assert forall i | 0 < i <= k :: rows[i] == rows[1..][i - 1];
      1 + k
  }

  lemma FirstRowOf(rows: seq<Row>, id: string, k: nat)
    requires k <= |rows| && (k < |rows| ==> rows[k].automationId == Some(id))
    requires forall i | 0 <= i < k :: rows[i].automationId != Some(id)
    ensures FirstRow(rows, id) == k
  {
  }

  lemma FirstRowInParts(a: seq<Row>, b: seq<Row>, id: string)
    ensures FirstRow(a + b, id) == if FirstRow(a, id) < |a| then FirstRow(a, id) else |a| + FirstRow(b, id)
  {
    var i, j := FirstRow(a, id), FirstRow(b, id);
    FirstRowOf(a + b, id, if i < |a| then i else |a| + j);
  }

  function UpdatedAt(rows: seq<Row>, k: nat, v: Value): seq<Row> {
    if k < |rows| then rows[k := rows[k].(value := v)] else rows
  }

  /** The list with the value of the first control of that identifier replaced. */
  function Updated(rows: seq<Row>, id: string, v: Value): seq<Row> { UpdatedAt(rows, FirstRow(rows, id), v) }

  lemma ChangeLeft<T>(a: seq<T>, b: seq<T>, k: nat, x: T)
    requires k < |a|
    ensures (a + b)[k := x] == a[k := x] + b
  {
  }

  lemma ChangeRight<T>(a: seq<T>, b: seq<T>, k: nat, x: T)
    requires |a| <= k < |a| + |b|
    ensures (a + b)[k := x] == a + b[k - |a| := x]
  {
  }

  lemma UpdatedAtInParts(a: seq<Row>, b: seq<Row>, i: nat, j: nat, v: Value)
    requires i <= |a| && j <= |b|
    ensures UpdatedAt(a + b, if i < |a| then i else |a| + j, v) ==
            if i < |a| then UpdatedAt(a, i, v) + b else a + UpdatedAt(b, j, v)
  {
    if i < |a| {
      ChangeLeft(a, b, i, a[i].(value := v));
    } else if j < |b| {
      ChangeRight(a, b, |a| + j, b[j].(value := v));
    }
  }

  lemma UpdatedInParts(a: seq<Row>, b: seq<Row>, id: string, v: Value)
    ensures Updated(a + b, id, v) == if FirstRow(a, id) < |a| then Updated(a, id, v) + b else a + Updated(b, id, v)
  {
    FirstRowInParts(a, b, id);
    UpdatedAtInParts(a, b, FirstRow(a, id), FirstRow(b, id), v);
  }

  /** The search finds the first control of the list. */
  lemma {:induction false} FindIsFirst(n: Node, id: string)
    ensures var k := FirstRow(Flat(n), id);
            if k < |Flat(n)| then FindNode(n, id).Some? && RowOf(FindNode(n, id).value) == Flat(n)[k]
            else FindNode(n, id).None?
    decreases n, 0
  {
    FirstRowInParts([RowOf(n)], FlatAll(n.children), id);
    if n.automationId == Some(id) {
      assert FirstRow([RowOf(n)], id) == 0;
    } else {
      assert FirstRow([RowOf(n)], id) == 1;
      FindInIsFirst(n.children, id);
    }
  }

  lemma {:induction false} FindInIsFirst(ns: seq<Node>, id: string)
    ensures var k := FirstRow(FlatAll(ns), id);
            if k < |FlatAll(ns)| then FindIn(ns, id).Some? && RowOf(FindIn(ns, id).value) == FlatAll(ns)[k]
            else FindIn(ns, id).None?
    decreases ns, 1
  {
    if ns == [] {
    } else {
      FirstRowInParts(Flat(ns[0]), FlatAll(ns[1..]), id);
      FindIsFirst(ns[0], id);
      FindInIsFirst(ns[1..], id);
    }
  }

  /** Writing changes the value of the first control of the list, and nothing else in it. */
  lemma {:induction false} WriteIsFirst(n: Node, id: string, v: Value)
    requires FindNode(n, id).Some?
    ensures Flat(WithValue(n, id, v)) == Updated(Flat(n), id, v) && |WithValue(n, id, v).children| == |n.children|
    decreases n, 0
  {
    UpdatedInParts([RowOf(n)], FlatAll(n.children), id, v);
    if n.automationId == Some(id) {
      assert FirstRow([RowOf(n)], id) == 0;
      assert Updated([RowOf(n)], id, v) == [RowOf(n).(value := v)];
    } else {
      assert FirstRow([RowOf(n)], id) == 1;
      WriteInIsFirst(n.children, id, v);
    }
  }

  lemma {:induction false} WriteInIsFirst(ns: seq<Node>, id: string, v: Value)
    requires FindIn(ns, id).Some?
    ensures FlatAll(WithValueIn(ns, id, v)) == Updated(FlatAll(ns), id, v) && |WithValueIn(ns, id, v)| == |ns|
    decreases ns, 1
  {
    UpdatedInParts(Flat(ns[0]), FlatAll(ns[1..]), id, v);
    FindIsFirst(ns[0], id);
    var r := WithValueIn(ns, id, v);
    if FindNode(ns[0], id).Some? {
      WriteIsFirst(ns[0], id, v);
      assert r[0] == WithValue(ns[0], id, v) && r[1..] == ns[1..];
    } else {
      WriteInIsFirst(ns[1..], id, v);
      assert r[0] == ns[0] && r[1..] == WithValueIn(ns[1..], id, v);
    }
  }

  // ---- The backend object ----------------------------------------------------------------

  class Backend {
    var uiTree: Node

    constructor (tree: Node)
      ensures uiTree == tree
    {
      uiTree := tree;
    }

    /** A copy of the tree for no window or the known one, otherwise an empty window. */
    method GetUiTree(hwnd: Option<int>) returns (tree: Node)
      ensures tree == TreeFor(uiTree, hwnd)
    {
      tree := if hwnd == None || hwnd == Some(1001) then uiTree else Node(None, "Window", Missing, []);
    }

    /** Write the first control of that identifier if it is an edit field; nothing else changes. */
    method SetUiValue(id: string, text: string) returns (ok: bool)
      modifies this
      ensures var rows, k := old(Flat(uiTree)), FirstRow(old(Flat(uiTree)), id);
              && (ok <==> k < |rows| && rows[k].controlType == "Edit")
              && Flat(uiTree) == if ok then rows[k := rows[k].(value := Present(Plain(text)))] else rows
      ensures (uiTree, ok) == Set(old(uiTree), id, text)
    {
      var node := FindNode(uiTree, id);
      FindIsFirst(uiTree, id);
      if node.None? || node.value.controlType != "Edit" { return false; }
      WriteIsFirst(uiTree, id, Present(Plain(text)));
      uiTree := WithValue(uiTree, id, Present(Plain(text)));
      ok := true;
    }

    /** What the verifier sees of a control: exactly the reading of the fake application. */
    method Observe(id: string, hwnd: Option<int>) returns (r: Reading)
      ensures FakeApplication(id, hwnd).onRead(uiTree) == (uiTree, r)
    {
      var tree := GetUiTree(hwnd);
      var node := FindNode(tree, id);
      r := if node.None? then NoNode
           else if node.value.value.Present? then Holds(node.value.value.content) else NoValue;
    }

    /** An invocation of an edit action: exactly the writing of the fake application. */
    method Invoke(id: string, hwnd: Option<int>, text: string) returns (reply: Reply)
      modifies this
      ensures FakeApplication(id, hwnd).onWrite(old(uiTree), text) == (uiTree, reply)
    {
      var tree := GetUiTree(hwnd);
      if FindNode(tree, id).None? { return Declined; }
      var ok := SetUiValue(id, text); // when refused, the text is typed instead, which is accepted
      reply := Accepted;
    }

    /**
     Make the observations and invocations of a trace on this backend. It answers each of them
     as in the trace exactly when the trace is one of the fake application, and then it is left
     as that is.
     */
    method Take(id: string, hwnd: Option<int>, events: seq<Event>) returns (same: bool)
      modifies this
      ensures same <==> Genuine(FakeApplication(id, hwnd), old(uiTree), events)
      ensures same ==> uiTree == Replay(FakeApplication(id, hwnd), old(uiTree), events)
    {
      ghost var b, start := FakeApplication(id, hwnd), uiTree;
      for i := 0 to |events|
        invariant Genuine(b, start, events[..i]) && uiTree == Replay(b, start, events[..i])
      {
        var answered := TakeOne(id, hwnd, events[i]);
        OneMoreGenuine(b, start, events, i);
        if !answered { return false; }
      }
      assert events[..|events|] == events;
      same := true;
    }

    method TakeOne(id: string, hwnd: Option<int>, e: Event) returns (same: bool)
      modifies this
      ensures same <==> Answers(FakeApplication(id, hwnd), old(uiTree), e)
      ensures uiTree == After(FakeApplication(id, hwnd), old(uiTree), e)
    {
      match e
      case Saw(reading) =>
        var r := Observe(id, hwnd);
        same := r == reading;
      case Asked(value, expected) =>
        var reply := Invoke(id, hwnd, value);
        same := reply == expected;
    }

    /** Verify an edit action on this backend: the verdict, and what is left of the tree. */
    method VerifyField(id: string, hwnd: Option<int>, clock: Clock) returns (v: Verdict)
      modifies this, clock
      ensures v.state == Verified <==> HasValue(old(uiTree), hwnd, id) && IsEdit(old(uiTree), id)
      ensures uiTree == old(uiTree) <==>
              (HasValue(old(uiTree), hwnd, id) && IsEdit(old(uiTree), id) ==> Look(old(uiTree), id).content.Plain?)
    {
      var app := new Application(FakeApplication(id, hwnd), uiTree, clock);
      ghost var s;
      v, s := VerifyEdit(app);
      assert [] + EventsIn(s) == EventsIn(s);
      FakeVerdict(id, hwnd, uiTree, s);
      var same := Take(id, hwnd, app.trace);
      assert same && uiTree == app.state;
    }
  }

  /** A trace is genuine up to event `i` exactly when it is so before and that is answered so. */
  lemma OneMoreGenuine<S>(b: Behaviour<S>, s: S, t: seq<Event>, i: nat)
    requires i < |t| && Genuine(b, s, t[..i])
    ensures Genuine(b, s, t[..i + 1]) <==> Answers(b, Replay(b, s, t[..i]), t[i])
    ensures Replay(b, s, t[..i + 1]) == After(b, Replay(b, s, t[..i]), t[i])
    ensures Genuine(b, s, t) ==> Genuine(b, s, t[..i + 1])
  {
    assert t[..i + 1][..i] == t[..i];
    if Genuine(b, s, t) {
      assert t == t[..i + 1] + t[i + 1..];
      ReplayAppend(b, s, t[..i + 1], t[i + 1..]);
    }
  }

  function TreeFor(tree: Node, hwnd: Option<int>): Node {
    if hwnd == None || hwnd == Some(1001) then tree else Node(None, "Window", Missing, [])
  }

  function Set(tree: Node, id: string, text: string): (Node, bool) {
    if FindNode(tree, id).Some? && FindNode(tree, id).value.controlType == "Edit"
    then (WithValue(tree, id, Present(Plain(text))), true)
    else (tree, false)
  }

  function Look(tree: Node, id: string): Reading {
    match FindNode(tree, id)
    case None => NoNode
    case Some(n) => if n.value.Present? then Holds(n.value.content) else NoValue
  }

  /**
   Invoking the action: without the node it fails; a refused write falls back to typing,
   which is accepted and changes nothing in the tree.
   */
  function FakeApplication(id: string, hwnd: Option<int>): Behaviour<Node> {
    Behaviour(
      tree => (tree, Look(TreeFor(tree, hwnd), id)),
      (tree, text) =>
        if FindNode(TreeFor(tree, hwnd), id).None? then (tree, Declined) else (Set(tree, id, text).0, Accepted))
  }

  // ---- Verifying on the fake -------------------------------------------------------------

  lemma {:induction false} ReplayAppend<S>(b: Behaviour<S>, s: S, t: seq<Event>, u: seq<Event>)
    requires Genuine(b, s, t + u)
    ensures Genuine(b, s, t) && Genuine(b, Replay(b, s, t), u)
    ensures Replay(b, s, t + u) == Replay(b, Replay(b, s, t), u)
    decreases |u|
  {
    if u == [] {
      assert t + u == t;
    } else {
      assert (t + u)[..|t + u| - 1] == t + u[..|u| - 1];
      ReplayAppend(b, s, t, u[..|u| - 1]);
    }
  }

  /** Looking does not change the tree, so all looks are the same. */
  lemma {:induction false} LooksAgree(id: string, hwnd: Option<int>, tree: Node, rs: seq<Reading>)
    requires Genuine(FakeApplication(id, hwnd), tree, Reads(rs))
    ensures Replay(FakeApplication(id, hwnd), tree, Reads(rs)) == tree
    ensures forall i | 0 <= i < |rs| :: rs[i] == Look(TreeFor(tree, hwnd), id)
    decreases |rs|
  {
    if rs == [] {
    } else {
      var n := |rs| - 1;
      assert Reads(rs)[..n] == Reads(rs[..n]);
      LooksAgree(id, hwnd, tree, rs[..n]);
    }
  }

  /** One attempt writes the field if it is an edit field, and succeeds if the value then shows. */
  lemma AttemptOnFake(id: string, hwnd: Option<int>, tree: Node, a: Attempt)
    requires WellFormed(a) && Genuine(FakeApplication(id, hwnd), tree, EventsOf(a))
    requires FindNode(TreeFor(tree, hwnd), id).Some?
    ensures Replay(FakeApplication(id, hwnd), tree, EventsOf(a)) == Set(tree, id, a.value).0
    ensures a.reply == Accepted
    ensures Succeeded(a) <==> Shows(Look(TreeFor(Set(tree, id, a.value).0, hwnd), id), a.value)
  {
    var b := FakeApplication(id, hwnd);
    var ask := [Asked(a.value, a.reply)];
    ReplayAppend(b, tree, ask, Reads(a.rs));
    assert ask[..0] == [] && Replay(b, tree, ask[..0]) == tree;
    assert Answers(b, tree, ask[0]);
    assert Replay(b, tree, ask) == Set(tree, id, a.value).0;
    LooksAgree(id, hwnd, Replay(b, tree, ask), a.rs);
  }

  /** The first node of the action's identifier, as the verifier sees it, with a value to restore. */
  predicate HasValue(tree: Node, hwnd: Option<int>, id: string) { Look(TreeFor(tree, hwnd), id).Holds? }

  predicate IsEdit(tree: Node, id: string) {
    FindNode(tree, id).Some? && FindNode(tree, id).value.controlType == "Edit"
  }

  /** What a trace says when it begins with one reading. */
  lemma OneReading<S>(b: Behaviour<S>, s: S, r: Reading, rest: seq<Event>)
    requires Genuine(b, s, [Saw(r)] + rest)
    ensures r == b.onRead(s).1 && Genuine(b, b.onRead(s).0, rest)
    ensures Replay(b, s, [Saw(r)] + rest) == Replay(b, b.onRead(s).0, rest)
  {
    var one := [Saw(r)];
    ReplayAppend(b, s, one, rest);
    assert one[..0] == [] && Replay(b, s, one[..0]) == s;
    assert Answers(b, s, one[0]);
  }

  /** Any session on any application starts with what that answers. */
  lemma SessionStarts<S>(b: Behaviour<S>, start: S, s: Session)
    requires Genuine(b, start, EventsIn(s))
    ensures s.Unprobed? ==>
              s.first == b.onRead(start).1 && Replay(b, start, EventsIn(s)) == b.onRead(start).0
    ensures s.Probed? ==>
              var u, t := b.onRead(start).0, EventsOf(s.probe) + EventsOf(s.undo);
              && Holds(s.original) == b.onRead(start).1 && Genuine(b, u, t)
              && Replay(b, start, EventsIn(s)) == Replay(b, u, t)
  {
    match s
    case Unprobed(first) =>
      assert EventsIn(s) == [Saw(first)] + [];
      OneReading(b, start, first, []);
    case Probed(original, probe, undo) =>
      assert EventsIn(s) == [Saw(Holds(original))] + (EventsOf(probe) + EventsOf(undo));
      OneReading(b, start, Holds(original), EventsOf(probe) + EventsOf(undo));
  }

  /** The first reading of a session is what a look at the tree gives. */
  lemma FirstLook(id: string, hwnd: Option<int>, tree: Node, s: Session)
    requires Proper(s) && Genuine(FakeApplication(id, hwnd), tree, EventsIn(s))
    ensures s.Unprobed? ==> s.first == Look(TreeFor(tree, hwnd), id)
                            && Replay(FakeApplication(id, hwnd), tree, EventsIn(s)) == tree
    ensures s.Probed? ==>
              var b := FakeApplication(id, hwnd);
              && Holds(s.original) == Look(TreeFor(tree, hwnd), id)
              && Genuine(b, tree, EventsOf(s.probe) + EventsOf(s.undo))
              && Replay(b, tree, EventsIn(s)) == Replay(b, tree, EventsOf(s.probe) + EventsOf(s.undo))
  {
    var b := FakeApplication(id, hwnd);
    assert b.onRead(tree) == (tree, Look(TreeFor(tree, hwnd), id));
    SessionStarts(b, tree, s);
  }

  /** Writing the probe and then the original: what shows after each, and what is left. */
  lemma WriteAndUndo(id: string, tree: Node, probe: string, original: Content)
    requires FindNode(tree, id).Some? && FindNode(tree, id).value.value == Present(original)
    requires probe != TextOf(original)
    ensures var mid := Set(tree, id, probe).0;
            var end := Set(mid, id, TextOf(original)).0;
            && FindNode(mid, id).Some?
            && (Shows(Look(mid, id), probe) <==> IsEdit(tree, id))
            && (Shows(Look(end, id), TextOf(original)) <==> IsEdit(tree, id) || original.Plain?)
            && (end == tree <==> !IsEdit(tree, id) || original.Plain?)
  {
    if IsEdit(tree, id) {
      var v, w := Present(Plain(probe)), Present(Plain(TextOf(original)));
      FoundAfterWrite(tree, id, v);
      FoundAfterWrite(tree, id, w);
      LastWriteWins(tree, id, v, w);
      SameWriteIff(tree, id, w);
    }
  }

  /**
   Verifying a permitted edit action on the fake: it is verified exactly when the control is
   an edit field with a value; and the whole tree is afterwards what it was, except that a
   value of an edit field that is not text comes back as text.
   */
  lemma FakeVerdict(id: string, hwnd: Option<int>, tree: Node, s: Session)
    requires Proper(s) && Genuine(FakeApplication(id, hwnd), tree, EventsIn(s))
    ensures VerdictOf(s).state == Verified <==> HasValue(tree, hwnd, id) && IsEdit(tree, id)
    ensures Replay(FakeApplication(id, hwnd), tree, EventsIn(s)) == tree <==>
            (HasValue(tree, hwnd, id) && IsEdit(tree, id) ==> Look(tree, id).content.Plain?)
    ensures HasValue(tree, hwnd, id) ==> FindNode(tree, id).Some? && Look(tree, id).Holds?
    ensures HasValue(tree, hwnd, id) && IsEdit(tree, id) ==>
              Replay(FakeApplication(id, hwnd), tree, EventsIn(s)) ==
              WithValue(tree, id, Present(Plain(TextOf(Look(tree, id).content))))
  {
    FirstLook(id, hwnd, tree, s);
    if s.Probed? {
      LastWriteWins(tree, id, Present(Plain(s.probe.value)), Present(Plain(TextOf(s.original))));
      assert TreeFor(tree, hwnd) == tree;
      WriteAndUndo(id, tree, s.probe.value, s.original);
      TwoAttempts(id, hwnd, tree, s.probe, s.undo);
    }
  }

  const NUMBER_FIELD := Node(Some("field"), "Edit", Present(Other("5")), [])

  /** A field that holds the number 5 is verified and left with the text "5". */
  lemma NumberBecomesText(s: Session)
    requires Proper(s) && Genuine(FakeApplication("field", None), NUMBER_FIELD, EventsIn(s))
    ensures VerdictOf(s).state == Verified
    ensures Replay(FakeApplication("field", None), NUMBER_FIELD, EventsIn(s)) ==
            NUMBER_FIELD.(value := Present(Plain("5")))
  {
    FakeVerdict("field", None, NUMBER_FIELD, s);
  }

  /** Two attempts after each other, each of which succeeds if its value then shows. */
  lemma TwoAttempts(id: string, hwnd: Option<int>, tree: Node, first: Attempt, second: Attempt)
    requires WellFormed(first) && WellFormed(second) && TreeFor(tree, hwnd) == tree
    requires Genuine(FakeApplication(id, hwnd), tree, EventsOf(first) + EventsOf(second))
    requires FindNode(tree, id).Some? && FindNode(Set(tree, id, first.value).0, id).Some?
    ensures var mid := Set(tree, id, first.value).0;
            var end := Set(mid, id, second.value).0;
            && Replay(FakeApplication(id, hwnd), tree, EventsOf(first) + EventsOf(second)) == end
            && (Succeeded(first) <==> Shows(Look(mid, id), first.value))
            && (Succeeded(second) <==> Shows(Look(end, id), second.value))
  {
    var b := FakeApplication(id, hwnd);
    var mid := Set(tree, id, first.value).0;
    var end := Set(mid, id, second.value).0;
    SetKeepsWindow(tree, hwnd, id, first.value);
    SetKeepsWindow(mid, hwnd, id, second.value);
    ReplayAppend(b, tree, EventsOf(first), EventsOf(second));
    AttemptOnFake(id, hwnd, tree, first);
    AttemptOnFake(id, hwnd, mid, second);
  }

  /** The tree that is shown for a window is the whole one before and after a write. */
  lemma SetKeepsWindow(tree: Node, hwnd: Option<int>, id: string, text: string)
    requires TreeFor(tree, hwnd) == tree && FindNode(tree, id).Some?
    ensures TreeFor(Set(tree, id, text).0, hwnd) == Set(tree, id, text).0
  {
  }
}
