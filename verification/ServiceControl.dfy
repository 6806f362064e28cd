/** The service control manager as an adversary, with a record of every call made to it. */
module ServiceManager {
  import opened Wrappers

  const SERVICE_STOPPED := 1
  const SERVICE_START_PENDING := 2
  const SERVICE_STOP_PENDING := 3
  const SERVICE_RUNNING := 4
  const SERVICE_CONTINUE_PENDING := 5
  const SERVICE_PAUSE_PENDING := 6
  const SERVICE_PAUSED := 7

  const ERROR_ACCESS_DENIED := 5
  const ERROR_SERVICE_ALREADY_RUNNING := 1056
  const ERROR_SERVICE_DOES_NOT_EXIST := 1060
  const ERROR_SERVICE_NOT_ACTIVE := 1062

  datatype Event =
    | ManagerOpened | ServiceOpened | ServiceClosed | ManagerClosed
    | Queried(state: int) | QueryRaised
    | StartSent | StopSent
    | Slept(d: real)

  /** A call that may raise, with the Windows error number when there is one. */
  datatype Call = Done | Raised(winerror: Option<int>)

  class Scm {
    ghost var log: seq<Event>

    constructor ()
      ensures log == []
    {
      log := [];
    }

    method OpenManager() returns (c: Call)
      modifies this
      ensures log == old(log) + (if c.Done? then [ManagerOpened] else [])
    {
      c := *;
      log := log + (if c.Done? then [ManagerOpened] else []);
    }

    method OpenService() returns (c: Call)
      modifies this
      ensures log == old(log) + (if c.Done? then [ServiceOpened] else [])
    {
      c := *;
      log := log + (if c.Done? then [ServiceOpened] else []);
    }

    method CloseService()
      modifies this
      ensures log == old(log) + [ServiceClosed]
    {
      log := log + [ServiceClosed];
    }

    method CloseManager()
      modifies this
      ensures log == old(log) + [ManagerClosed]
    {
      log := log + [ManagerClosed];
    }

    /** None when the query raises. */
    method QueryStatus() returns (state: Option<int>)
      modifies this
      ensures log == old(log) + [QueryEvent(state)]
    {
      state := *;
      log := log + [QueryEvent(state)];
    }

    method StartService() returns (c: Call)
      modifies this
      ensures log == old(log) + [StartSent]
    {
      c := *;
      log := log + [StartSent];
    }

    method ControlStop() returns (c: Call)
      modifies this
      ensures log == old(log) + [StopSent]
    {
      c := *;
      log := log + [StopSent];
    }

    method NoteSleep(ghost d: real)
      modifies this
      ensures log == old(log) + [Slept(d)]
    {
      log := log + [Slept(d)];
    }
  }

  function QueryEvent(state: Option<int>): Event {
    if state.Some? then Queried(state.value) else QueryRaised
  }

  predicate IsQuery(e: Event) { e.Queried? || e.QueryRaised? }

  /** The most recent answer to a status query. */
  function LastQuery(ev: seq<Event>): Option<Event> {
    if ev == [] then None
    else if IsQuery(ev[|ev| - 1]) then Some(ev[|ev| - 1])
    else LastQuery(ev[..|ev| - 1])
  }

  function FirstQuery(ev: seq<Event>): Option<Event> {
    if ev == [] then None else if IsQuery(ev[0]) then Some(ev[0]) else FirstQuery(ev[1..])
  }

  function Queries(ev: seq<Event>): nat {
    if ev == [] then 0 else Queries(ev[..|ev| - 1]) + (if IsQuery(ev[|ev| - 1]) then 1 else 0)
  }

  function TotalSleep(ev: seq<Event>): real {
    if ev == [] then 0.0
    else TotalSleep(ev[..|ev| - 1]) + (if ev[|ev| - 1].Slept? then ev[|ev| - 1].d else 0.0)
  }

  predicate Quiet(ev: seq<Event>) { forall e | e in ev :: IsQuery(e) || e.Slept? }

  predicate NoHandles(ev: seq<Event>) {
    forall e | e in ev :: e !in {ManagerOpened, ServiceOpened, ServiceClosed, ManagerClosed}
  }

  predicate NoRequests(ev: seq<Event>) { StartSent !in ev && StopSent !in ev }

  /** Every start request was sent when the most recent observation was `state`. */
  predicate StartsOnlyFrom(ev: seq<Event>, state: int) {
    forall i | 0 <= i < |ev| && ev[i] == StartSent :: LastQuery(ev[..i]) == Some(Queried(state))
  }

  /** Each opened handle is closed exactly once, the service before the manager. */
  predicate HandlesClosed(ev: seq<Event>) {
    || ev == []
    || (&& |ev| >= 2 && ev[0] == ManagerOpened && ev[|ev| - 1] == ManagerClosed
        && var mid := ev[1..|ev| - 1];
           || mid == []
           || (|mid| >= 2 && mid[0] == ServiceOpened && mid[|mid| - 1] == ServiceClosed
               && NoHandles(mid[1..|mid| - 1])))
  }

  lemma {:induction false} Concat(a: seq<Event>, b: seq<Event>)
    ensures LastQuery(a + b) == if LastQuery(b).Some? then LastQuery(b) else LastQuery(a)
    ensures Queries(a + b) == Queries(a) + Queries(b)
    ensures TotalSleep(a + b) == TotalSleep(a) + TotalSleep(b)
    decreases |b|
  {
    if b == [] {
      assert a + b == a;
    } else {
      assert (a + b)[..|a + b| - 1] == a + b[..|b| - 1];
      Concat(a, b[..|b| - 1]);
    }
  }

  lemma Single(e: Event)
    ensures LastQuery([e]) == (if IsQuery(e) then Some(e) else None)
    ensures Queries([e]) == (if IsQuery(e) then 1 else 0)
    ensures TotalSleep([e]) == (if e.Slept? then e.d else 0.0)
  {
    assert [e][..0] == [];
  }
}

/** Start, stop, restart and status of one service. */
module ServiceControl {
  import opened Wrappers
  import opened ServiceManager
  import opened Clocks

  datatype Action = Start | Stop | Restart | Status | Other

  datatype Code = NoCode | ActionNotSupported | InvalidService | Unavailable | NotFound | PermissionDenied
                | OpenFailed | Conflict | StartFailed | StopFailed | Timeout | AmbiguousState

  /** Either a report, or the exception of a status query passing through. */
  datatype Outcome = Report(ok: bool, code: Code, state: Option<int>) | Raises

  predicate Transitional(state: int) {
    state in {SERVICE_START_PENDING, SERVICE_STOP_PENDING, SERVICE_CONTINUE_PENDING, SERVICE_PAUSE_PENDING}
  }

  predicate Blocks(action: Action, state: int) {
    match action
    case Start => state in {SERVICE_STOP_PENDING, SERVICE_PAUSE_PENDING}
    case Stop => state in {SERVICE_START_PENDING, SERVICE_CONTINUE_PENDING}
    case Restart => state in {SERVICE_START_PENDING, SERVICE_STOP_PENDING}
    case _ => false
  }

  function Expected(action: Action): int {
    if action == Stop then SERVICE_STOPPED else SERVICE_RUNNING
  }

  /** How a wait that ended in `state` is reported. */
  function WaitCode(action: Action, state: int, waited: bool): Code {
    if state == Expected(action) then NoCode
    else if Transitional(state) then (if waited then Timeout else AmbiguousState)
    else if action == Stop then StopFailed else StartFailed
  }

  function Min(a: real, b: real): real { if a < b then a else b }

  function Max(a: real, b: real): real { if a < b then b else a }

  /** The bound of one wait: queries made and time slept, whatever the service answers. */
  predicate Bounded(ev: seq<Event>, timeout: real, poll: real) {
    && TotalSleep(ev) <= Max(timeout, 0.0)
    && (timeout <= 0.0 ==> Queries(ev) == 1)
    && (timeout > 0.0 && poll > 0.0 ==> Queries(ev) <= 2 + Ceil(timeout / poll))
  }

  class Controller {
    const scm: Scm
    const clock: Clock
    const timeout: real
    const poll: real

    constructor (scm: Scm, clock: Clock, timeout: real, poll: real)
      ensures this.scm == scm && this.clock == clock && this.timeout == timeout && this.poll == poll
    {
      this.scm, this.clock, this.timeout, this.poll := scm, clock, timeout, poll;
    }

    method Query() returns (q: Option<int>, ghost ev: seq<Event>)
      modifies scm
      ensures scm.log == old(scm.log) + ev && ev == [QueryEvent(q)]
      ensures LastQuery(ev) == Some(QueryEvent(q)) && Queries(ev) == 1 && TotalSleep(ev) == 0.0
    {
      q := scm.QueryStatus();
      ev := [QueryEvent(q)];
      Single(QueryEvent(q));
    }

    /** One turn of the wait: sleep at most to the deadline, then query. */
    method PollOnce(deadline: real) returns (q: Option<int>, ghost ev: seq<Event>)
      requires poll > 0.0
      modifies scm, clock
      ensures scm.log == old(scm.log) + ev && Quiet(ev)
      ensures LastQuery(ev) == Some(QueryEvent(q)) && Queries(ev) == 1
      ensures clock.now >= old(clock.now) + TotalSleep(ev)
      ensures TotalSleep(ev) <= Max(0.0, deadline - old(clock.now))
      ensures clock.now >= deadline || clock.now >= old(clock.now) + poll
    {
      ev := [];
      var later := clock.Read();
      var interval := Min(poll, Max(0.0, deadline - later));
      if interval > 0.0 {
        clock.Sleep(interval);
        scm.NoteSleep(interval);
        ev := [Slept(interval)];
        Single(Slept(interval));
      }
      ghost var last;
      q, last := Query();
      Concat(ev, last);
      ev := ev + last;
    }

    method WaitTerminal(action: Action) returns (r: Outcome, ghost ev: seq<Event>)
      requires poll > 0.0
      modifies scm, clock
      ensures scm.log == old(scm.log) + ev && Quiet(ev) && Bounded(ev, timeout, poll)
      ensures r.Raises? ==> LastQuery(ev) == Some(QueryRaised)
      ensures r.Report? ==>
                && r.state.Some? && LastQuery(ev) == Some(Queried(r.state.value))
                && (r.ok <==> r.state.value == Expected(action))
                && (r.code == WaitCode(action, r.state.value, false) ||
                    (timeout > 0.0 && r.code == WaitCode(action, r.state.value, true)))
    {
      var start := clock.Read();
      var q;
      q, ev := Query();
      if q.None? { return Raises, ev; }
      if timeout <= 0.0 || q.value == Expected(action) {
        return Report(q.value == Expected(action), WaitCode(action, q.value, false), q), ev;
      }
      ghost var rest;
      q, rest := PollUntil(action, q.value, start + timeout, start);
      Concat(ev, rest);
      ev := ev + rest;
      if q.None? { return Raises, ev; }
      r := Report(q.value == Expected(action), WaitCode(action, q.value, true), q);
    }

    /** The polling loop: it ends with a query that found the state, or one past the deadline. */
    method PollUntil(action: Action, first: int, deadline: real, start: real)
      returns (q: Option<int>, ghost ev: seq<Event>)
      requires first != Expected(action)
      requires poll > 0.0 && timeout > 0.0 && deadline == start + timeout && start <= clock.now
      modifies scm, clock
      ensures scm.log == old(scm.log) + ev && Quiet(ev)
      ensures LastQuery(ev) == Some(QueryEvent(q))
      ensures Queries(ev) <= 1 + Ceil(timeout / poll) && TotalSleep(ev) <= timeout
    {
      ghost var limit := Ceil(timeout / poll);
      ev, q := [], Some(first);
      ghost var n: nat := 0;
      var t := clock.Read();
      while t < deadline
        invariant scm.log == old(scm.log) + ev && Quiet(ev)
        invariant q.Some? && (n > 0 ==> LastQuery(ev) == Some(QueryEvent(q))) && (n == 0 ==> q.value == first)
        invariant Queries(ev) == n <= limit
        invariant TotalSleep(ev) <= t - start && TotalSleep(ev) <= timeout
        invariant t == clock.now && (Span(n, poll) <= t - start || t >= deadline)
        decreases limit - n
      {
        if q.value == Expected(action) { return; }
        OneMoreFits(n, poll, timeout);
        ghost var turn;
        q, turn := PollOnce(deadline);
        Concat(ev, turn);
        ev, n := ev + turn, n + 1;
        if q.None? { return; }
        t := clock.Read();
      }
      ghost var last;
      q, last := Query();
      Concat(ev, last);
      ev := ev + last;
    }

    /** Send the request, tolerate the error that says it was not needed, then wait. */
    method Request(action: Action) returns (r: Outcome, ghost ev: seq<Event>)
      requires poll > 0.0 && (action == Start || action == Stop)
      modifies scm, clock
      ensures scm.log == old(scm.log) + ev
      ensures ev != [] && ev[0] == (if action == Start then StartSent else StopSent) && Quiet(ev[1..])
      ensures r.Report? && r.ok ==> LastQuery(ev) == Some(Queried(Expected(action)))
      ensures r.Report? && r.ok ==> r.state == Some(Expected(action)) && r.code == NoCode
      ensures r.Report? && !r.ok ==> r.code != NoCode
    {
      var c: Call;
      if action == Start { c := scm.StartService(); } else { c := scm.ControlStop(); }
      ghost var sent := if action == Start then StartSent else StopSent;
      var benign := if action == Start then ERROR_SERVICE_ALREADY_RUNNING else ERROR_SERVICE_NOT_ACTIVE;
      if c.Raised? && c.winerror != Some(benign) {
        var q, asked := Query();
        ev := [sent] + asked;
        return Report(false, if action == Start then StartFailed else StopFailed, q), ev;
      }
      ghost var rest;
      r, rest := WaitTerminal(action);
      ev := [sent] + rest;
      Concat([sent], rest);
    }

    method DoRestart() returns (r: Outcome, ghost ev: seq<Event>)
      requires poll > 0.0
      modifies scm, clock
      ensures scm.log == old(scm.log) + ev && NoHandles(ev)
      ensures StartsOnlyFrom(ev, SERVICE_STOPPED)
      ensures FirstQuery(ev).Some? && FirstQuery(ev).value.Queried? && Blocks(Restart, FirstQuery(ev).value.state)
              ==> NoRequests(ev) && r == Report(false, Conflict, Some(FirstQuery(ev).value.state))
      ensures r.Report? && r.ok ==> LastQuery(ev) == Some(Queried(SERVICE_RUNNING)) && r.state == Some(SERVICE_RUNNING)
      ensures r.Report? ==> (r.ok <==> r.code == NoCode)
    {
      var q;
      q, ev := Query();
      if q.None? { return Raises, ev; }
      if Blocks(Restart, q.value) { return Report(false, Conflict, q), ev; }
      if q.value != SERVICE_STOPPED {
        ghost var stopping;
        r, stopping := Request(Stop);
        ev := ev + stopping;
        RequestSendsOne(stopping);
        if r.Raises? || !r.ok { return; }
        Concat([QueryEvent(q)], stopping);
      }
      ghost var starting;
      r, starting := StartStopped(ev);
      ev := ev + starting;
    }

    /** The start of a restart, after everything that led to an observed stop. */
    method StartStopped(ghost before: seq<Event>) returns (r: Outcome, ghost ev: seq<Event>)
      requires poll > 0.0
      requires NoHandles(before) && StartSent !in before && LastQuery(before) == Some(Queried(SERVICE_STOPPED))
      modifies scm, clock
      ensures scm.log == old(scm.log) + ev && NoHandles(before + ev)
      ensures StartsOnlyFrom(before + ev, SERVICE_STOPPED)
      ensures FirstQuery(before).Some? ==> FirstQuery(before + ev) == FirstQuery(before)
      ensures r.Report? && r.ok ==>
                LastQuery(before + ev) == Some(Queried(SERVICE_RUNNING)) && r.state == Some(SERVICE_RUNNING)
      ensures r.Report? ==> (r.ok <==> r.code == NoCode)
    {
      r, ev := Request(Start);
      RequestSendsOne(ev);
      StartAfter(before, ev, SERVICE_STOPPED);
      Concat(before, ev);
      if FirstQuery(before).Some? { FirstQueryStays(before, ev); }
    }

    /** Everything between opening the service handle and closing it. */
    method RunAction(action: Action) returns (r: Outcome, ghost ev: seq<Event>)
      requires poll > 0.0 && action != Other
      modifies scm, clock
      ensures scm.log == old(scm.log) + ev && NoHandles(ev)
      ensures action == Restart ==> StartsOnlyFrom(ev, SERVICE_STOPPED)
      ensures FirstQuery(ev).Some? && FirstQuery(ev).value.Queried? && Blocks(action, FirstQuery(ev).value.state)
              ==> NoRequests(ev) && r == Report(false, Conflict, Some(FirstQuery(ev).value.state))
      ensures r.Report? && r.ok ==> r.state.Some? && LastQuery(ev) == Some(Queried(r.state.value))
      ensures r.Report? && r.ok && action != Status ==> r.state == Some(Expected(action))
      ensures action == Status ==> NoRequests(ev)
      ensures action == Start ==> StopSent !in ev
      ensures action == Stop ==> StartSent !in ev
    {
      if action == Restart {
        r, ev := DoRestart();
        return;
      }
      var q;
      q, ev := Query();
      if q.None? { return Raises, ev; }
      if action == Status { return Report(true, NoCode, q), ev; }
      if Blocks(action, q.value) { return Report(false, Conflict, q), ev; }
      ghost var rest;
      r, rest := Request(action);
      ev := ev + rest;
      RequestSendsOne(rest);
      Concat([QueryEvent(q)], rest);
    }

    /**
     The public operation. `nameValid` tells whether the service name passed its pattern and
     `available` whether the service API could be loaded.
     */
    method ControlService(action: Action, nameValid: bool, available: bool)
      returns (r: Outcome, ghost ev: seq<Event>)
      requires poll > 0.0
      modifies scm, clock
      ensures scm.log == old(scm.log) + ev
      ensures HandlesClosed(ev)
      ensures r.Report? && r.ok ==> action != Other && r.state.Some? && LastQuery(ev) == Some(Queried(r.state.value))
      ensures r.Report? && r.ok && action != Status ==> r.state == Some(Expected(action))
      ensures action == Restart ==> StartsOnlyFrom(ev, SERVICE_STOPPED)
      ensures FirstQuery(ev).Some? && FirstQuery(ev).value.Queried? && Blocks(action, FirstQuery(ev).value.state)
              ==> NoRequests(ev) && r == Report(false, Conflict, Some(FirstQuery(ev).value.state))
      ensures action == Other || !nameValid || !available ==> ev == [] && r.Report? && !r.ok
    {
      ev := [];
      if action == Other { return Report(false, ActionNotSupported, None), ev; }
      if !nameValid { return Report(false, InvalidService, None), ev; }
      if !available { return Report(false, Unavailable, None), ev; }
      r, ev := ControlOpened(action);
    }

    /** With the manager and the service open, and both closed again. */
    method ControlOpened(action: Action) returns (r: Outcome, ghost ev: seq<Event>)
      requires poll > 0.0 && action != Other
      modifies scm, clock
      ensures scm.log == old(scm.log) + ev
      ensures HandlesClosed(ev) && Truthful(action, r, ev)
    {
      ev := [];
      var c := scm.OpenManager();
      if c.Raised? { return Report(false, OpenError(c.winerror), None), ev; }
      c := scm.OpenService();
      if c.Raised? {
        scm.CloseManager();
        ev := [ManagerOpened, ManagerClosed];
        return Report(false, OpenError(c.winerror), None), ev;
      }
      ghost var body;
      r, body := RunAction(action);
      scm.CloseService();
      scm.CloseManager();
      ev := [ManagerOpened, ServiceOpened] + body + [ServiceClosed, ManagerClosed];
      EnclosedIsTruthful(action, r, body);
    }
  }

  /** A single start request sent after the observation it needs. */
  lemma StartAfter(before: seq<Event>, starting: seq<Event>, state: int)
    requires StartSent !in before && LastQuery(before) == Some(Queried(state))
    requires starting != [] && forall i | 0 < i < |starting| :: starting[i] != StartSent
    ensures StartsOnlyFrom(before + starting, state)
  {
    var ev := before + starting;
    forall i | 0 <= i < |ev| && ev[i] == StartSent ensures LastQuery(ev[..i]) == Some(Queried(state)) {
      assert i >= |before| by { assert forall k | 0 <= k < |before| :: ev[k] == before[k]; }
      assert ev[..|before|] == before;
    }
  }

  function OpenError(winerror: Option<int>): Code {
    if winerror == Some(ERROR_SERVICE_DOES_NOT_EXIST) then NotFound
    else if winerror == Some(ERROR_ACCESS_DENIED) then PermissionDenied
    else OpenFailed
  }

  /** A request followed by a wait contains no other request. */
  lemma RequestSendsOne(ev: seq<Event>)
    requires ev != [] && (ev[0] == StartSent || ev[0] == StopSent) && Quiet(ev[1..])
    ensures NoHandles(ev)
    ensures forall i | 0 < i < |ev| :: ev[i] != StartSent && ev[i] != StopSent
    ensures forall e | e in ev :: e == ev[0] || (e != StartSent && e != StopSent)
  {
    forall i | 0 < i < |ev| ensures IsQuery(ev[i]) || ev[i].Slept? { assert ev[i] == ev[1..][i - 1]; }
  }

  lemma {:induction false} FirstQueryStays(a: seq<Event>, b: seq<Event>)
    requires FirstQuery(a).Some?
    ensures FirstQuery(a + b) == FirstQuery(a)
  {
    assert (a + b)[0] == a[0] && (a + b)[1..] == a[1..] + b;
    if IsQuery(a[0]) {
    } else {
      FirstQueryStays(a[1..], b);
    }
  }

  /** What a caller may rely on: success is the last observation, and a conflict sends nothing. */
  ghost predicate Truthful(action: Action, r: Outcome, ev: seq<Event>) {
    && (r.Report? && r.ok ==> r.state.Some? && LastQuery(ev) == Some(Queried(r.state.value)))
    && (r.Report? && r.ok && action != Status ==> r.state == Some(Expected(action)))
    && (action == Restart ==> StartsOnlyFrom(ev, SERVICE_STOPPED))
    && (FirstQuery(ev).Some? && FirstQuery(ev).value.Queried? && Blocks(action, FirstQuery(ev).value.state)
        ==> NoRequests(ev) && r == Report(false, Conflict, Some(FirstQuery(ev).value.state)))
  }

  lemma EnclosedIsTruthful(action: Action, r: Outcome, body: seq<Event>)
    requires NoHandles(body) && Truthful(action, r, body)
    ensures var ev := [ManagerOpened, ServiceOpened] + body + [ServiceClosed, ManagerClosed];
            HandlesClosed(ev) && Truthful(action, r, ev)
  {
    Enclosed(body);
  }

  /** Opening and closing the handles around an action changes nothing it observed. */
  lemma Enclosed(body: seq<Event>)
    requires NoHandles(body)
    ensures var ev := [ManagerOpened, ServiceOpened] + body + [ServiceClosed, ManagerClosed];
            && HandlesClosed(ev)
            && LastQuery(ev) == LastQuery(body) && FirstQuery(ev) == FirstQuery(body)
            && (NoRequests(ev) <==> NoRequests(body))
            && forall state | StartsOnlyFrom(body, state) :: StartsOnlyFrom(ev, state)
  {
    var pre, post := [ManagerOpened, ServiceOpened], [ServiceClosed, ManagerClosed];
    var ev := pre + body + post;
    var mid := ev[1..|ev| - 1];
    assert mid == [ServiceOpened] + body + [ServiceClosed];
    assert mid[1..|mid| - 1] == body;
    Concat(pre + body, post);
    Concat(pre, body);
    assert ev[1..][1..] == body + post;
    FirstQueryBefore(body, post);
    forall state | StartsOnlyFrom(body, state) ensures StartsOnlyFrom(ev, state) {
      EnclosedStarts(body, state);
    }
  }

  lemma EnclosedStarts(body: seq<Event>, state: int)
    requires StartsOnlyFrom(body, state)
    ensures StartsOnlyFrom([ManagerOpened, ServiceOpened] + body + [ServiceClosed, ManagerClosed], state)
  {
    var pre := [ManagerOpened, ServiceOpened];
    var ev := pre + body + [ServiceClosed, ManagerClosed];
    forall i | 0 <= i < |ev| && ev[i] == StartSent ensures LastQuery(ev[..i]) == Some(Queried(state)) {
      assert body[i - 2] == StartSent;
      assert ev[..i] == pre + body[..i - 2];
      Concat(pre, body[..i - 2]);
    }
  }

  lemma {:induction false} FirstQueryBefore(a: seq<Event>, b: seq<Event>)
    requires forall e | e in b :: !IsQuery(e)
    ensures FirstQuery(a + b) == FirstQuery(a)
  {
    if a == [] {
      assert a + b == b;
      NoQueryAtAll(b);
    } else {
      assert (a + b)[1..] == a[1..] + b;
      FirstQueryBefore(a[1..], b);
    }
  }

  lemma {:induction false} NoQueryAtAll(b: seq<Event>)
    requires forall e | e in b :: !IsQuery(e)
    ensures FirstQuery(b) == None
  {
    if b == [] {
    } else {
      NoQueryAtAll(b[1..]);
    }
  }
}
