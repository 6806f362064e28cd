/**
 The event stream of one WebSocket: which events a principal may see, and the limit on sends
 in a sliding window.
 */
module EventVisibility {
  import opened Wrappers
  import opened Texts

  /** A payload field: a text, a true-ish value that is not text, or nothing. */
  datatype Field = Missing | Text(s: string) | OtherValue

  datatype Payload = Payload(applicationId: Field, appId: Field, ownerSubject: Field, subject: Field, userId: Field)

  datatype Event = Event(id: nat, payload: Payload)

  datatype Principal = Principal(admin: bool, subject: Option<string>, userId: Option<string>)

  /** The first value that counts as true. */
  function Or(a: Field, b: Field): Field {
    if a == Missing || a == Text("") then b else a
  }

  /** A trimmed text, or nothing when it is blank or not text. */
  function Trim(f: Field): Option<string> {
    match f
    case Text(s) => if Strip(s) == "" then None else Some(Strip(s))
    case _ => None
  }

  function AppOf(e: Event): Option<string> { Trim(Or(e.payload.applicationId, e.payload.appId)) }

  function OwnerOf(e: Event): Option<string> {
    Trim(Or(Or(e.payload.ownerSubject, e.payload.subject), e.payload.userId))
  }

  /** `scopes` are the applications the principal's key covers at this moment. */
  predicate Visible(p: Principal, scopes: set<string>, e: Event) {
    p.admin || (
      && (AppOf(e).Some? ==> AppOf(e).value in scopes)
      && (OwnerOf(e).Some? ==> OwnerOf(e) == p.subject || OwnerOf(e) == p.userId))
  }
}

module SendWindow {
  import opened Wrappers
  import opened EventVisibility
  import opened Clocks

  const MAX_SENDS := 120
  const WINDOW := 1.0

  /** What the connection meets at each turn: an event and the state of the principal then. */
  datatype Turn = Turn(event: Event, revoked: bool, scopes: set<string>)

  datatype Ending = BusClosed | Revoked | Flooded

  ghost predicate Ascending(ts: seq<real>) { forall i, j | 0 <= i < j < |ts| :: ts[i] <= ts[j] }

  /** Any two sends `MAX_SENDS` apart are more than a window apart. */
  ghost predicate RateBound(ts: seq<real>) {
    forall i, j | 0 <= i && j == i + MAX_SENDS && j < |ts| :: ts[j] - ts[i] > WINDOW
  }

  /** The record of all sends: when each went out and the time noted after it. */
  ghost predicate History(starts: seq<real>, times: seq<real>, now: real) {
    && |starts| == |times|
    && Ascending(starts) && RateBound(starts)
    && Ascending(times) && RateBound(times)
    && (forall k | 0 <= k < |times| :: starts[k] <= times[k] <= now)
  }

  /** The window is the end of the history, and nothing dropped from it is recent. */
  ghost predicate Window(window: seq<real>, times: seq<real>, now: real) {
    && |window| <= |times| && window == times[|times| - |window|..]
    && (forall k | 0 <= k < |times| - |window| :: now - times[k] > WINDOW)
  }

  /** Its oldest entry may be dropped once it has left the window. */
  lemma DropOne(window: seq<real>, times: seq<real>, now: real)
    requires Window(window, times, now) && window != [] && now - window[0] > WINDOW
    ensures Window(window[1..], times, now)
  {
    var d := |times| - |window|;
    assert window[0] == times[d];
    assert window[1..] == times[d + 1..];
  }

  /** A send that goes out when the window has room, and whose time is noted afterwards, keeps the record. */
  lemma AddOne(window: seq<real>, starts: seq<real>, times: seq<real>, before: real, start: real, now: real)
    requires History(starts, times, before) && Window(window, times, before)
    requires |window| < MAX_SENDS && before <= start <= now
    ensures History(starts + [start], times + [now], now) && Window(window + [now], times + [now], now)
  {
    var starts', times' := starts + [start], times + [now];
    forall i, j | 0 <= i && j == i + MAX_SENDS && j < |times'|
      ensures times'[j] - times'[i] > WINDOW && starts'[j] - starts'[i] > WINDOW
    {
      if j < |times| { assert times[j] - times[i] > WINDOW && starts[j] - starts[i] > WINDOW; }
    }
  }

  /** `picked` names turns in order, one for each sent event. */
  predicate Subsequence(sent: seq<Event>, picked: seq<nat>, turns: seq<Turn>) {
    && |sent| == |picked|
    && (forall k | 0 <= k < |picked| :: picked[k] < |turns| && turns[picked[k]].event == sent[k])
    && (forall k, l | 0 <= k < l < |picked| :: picked[k] < picked[l])
  }

  class Connection {
    const principal: Principal
    const clock: Clock
    var timestamps: seq<real>    // the window of recent sends
    var sent: seq<Event>
    ghost var starts: seq<real>  // the instant at which every send so far went out
    ghost var times: seq<real>   // the time noted after it

    constructor (principal: Principal, clock: Clock)
      ensures Valid() && sent == [] && this.principal == principal && this.clock == clock
    {
      this.principal, this.clock := principal, clock;
      timestamps, sent, starts, times := [], [], [], [];
    }

    ghost predicate Valid()
      reads this, clock
    {
      |sent| == |times| && History(starts, times, clock.now) && Window(timestamps, times, clock.now)
    }

    /** Drop what left the window, then compare with the limit. */
    method FloodExceeded() returns (exceeded: bool)
      requires Valid()
      modifies this`timestamps, clock
      ensures Valid() && clock.now >= old(clock.now)
      ensures forall k | 0 <= k < |timestamps| :: clock.now - timestamps[k] <= WINDOW
      ensures exceeded <==> |timestamps| >= MAX_SENDS
    {
      var now := clock.Read();
      while timestamps != [] && now - timestamps[0] > WINDOW
        invariant now == clock.now >= old(clock.now)
        invariant Window(timestamps, times, now)
        decreases |timestamps|
      {
        DropOne(timestamps, times, now);
        timestamps := timestamps[1..];
      }
      exceeded := |timestamps| >= MAX_SENDS;
    }

    /** Send one event and note the time after it; time passes before and during the send. */
    method Send(e: Event)
      requires Valid() && |timestamps| < MAX_SENDS
      modifies this, clock
      ensures Valid() && sent == old(sent) + [e]
    {
      ghost var before := clock.now;
      clock.Elapse();
      ghost var start := clock.now;
      var now := clock.Read();
      AddOne(timestamps, starts, times, before, start, now);
      sent := sent + [e];
      starts := starts + [start];
      timestamps := timestamps + [now];
      times := times + [now];
    }

    /** Of the first `n` turns, none was revoked and exactly the visible ones were sent, in order. */
    ghost predicate Picks(turns: seq<Turn>, picked: seq<nat>, n: nat)
      requires n <= |turns|
      reads this
    {
      && Subsequence(sent, picked, turns)
      && (forall k | 0 <= k < |picked| :: picked[k] < n)
      && (forall j: nat | j < n ::
            !turns[j].revoked && (Visible(principal, turns[j].scopes, turns[j].event) <==> j in picked))
    }

    /**
     The loop over the bus: check revocation, then visibility, then the limit, then send.
     `picked` records which turns were sent and `stop` the turn at which the loop left: the
     principal was revoked, or a visible event met a window full of recent sends.
     */
    method Run(turns: seq<Turn>) returns (ending: Ending, ghost picked: seq<nat>, ghost stop: nat)
      requires Valid() && sent == []
      modifies this, clock
      ensures Valid() && stop <= |turns| && Picks(turns, picked, stop)
      ensures (ending == BusClosed) == (stop == |turns|)
      ensures ending == Revoked ==> turns[stop].revoked
      ensures ending == Flooded ==>
                && !turns[stop].revoked && Visible(principal, turns[stop].scopes, turns[stop].event)
                && |sent| >= MAX_SENDS
                && forall k | |times| - MAX_SENDS <= k < |times| :: clock.now - times[k] <= WINDOW
    {
      picked, stop := [], 0;
      for i := 0 to |turns|
        invariant Valid() && Picks(turns, picked, i)
      {
        var turn := turns[i];
        if turn.revoked { return Revoked, picked, i; }
        if Visible(principal, turn.scopes, turn.event) {
          var flooded := FloodExceeded();
          if flooded { return Flooded, picked, i; }
          Send(turn.event);
          picked := picked + [i];
        }
      }
      ending, stop := BusClosed, |turns|;
    }
  }

  /** How many of the times fall in the closed interval of one window from `start`. */
  function CountFrom(ts: seq<real>, start: real): nat {
    if ts == [] then 0
    else CountFrom(ts[..|ts| - 1], start) + (if start <= ts[|ts| - 1] <= start + WINDOW then 1 else 0)
  }

  lemma {:induction false} CountBounded(ts: seq<real>, start: real, k: nat)
    requires k <= |ts|
    ensures CountFrom(ts, start) <= CountFrom(ts[..k], start) + |ts| - k
    decreases |ts|
  {
    if k < |ts| {
      var init := ts[..|ts| - 1];
      CountBounded(init, start, k);
      assert init[..k] == ts[..k];
    } else {
      assert ts[..k] == ts;
    }
  }

  lemma {:induction false} NoneBefore(ts: seq<real>, start: real)
    requires forall k | 0 <= k < |ts| :: ts[k] < start
    ensures CountFrom(ts, start) == 0
    decreases |ts|
  {
    if ts == [] {
    } else {
      NoneBefore(ts[..|ts| - 1], start);
    }
  }

  /** No closed interval of one window ever holds more than `MAX_SENDS` sends. */
  lemma {:induction false} WindowNeverOverflows(ts: seq<real>, start: real)
    requires Ascending(ts) && RateBound(ts)
    ensures CountFrom(ts, start) <= MAX_SENDS
    decreases |ts|
  {
    if ts == [] {
    } else {
      var n := |ts| - 1;
      if !(start <= ts[n] <= start + WINDOW) {
        WindowNeverOverflows(ts[..n], start);
      } else if n < MAX_SENDS {
        CountBounded(ts, start, 0);
      } else {
        var k := n - MAX_SENDS;
        assert n == k + MAX_SENDS && ts[n] - ts[k] > WINDOW;
        NoneBefore(ts[..k + 1], start);
        CountBounded(ts, start, k + 1);
      }
    }
  }
}
