/** A monotonic clock: readings never decrease and a sleep lasts at least as long as asked. */
module Clocks {

  class Clock {
    var now: real

    constructor ()
    {
      now := 0.0;
    }

    /** Any amount of time may pass between two actions of the program. */
    method Elapse()
      modifies this
      ensures now >= old(now)
    {
      var delta: real := *;
      if delta > 0.0 { now := now + delta; }
    }

    method Read() returns (t: real)
      modifies this
      ensures t == now && now >= old(now)
    {
      Elapse();
      t := now;
    }

    method Sleep(d: real)
      requires d >= 0.0
      modifies this
      ensures now >= old(now) + d
    {
      now := now + d;
      Elapse();
    }
  }

  /** The least integer not below `x`. */
  function Ceil(x: real): (n: int)
    ensures n as real >= x && (n - 1) as real < x
  {
    -((-x).Floor)
  }

  /** The length of `n` intervals of length `d`. */
  function Span(n: nat, d: real): real {
    if n == 0 then 0.0 else Span(n - 1, d) + d
  }

  lemma {:induction false} SpanIsProduct(n: nat, d: real)
    ensures Span(n, d) == n as real * d
  {
    if n == 0 {
    } else {
      SpanIsProduct(n - 1, d);
    }
  }

  lemma PositiveFactor(x: real, d: real)
    requires x * d > 0.0 && d > 0.0
    ensures x > 0.0
  {
  }

  /** If `n` intervals fit below the timeout, one more stays within its rounded-up count. */
  lemma OneMoreFits(n: nat, d: real, timeout: real)
    requires d > 0.0 && Span(n, d) < timeout
    ensures n < Ceil(timeout / d)
  {
    var q := timeout / d;
    SpanIsProduct(n, d);
    assert (q - n as real) * d == timeout - n as real * d;
    PositiveFactor(q - n as real, d);
  }
}
