/**
 Volume and mute of an audio endpoint: set, read back, and put the previous values back when
 anything went wrong.
 */
module Percents {

  function Clamp(x: real): real { if x < 0.0 then 0.0 else if x > 1.0 then 1.0 else x }

  /** Round to the nearest integer, a half to the even one. */
  function RoundHalfEven(x: real): (n: int)
    ensures n as real - 0.5 <= x <= n as real + 0.5
    ensures x == x.Floor as real + 0.5 ==> n % 2 == 0
  {
    var low := x.Floor;
    var rest := x - low as real;
    if rest < 0.5 || (rest == 0.5 && low % 2 == 0) then low else low + 1
  }

  /** The percentage that is reported for a level. */
  function Percent(scalar: real): (p: int)
    ensures 0 <= p <= 100
  {
    RoundHalfEven(Clamp(scalar) * 100.0)
  }

  /** The level that is set for a percentage. */
  function Level(percent: int): real { percent as real / 100.0 }

  function Distance(x: real, y: real): real { if x < y then y - x else x - y }

  /** A level that was set from a percentage is reported as that percentage. */
  lemma PercentOfLevel(p: int)
    requires 0 <= p <= 100
    ensures Percent(Level(p)) == p
  {
    assert Clamp(Level(p)) * 100.0 == p as real;
  }

  /** Reading a level and setting what was read moves it by at most half a percent. */
  lemma LevelOfPercent(scalar: real)
    ensures Distance(Level(Percent(scalar)), Clamp(scalar)) <= 1.0 / 200.0
  {
    var x := Clamp(scalar) * 100.0;
    var n := Percent(scalar);
    assert n as real - 0.5 <= x <= n as real + 0.5;
    assert Level(n) * 100.0 == n as real;
  }
}

module Audio {
  import opened Wrappers
  import opened Percents

  /** How the audio service answers one call. */
  datatype Reply =
    | Works
    | RaisesBefore   // an error, nothing done
    | RaisesAfter    // an error although the call took effect
    | Ignored        // no error and no effect (for a set)
    | NoDevice       // a read reports that there is no such device
    | NoSession      // a read raises the "session unavailable" error

  datatype Reading = Level(volume: int, muted: bool) | NotOk | Raised(unavailable: bool)

  predicate TakesEffect(r: Reply) { r == Works || r == RaisesAfter }

  predicate IsSilent(r: Reply) { r == Works || r == Ignored }

  /** An endpoint; `reply` decides the fate of every call and may be any function. */
  class Endpoint {
    const reply: nat -> Reply
    var calls: nat
    var sets: nat
    var scalar: real
    var muted: bool

    constructor (reply: nat -> Reply, scalar: real, muted: bool)
      ensures this.reply == reply && calls == 0 && sets == 0 && this.scalar == scalar && this.muted == muted
    {
      this.reply, calls, sets, this.scalar, this.muted := reply, 0, 0, scalar, muted;
    }

    method ReadVolume() returns (r: Reading)
      modifies this`calls
      ensures calls == old(calls) + 1
      ensures r == match reply(old(calls))
                   case Works => Reading.Level(Percent(scalar), muted)
                   case NoDevice => NotOk
                   case other => Raised(other == NoSession)
    {
      var answer := reply(calls);
      calls := calls + 1;
      match answer
      case Works => r := Reading.Level(Percent(scalar), muted);
      case NoDevice => r := NotOk;
      case other => r := Raised(other == NoSession);
    }

    method PutVolume(percent: int) returns (raised: bool)
      modifies this`calls, this`sets, this`scalar
      ensures calls == old(calls) + 1 && sets == old(sets) + 1
      ensures raised == !IsSilent(reply(old(calls)))
      ensures scalar == if TakesEffect(reply(old(calls))) then Percents.Level(percent) else old(scalar)
    {
      var answer := reply(calls);
      calls, sets := calls + 1, sets + 1;
      if TakesEffect(answer) { scalar := Percents.Level(percent); }
      raised := !IsSilent(answer);
    }

    method PutMute(value: bool) returns (raised: bool)
      modifies this`calls, this`sets, this`muted
      ensures calls == old(calls) + 1 && sets == old(sets) + 1
      ensures raised == !IsSilent(reply(old(calls)))
      ensures muted == if TakesEffect(reply(old(calls))) then value else old(muted)
    {
      var answer := reply(calls);
      calls, sets := calls + 1, sets + 1;
      if TakesEffect(answer) { muted := value; }
      raised := !IsSilent(answer);
    }
  }

  datatype Code = Fine | InvalidValue | ReadFailed | DeviceAbsent | SetFailed | VerifyFailed | VerifyMismatch

  /** The answer to the caller, or the "session unavailable" exception. */
  datatype Outcome =
    | Report(ok: bool, volume: Option<int>, muted: Option<bool>, restored: Option<bool>, code: Code)
    | Unavailable

  /** What a caller may pass; a boolean is not accepted as a number. */
  datatype Value = Integer(n: int) | Boolean(b: bool) | OtherValue

  predicate ValidVolume(v: Value) { v.Integer? && 0 <= v.n <= 100 }

  /** Did the operation get as far as trying to set? */
  predicate Attempted(r: Outcome) { r.Report? && r.code !in {InvalidValue, ReadFailed, DeviceAbsent} }

  /** The call from which an attempt that failed was undone; `first` is the call that read the prior values. */
  function UndoCall(code: Code, first: nat): nat { if code == SetFailed then first + 2 else first + 3 }

  /** Both undoing sets returned without an error. */
  predicate UndoSilent(reply: nat -> Reply, at: nat) { IsSilent(reply(at)) && IsSilent(reply(at + 1)) }

  /** Which replies lead to which verdict; an untroubled attempt succeeds. */
  predicate VerdictFollows(code: Code, reply: nat -> Reply, first: nat) {
    && (code == SetFailed <==> !IsSilent(reply(first + 1)))
    && (code == VerifyFailed <==> IsSilent(reply(first + 1)) && reply(first + 2) !in {Works, NoDevice})
    && (reply(first + 1) == Works && reply(first + 2) == Works ==> code == Fine)
  }

  /** Put the prior values back; the mute is not tried when the volume raised. */
  method AttemptRestore(session: Endpoint, volume: int, muted: bool) returns (restored: bool)
    modifies session`calls, session`sets, session`scalar, session`muted
    ensures restored == UndoSilent(session.reply, old(session.calls))
    ensures restored ==>
              session.scalar ==
                (if session.reply(old(session.calls)) == Ignored then old(session.scalar) else Percents.Level(volume))
    ensures restored ==>
              session.muted == if session.reply(old(session.calls) + 1) == Ignored then old(session.muted) else muted
  {
    var raised := session.PutVolume(volume);
    if raised { return false; }
    raised := session.PutMute(muted);
    restored := !raised;
  }

  /** `scalar` reads like `before` and is as near to it as a percentage can be, or was never moved. */
  predicate SameLevel(scalar: real, before: real) {
    && Percent(scalar) == Percent(before)
    && (scalar == before || Distance(scalar, Clamp(before)) <= 1.0 / 200.0)
  }

  lemma RestoredLevel(before: real)
    ensures SameLevel(Percents.Level(Percent(before)), before)
  {
    PercentOfLevel(Percent(before));
    LevelOfPercent(before);
  }

  method SetVolume(session: Endpoint?, request: Value) returns (r: Outcome)
    modifies session
    // Nothing is set for an invalid request or when the prior values cannot be read.
    ensures !ValidVolume(request) ==> r.Report? && r.code == InvalidValue && !r.ok
    ensures ValidVolume(request) ==>
              (r == Unavailable <==> session == null || session.reply(old(session.calls)) == NoSession)
    ensures session != null && !Attempted(r) ==>
              && session.sets == old(session.sets)
              && session.scalar == old(session.scalar) && session.muted == old(session.muted)
    // Success is the truth about the endpoint.
    ensures r.Report? ==> (r.ok <==> r.code == Fine)
    ensures r.Report? && r.ok ==>
              && ValidVolume(request) && session != null
              && r.volume == Some(request.n) == Some(Percent(session.scalar))
              && r.muted == Some(session.muted) && session.muted == old(session.muted)
    // Every other attempt is undone, and the report says whether the undoing raised.
    ensures Attempted(r) <==> ValidVolume(request) && session != null && session.reply(old(session.calls)) == Works
    ensures Attempted(r) ==> VerdictFollows(r.code, session.reply, old(session.calls))
    ensures Attempted(r) && !r.ok ==>
              r.restored == Some(UndoSilent(session.reply, UndoCall(r.code, old(session.calls))))
    ensures Attempted(r) && r.restored == Some(true) ==>
              && session.muted == old(session.muted)
              && (SameLevel(session.scalar, old(session.scalar)) <==>
                  || session.reply(UndoCall(r.code, old(session.calls))) != Ignored
                  || !TakesEffect(session.reply(old(session.calls) + 1))
                  || request.n == Percent(old(session.scalar)))
  {
    if !ValidVolume(request) { return Report(false, None, None, None, InvalidValue); }
    var percent := request.n;
    if session == null { return Unavailable; }
    ghost var before := session.scalar;
    RestoredLevel(before);
    PercentOfLevel(percent);
    var prior := session.ReadVolume();
    if prior.Raised? {
      return if prior.unavailable then Unavailable else Report(false, None, None, None, ReadFailed);
    }
    if prior.NotOk? { return Report(false, None, None, None, DeviceAbsent); }
    var raised := session.PutVolume(percent);
    NearLevel(percent, before);
    if raised {
      var restored := AttemptRestore(session, prior.volume, prior.muted);
      return Report(false, Some(prior.volume), Some(prior.muted), Some(restored), SetFailed);
    }
    var after := session.ReadVolume();
    if after.Raised? {
      var restored := AttemptRestore(session, prior.volume, prior.muted);
      return Report(false, None, None, Some(restored), VerifyFailed);
    }
    if after.NotOk? || after.volume != percent {
      var restored := AttemptRestore(session, prior.volume, prior.muted);
      return Report(false, if after.NotOk? then None else Some(after.volume),
                    if after.NotOk? then None else Some(after.muted), Some(restored), VerifyMismatch);
    }
    r := Report(true, Some(after.volume), Some(after.muted), None, Fine);
  }

  /** A level set from a percentage is the same level exactly when it reads the same. */
  lemma NearLevel(percent: int, before: real)
    requires 0 <= percent <= 100
    ensures SameLevel(Percents.Level(percent), before) <==> percent == Percent(before)
  {
    PercentOfLevel(percent);
    RestoredLevel(before);
  }

  /** The same where the level was not moved. */
  method RestoreUnmoved(session: Endpoint, volume: int, muted: bool) returns (restored: bool)
    requires volume == Percent(session.scalar)
    modifies session`calls, session`sets, session`scalar, session`muted
    ensures restored == UndoSilent(session.reply, old(session.calls))
    ensures restored ==> SameLevel(session.scalar, old(session.scalar))
    ensures restored ==>
              session.muted == if session.reply(old(session.calls) + 1) == Ignored then old(session.muted) else muted
  {
    RestoredLevel(session.scalar);
    restored := AttemptRestore(session, volume, muted);
  }

  method SetMute(session: Endpoint?, request: Value) returns (r: Outcome)
    modifies session
    ensures !request.Boolean? ==> r.Report? && r.code == InvalidValue && !r.ok
    ensures request.Boolean? ==>
              (r == Unavailable <==> session == null || session.reply(old(session.calls)) == NoSession)
    ensures session != null && !Attempted(r) ==>
              && session.sets == old(session.sets)
              && session.scalar == old(session.scalar) && session.muted == old(session.muted)
    ensures r.Report? ==> (r.ok <==> r.code == Fine)
    ensures r.Report? && r.ok ==>
              && request.Boolean? && session != null
              && r.muted == Some(request.b) == Some(session.muted)
              && r.volume == Some(Percent(session.scalar)) && session.scalar == old(session.scalar)
    ensures Attempted(r) <==> request.Boolean? && session != null && session.reply(old(session.calls)) == Works
    ensures Attempted(r) ==> VerdictFollows(r.code, session.reply, old(session.calls))
    ensures Attempted(r) && !r.ok ==>
              r.restored == Some(UndoSilent(session.reply, UndoCall(r.code, old(session.calls))))
    ensures Attempted(r) && r.restored == Some(true) ==>
              && SameLevel(session.scalar, old(session.scalar))
              && (session.muted == old(session.muted) <==>
                  || session.reply(UndoCall(r.code, old(session.calls)) + 1) != Ignored
                  || !TakesEffect(session.reply(old(session.calls) + 1))
                  || request.b == old(session.muted))
  {
    if !request.Boolean? { return Report(false, None, None, None, InvalidValue); }
    var muted := request.b;
    if session == null { return Unavailable; }
    var prior := session.ReadVolume();
    if prior.Raised? {
      return if prior.unavailable then Unavailable else Report(false, None, None, None, ReadFailed);
    }
    if prior.NotOk? { return Report(false, None, None, None, DeviceAbsent); }
    var raised := session.PutMute(muted);
    if raised {
      var restored := RestoreUnmoved(session, prior.volume, prior.muted);
      return Report(false, Some(prior.volume), Some(prior.muted), Some(restored), SetFailed);
    }
    var after := session.ReadVolume();
    if after.Raised? {
      var restored := RestoreUnmoved(session, prior.volume, prior.muted);
      return Report(false, None, None, Some(restored), VerifyFailed);
    }
    if after.NotOk? || after.muted != muted {
      var restored := RestoreUnmoved(session, prior.volume, prior.muted);
      return Report(false, if after.NotOk? then None else Some(after.volume),
                    if after.NotOk? then None else Some(after.muted), Some(restored), VerifyMismatch);
    }
    r := Report(true, Some(after.volume), Some(after.muted), None, Fine);
  }

  /**
   "Restored" does not mean restored when the service ignores a set without an error: the
   volume was 20, the attempt to set 80 failed after it took effect, and it is not back.
   */
  method RestoredButNot() returns (r: Outcome, scalar: real)
    ensures r.Report? && r.restored == Some(true) && !SameLevel(scalar, 0.2)
  {
    var reply := (n: nat) => if n == 1 then RaisesAfter else if n == 2 then Ignored else Works;
    var session := new Endpoint(reply, 0.2, false);
    PercentOfLevel(20);
    r := SetVolume(session, Integer(80));
    scalar := session.scalar;
  }
}
