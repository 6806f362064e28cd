/**
 The locks of the adapter engine and the order in which they are taken.

 The engine documents three levels: the registry lock, one re-entrant lock per adapter
 object, and the store I/O lock. A fourth, undocumented mutex guards the gauge of running
 probes and is always innermost. Levels alone do not order two adapter locks, so locks are
 compared by level and then by the registration number of the adapter.
 */
module LockOrder {

  /** An adapter is named by the position of its insertion into the registry. */
  datatype Lock = RegistryLock | AdapterLock(adapter: nat) | StoreIoLock | GaugeLock

  const LOCK_LEVEL_REGISTRY := 1
  const LOCK_LEVEL_VERIFICATION := 2
  const LOCK_LEVEL_STORE_IO := 3
  const LOCK_LEVEL_GAUGE := 4

  function Level(l: Lock): int {
    match l
    case RegistryLock => LOCK_LEVEL_REGISTRY
    case AdapterLock(_) => LOCK_LEVEL_VERIFICATION
    case StoreIoLock => LOCK_LEVEL_STORE_IO
    case GaugeLock => LOCK_LEVEL_GAUGE
  }

  /** Strict order on locks: level first, registration number among adapter locks. */
  predicate Below(a: Lock, b: Lock) {
    || Level(a) < Level(b)
    || (a.AdapterLock? && b.AdapterLock? && a.adapter < b.adapter)
  }
}

/**
 Any number of threads running create, load, verify, invoke, delete and reset.

 Each thread is a program counter with the adapters it resolved so far. One step of a thread
 is one lock acquisition, one release, or one access to the registry; reads of the registry
 take no lock, exactly as in the engine, so an adapter may be replaced between two reads.
 */
module AdapterLocks {
  import opened Wrappers
  import opened LockOrder

  type App = string

  const MAX_VERIFICATION_ATTEMPTS := 10

  datatype Op =
    | Create(app: App)
    | Load(manifests: seq<App>)
    | VerifyAndRecord(app: App, times: int)
    | Invoke(app: App)
    | Delete
    | Reset

  /** `raised` marks the exceptional exits; `second` the write that restores the original. */
  datatype Pc =
    | Done
    | CreateRead | CreateLock | CreateInsert | CreateSave | CreateWrite
    | LoadLock | LoadScan | LoadNext | LoadRestore | LoadInsertLock | LoadInsert
    | ResetLock | ResetClear
    | DeleteLock | DeleteFile
    | InvokeResolve | InvokeLock | InvokeRun
    | RecordResolve | RecordLock
    | AttemptResolve | AttemptLock
    | GaugeUpLock | GaugeUp
    | Probe
    | WriteResolve(second: bool) | WriteLock(second: bool) | WriteRun(second: bool)
    | GaugeDownLock(raised: bool) | GaugeDown(raised: bool)
    | AttemptUnlock(raised: bool) | AttemptNext
    | RecordSave | RecordWrite | RecordUnlock

  /**
   `outer` is the adapter `verify_and_record` resolved, `inner` the one `verify_action`
   resolved, `target` the one `invoke_action` resolved; each is the latest known when a
   later one has not been read yet. `left` counts attempts still to run.
   */
  datatype Thread = Thread(pc: Pc, app: App, read: bool, outer: nat, inner: nat, target: nat,
                           left: nat, todo: seq<App>)

  /** The process-wide state: registry, number of registrations so far, gauge of probes. */
  datatype Shared = Shared(registry: map<App, nat>, next: nat, gauge: int)

  datatype State = State(threads: seq<Thread>, shared: Shared)

  function Start(op: Op): Thread {
    var t := Thread(Done, "", false, 0, 0, 0, 0, []);
    match op
    case Create(app) => t.(pc := CreateRead, app := app)
    case Load(ms) => t.(pc := LoadLock, todo := ms)
    case VerifyAndRecord(app, times) =>
      if times < 1 || times > MAX_VERIFICATION_ATTEMPTS then t
      else t.(pc := RecordResolve, app := app, left := times)
    case Invoke(app) => t.(pc := InvokeResolve, app := app)
    case Delete => t.(pc := DeleteLock)
    case Reset => t.(pc := ResetLock)
  }

  /** What a thread holds between two steps. */
  function Held(t: Thread): set<Lock> {
    match t.pc
    case CreateInsert | LoadInsert | ResetClear => {RegistryLock}
    case CreateWrite | LoadScan | DeleteFile => {StoreIoLock}
    case InvokeRun => {AdapterLock(t.target)}
    case AttemptResolve | AttemptLock | AttemptNext | RecordSave | RecordUnlock => {AdapterLock(t.outer)}
    case RecordWrite => {AdapterLock(t.outer), StoreIoLock}
    case GaugeUpLock | Probe | WriteResolve(_) | WriteLock(_) | GaugeDownLock(_) | AttemptUnlock(_) =>
      {AdapterLock(t.outer), AdapterLock(t.inner)}
    case GaugeUp | GaugeDown(_) => {AdapterLock(t.outer), AdapterLock(t.inner), GaugeLock}
    case WriteRun(_) => {AdapterLock(t.outer), AdapterLock(t.inner), AdapterLock(t.target)}
    case _ => {}
  }

  /** The lock a thread must acquire in order to take its next step. */
  function Wanted(t: Thread): Option<Lock> {
    match t.pc
    case CreateLock | LoadInsertLock | ResetLock => Some(RegistryLock)
    case CreateSave | LoadLock | DeleteLock | RecordSave => Some(StoreIoLock)
    case InvokeLock => Some(AdapterLock(t.target))
    case RecordLock => Some(AdapterLock(t.outer))
    case AttemptLock => Some(AdapterLock(t.inner))
    case WriteLock(_) => Some(AdapterLock(t.target))
    case GaugeUpLock | GaugeDownLock(_) => Some(GaugeLock)
    case _ => None
  }

  /** Re-entrant acquisition: only another thread's hold blocks. */
  predicate Enabled(s: State, i: nat)
    requires i < |s.threads|
  {
    var t := s.threads[i];
    && t.pc != Done
    && (Wanted(t).Some? ==>
      forall j | 0 <= j < |s.threads| && j != i :: Wanted(t).value !in Held(s.threads[j]))
  }

  /** Bind the next registration number to `app`. */
  function Register(g: Shared, app: App): Shared {
    g.(registry := g.registry[app := g.next], next := g.next + 1)
  }

  /** Read the registry without a lock; `miss` is where the thread goes when nothing is bound. */
  function Resolve(t: Thread, g: Shared, hit: Pc, miss: Pc): Thread {
    if t.app !in g.registry then t.(pc := miss)
    else
      var a := g.registry[t.app];
      match t.pc
      case AttemptResolve => t.(pc := hit, inner := a, target := a)
      case WriteResolve(_) => t.(pc := hit, target := a)
      case _ => t.(pc := hit, read := true, outer := a, inner := a, target := a)
  }

  /** After the second write the probe is over; after the first the original is restored. */
  function AfterWrite(second: bool): Pc {
    if second then GaugeDownLock(false) else WriteResolve(true)
  }

  /** One step of a thread; `c` settles every choice the model leaves open. */
  function Advance(t: Thread, g: Shared, c: bool): (Thread, Shared) {
    match t.pc
    case Done => (t, g)
    case CreateRead => (t.(pc := if c then CreateLock else Done), g)   // the application may raise
    case CreateLock => (t.(pc := CreateInsert), g)
    case CreateInsert => (t.(pc := CreateSave), Register(g, t.app))
    case CreateSave => (t.(pc := CreateWrite), g)
    case CreateWrite => (t.(pc := Done), g)
    case LoadLock => (t.(pc := LoadScan), g)
    case LoadScan => (t.(pc := LoadNext), g)
    case LoadNext =>
      if t.todo == [] then (t.(pc := Done), g)
      else if t.todo[0] in g.registry || c then (t.(todo := t.todo[1..]), g) // known, or not trusted
      else (t.(pc := LoadRestore), g)
    case LoadRestore => (t.(pc := if c then LoadInsertLock else Done), g)   // the document may raise
    case LoadInsertLock => (t.(pc := LoadInsert), g)
    case LoadInsert =>
      if t.todo == [] then (t.(pc := LoadNext), g)
      else (t.(pc := LoadNext, todo := t.todo[1..]),
            if t.todo[0] in g.registry then g else Register(g, t.todo[0]))
    case ResetLock => (t.(pc := ResetClear), g)
    case ResetClear => (t.(pc := Done), g.(registry := map[]))
    case DeleteLock => (t.(pc := DeleteFile), g)
    case DeleteFile => (t.(pc := Done), g)
    case InvokeResolve => (Resolve(t, g, if c then InvokeLock else Done, Done), g) // c: action found, bound
    case InvokeLock => (t.(pc := InvokeRun), g)
    case InvokeRun => (t.(pc := Done), g)
    case RecordResolve => (Resolve(t, g, if c then RecordLock else Done, Done), g)
    case RecordLock => (t.(pc := if c then AttemptResolve else RecordUnlock), g)   // c: action still there
    case AttemptResolve => (Resolve(t, g, AttemptLock, AttemptNext), g)
    case AttemptLock => (t.(pc := GaugeUpLock), g)
    case GaugeUpLock => (t.(pc := GaugeUp), g)
    case GaugeUp => (t.(pc := Probe), g.(gauge := g.gauge + 1))
    case Probe => (t.(pc := if c then WriteResolve(false) else GaugeDownLock(true)), g)
    case WriteResolve(second) =>
      (Resolve(t, g, if c then WriteLock(second) else AfterWrite(second), AfterWrite(second)), g)
    case WriteLock(second) => (t.(pc := WriteRun(second)), g)
    case WriteRun(second) => (t.(pc := AfterWrite(second)), g)
    case GaugeDownLock(raised) => (t.(pc := GaugeDown(raised)), g)
    case GaugeDown(raised) =>
      (t.(pc := AttemptUnlock(raised)), g.(gauge := if g.gauge - 1 > 0 then g.gauge - 1 else 0))
    // an early verdict and an exception leave the probe the same way; c tells them apart
    case AttemptUnlock(raised) => (t.(pc := if raised && c then RecordUnlock else AttemptNext), g)
    case AttemptNext =>
      if t.left > 1 then (t.(pc := AttemptResolve, left := t.left - 1), g)
      else (t.(pc := if c then RecordSave else RecordUnlock), g)
    case RecordSave => (t.(pc := RecordWrite), g)
    case RecordWrite => (t.(pc := RecordUnlock), g)
    case RecordUnlock => (t.(pc := Done), g)
  }

  function Step(s: State, i: nat, c: bool): State
    requires i < |s.threads|
  {
    var (t, g) := Advance(s.threads[i], s.shared, c);
    State(s.threads[i := t], g)
  }

  /** A schedule names the thread to run and settles its choice, one entry a step. */
  type Schedule = seq<(nat, bool)>

  predicate Runs(s: State, sched: Schedule)
    decreases |sched|
  {
    sched == [] ||
    (sched[0].0 < |s.threads| && Enabled(s, sched[0].0) &&
     Runs(Step(s, sched[0].0, sched[0].1), sched[1..]))
  }

  function Run(s: State, sched: Schedule): State
    requires Runs(s, sched)
    decreases |sched|
  {
    if sched == [] then s else Run(Step(s, sched[0].0, sched[0].1), sched[1..])
  }

  /** Threads at the start of their operation over a registry of already known adapters. */
  ghost predicate Initial(s: State) {
    && (forall i | 0 <= i < |s.threads| :: exists op :: s.threads[i] == Start(op))
    && (forall a | a in s.shared.registry :: s.shared.registry[a] < s.shared.next)
    && s.shared.gauge == 0
  }

  // ---- What every step keeps -------------------------------------------------------------

  predicate NeedsRead(pc: Pc) {
    match pc
    case InvokeLock | InvokeRun | RecordLock | AttemptResolve | AttemptLock | GaugeUpLock | GaugeUp
       | Probe | WriteResolve(_) | WriteLock(_) | WriteRun(_) | GaugeDownLock(_) | GaugeDown(_)
       | AttemptUnlock(_) | AttemptNext | RecordSave | RecordWrite | RecordUnlock => true
    case _ => false
  }

  /** Successive reads of one name meet adapters in registration order. */
  predicate ThreadOk(t: Thread, g: Shared) {
    && (NeedsRead(t.pc) ==> t.read)
    && (t.read ==>
      && t.outer <= t.inner <= t.target < g.next
      && (t.app in g.registry ==> t.target <= g.registry[t.app]))
  }

  predicate SharedOk(g: Shared) {
    forall a | a in g.registry :: g.registry[a] < g.next
  }

  predicate Exclusive(ts: seq<Thread>) {
    forall i, j | 0 <= i < |ts| && 0 <= j < |ts| && i != j :: Held(ts[i]) !! Held(ts[j])
  }

  /** Threads between the increment and the decrement of the gauge. */
  predicate Probing(t: Thread) {
    match t.pc
    case Probe | WriteResolve(_) | WriteLock(_) | WriteRun(_) | GaugeDownLock(_) | GaugeDown(_) => true
    case _ => false
  }

  function CountProbing(ts: seq<Thread>): nat {
    if ts == [] then 0 else CountProbing(ts[1..]) + (if Probing(ts[0]) then 1 else 0)
  }

  predicate Inv(s: State) {
    && SharedOk(s.shared)
    && (forall i | 0 <= i < |s.threads| :: ThreadOk(s.threads[i], s.shared))
    && Exclusive(s.threads)
    && s.shared.gauge == CountProbing(s.threads)
  }

  lemma {:induction false} NoneProbing(ts: seq<Thread>)
    requires forall i | 0 <= i < |ts| :: !Probing(ts[i])
    ensures CountProbing(ts) == 0
  {
    if ts == [] {
    } else {
      NoneProbing(ts[1..]);
    }
  }

  lemma InitialInv(s: State)
    requires Initial(s)
    ensures Inv(s)
  {
    forall i | 0 <= i < |s.threads|
      ensures Held(s.threads[i]) == {} && !Probing(s.threads[i]) && ThreadOk(s.threads[i], s.shared)
    {
      var op :| s.threads[i] == Start(op);
    }
    NoneProbing(s.threads);
  }

  lemma {:induction false} CountUpdate(ts: seq<Thread>, i: nat, t: Thread)
    requires i < |ts|
    ensures CountProbing(ts[i := t]) ==
            CountProbing(ts) + (if Probing(t) then 1 else 0) - (if Probing(ts[i]) then 1 else 0)
  {
    if i == 0 {
      assert ts[i := t][1..] == ts[1..];
    } else {
      assert ts[i := t][1..] == ts[1..][i - 1 := t];
      CountUpdate(ts[1..], i - 1, t);
    }
  }

  // Groups of steps, over which the proofs about single steps are divided.

  predicate Prepares(pc: Pc) {
    || pc.RecordResolve? || pc.RecordLock? || pc.AttemptResolve? || pc.AttemptLock? || pc.GaugeUpLock? || pc.GaugeUp?
    || pc.Probe?
  }

  predicate Writes(pc: Pc) { pc.WriteResolve? || pc.WriteLock? || pc.WriteRun? }

  predicate Leaves(pc: Pc) { pc.GaugeDownLock? || pc.GaugeDown? || pc.AttemptUnlock? || pc.AttemptNext? }

  predicate Verifies(pc: Pc) { Prepares(pc) || Writes(pc) || Leaves(pc) }

  /** A step adds at most the wanted lock to what its thread holds. */
  lemma AdvanceHeld(t: Thread, g: Shared, c: bool)
    requires t.pc != Done
    ensures forall l | l in Held(Advance(t, g, c).0) ::
              l in Held(t) || (Wanted(t).Some? && l == Wanted(t).value)
  {
  }

  /** The steps that read the registry to resolve an adapter. */
  predicate Reads(pc: Pc) { pc.RecordResolve? || pc.InvokeResolve? || pc.AttemptResolve? || pc.WriteResolve? }

  lemma ReadStaysOk(t: Thread, g: Shared, c: bool)
    requires SharedOk(g) && ThreadOk(t, g) && Reads(t.pc)
    ensures Advance(t, g, c).1 == g && ThreadOk(Advance(t, g, c).0, g)
  {
  }

  lemma OtherStepsReadNothing(t: Thread, g: Shared, c: bool)
    requires !Reads(t.pc)
    ensures var t' := Advance(t, g, c).0;
            t'.app == t.app && t'.read == t.read
            && t'.outer == t.outer && t'.inner == t.inner && t'.target == t.target
            && (NeedsRead(t'.pc) ==> NeedsRead(t.pc))
  {
  }

  lemma RegistryStaysOk(t: Thread, g: Shared, c: bool)
    requires SharedOk(g)
    ensures SharedOk(Advance(t, g, c).1)
  {
  }

  /** No step of one thread disturbs what another thread relies on. */
  lemma OthersStayOk(t: Thread, g: Shared, c: bool, u: Thread)
    requires SharedOk(g) && ThreadOk(u, g)
    ensures ThreadOk(u, Advance(t, g, c).1)
  {
  }

  lemma AdvanceShared(t: Thread, g: Shared, c: bool)
    requires SharedOk(g) && ThreadOk(t, g)
    ensures SharedOk(Advance(t, g, c).1) && ThreadOk(Advance(t, g, c).0, Advance(t, g, c).1)
  {
    RegistryStaysOk(t, g, c);
    if Reads(t.pc) {
      ReadStaysOk(t, g, c);
    } else {
      OthersStayOk(t, g, c, t);
      OtherStepsReadNothing(t, g, c);
    }
  }

  lemma AdvanceGauge(t: Thread, g: Shared, c: bool)
    ensures Advance(t, g, c).1.gauge ==
            if t.pc.GaugeUp? then g.gauge + 1
            else if t.pc.GaugeDown? then (if g.gauge - 1 > 0 then g.gauge - 1 else 0)
            else g.gauge
  {
  }

  lemma VerifyingProbes(t: Thread, g: Shared, c: bool)
    requires Verifies(t.pc)
    ensures Probing(Advance(t, g, c).0) == (t.pc.GaugeUp? || (Probing(t) && !t.pc.GaugeDown?))
  {
  }

  lemma OthersProbeNothing(t: Thread, g: Shared, c: bool)
    requires !Verifies(t.pc)
    ensures !Probing(Advance(t, g, c).0) && !Probing(t)
  {
  }

  lemma {:induction false} CountAtLeast(ts: seq<Thread>, i: nat)
    requires i < |ts| && Probing(ts[i])
    ensures CountProbing(ts) >= 1
  {
    if i == 0 {
    } else {
      CountAtLeast(ts[1..], i - 1);
    }
  }

  lemma StepInv(s: State, i: nat, c: bool)
    requires Inv(s) && i < |s.threads| && Enabled(s, i)
    ensures Inv(Step(s, i, c))
  {
    var t := s.threads[i];
    var s' := Step(s, i, c);
    AdvanceShared(t, s.shared, c);
    AdvanceHeld(t, s.shared, c);
    AdvanceGauge(t, s.shared, c);
    if Verifies(t.pc) { VerifyingProbes(t, s.shared, c); } else { OthersProbeNothing(t, s.shared, c); }
    CountUpdate(s.threads, i, s'.threads[i]);
    if Probing(t) { CountAtLeast(s.threads, i); }
    forall j | 0 <= j < |s.threads| && j != i
      ensures ThreadOk(s'.threads[j], s'.shared) && Held(s'.threads[i]) !! Held(s'.threads[j])
    {
      OthersStayOk(t, s.shared, c, s.threads[j]);
    }
  }

  lemma {:induction false} RunInv(s: State, sched: Schedule)
    requires Inv(s) && Runs(s, sched)
    ensures Inv(Run(s, sched))
    decreases |sched|
  {
    if sched == [] {
    } else {
      StepInv(s, sched[0].0, sched[0].1);
      RunInv(Step(s, sched[0].0, sched[0].1), sched[1..]);
    }
  }

  // ---- Main results ----------------------------------------------------------------------

  /** The acquisition a thread is about to make is re-entrant or goes strictly up. */
  predicate GoesUp(t: Thread) {
    Wanted(t).Some? ==>
      || Wanted(t).value in Held(t)
      || forall l | l in Held(t) :: Below(l, Wanted(t).value)
  }

  lemma OkThreadGoesUp(t: Thread, g: Shared)
    requires ThreadOk(t, g)
    ensures GoesUp(t)
  {
  }

  /** In every reachable state a blocking acquisition is re-entrant or goes strictly up. */
  lemma AcquisitionsGoUp(s: State, sched: Schedule, i: nat)
    requires Initial(s) && Runs(s, sched) && i < |Run(s, sched).threads|
    ensures GoesUp(Run(s, sched).threads[i])
  {
    InitialInv(s);
    RunInv(s, sched);
    OkThreadGoesUp(Run(s, sched).threads[i], Run(s, sched).shared);
  }

  /** No two threads ever hold the same lock, and the gauge counts the running probes. */
  lemma MutualExclusionAndGauge(s: State, sched: Schedule)
    requires Initial(s) && Runs(s, sched)
    ensures Exclusive(Run(s, sched).threads)
    ensures Run(s, sched).shared.gauge == CountProbing(Run(s, sched).threads)
  {
    InitialInv(s);
    RunInv(s, sched);
  }

  /** A number for the lock order, bounded in one state. */
  function Rank(l: Lock, next: nat): nat {
    match l
    case RegistryLock => 0
    case AdapterLock(a) => 1 + a
    case StoreIoLock => 1 + next
    case GaugeLock => 2 + next
  }

  /** Follow the holders of wanted locks upwards; the climb ends at a thread that can step. */
  lemma {:induction false} Climb(s: State, i: nat) returns (k: nat)
    requires Inv(s) && i < |s.threads| && s.threads[i].pc != Done
    ensures k < |s.threads| && Enabled(s, k)
    decreases if Wanted(s.threads[i]).Some? && Rank(Wanted(s.threads[i]).value, s.shared.next) <= 2 + s.shared.next
              then 3 + s.shared.next - Rank(Wanted(s.threads[i]).value, s.shared.next) else 0
  {
    if Enabled(s, i) { return i; }
    assert ThreadOk(s.threads[i], s.shared);
    var want := Wanted(s.threads[i]).value;
    var j :| 0 <= j < |s.threads| && j != i && want in Held(s.threads[j]);
    if Enabled(s, j) { return j; }
    assert ThreadOk(s.threads[j], s.shared) && s.threads[j].pc != Done;
    HolderIsHigher(s.threads[i], s.threads[j], s.shared);
    k := Climb(s, j);
  }

  /** Who holds a wanted lock, and cannot step either, wants a lock of higher rank. */
  lemma HolderIsHigher(t: Thread, u: Thread, g: Shared)
    requires ThreadOk(t, g) && ThreadOk(u, g)
    requires Wanted(t).Some? && Wanted(t).value in Held(u) && Wanted(u).Some? && Wanted(u).value !in Held(u)
    ensures Rank(Wanted(t).value, g.next) < Rank(Wanted(u).value, g.next) <= 2 + g.next
  {
  }

  /** Deadlock freedom: as long as some thread is unfinished, some thread can step. */
  lemma DeadlockFree(s: State, sched: Schedule, i: nat)
    requires Initial(s) && Runs(s, sched)
    requires i < |Run(s, sched).threads| && Run(s, sched).threads[i].pc != Done
    ensures exists k: nat :: k < |Run(s, sched).threads| && Enabled(Run(s, sched), k)
  {
    InitialInv(s);
    RunInv(s, sched);
    var k := Climb(Run(s, sched), i);
  }

  // ---- Every run ends --------------------------------------------------------------------

  /** Steps a thread can still take, at most. */
  function Fuel(t: Thread): nat {
    match t.pc
    case Done => 0
    case CreateRead => 5 case CreateLock => 4 case CreateInsert => 3 case CreateSave => 2 case CreateWrite => 1
    case LoadLock => 3 + 4 * |t.todo| case LoadScan => 2 + 4 * |t.todo| case LoadNext => 1 + 4 * |t.todo|
    case LoadRestore => 4 * |t.todo| case LoadInsertLock => if t.todo == [] then 3 else 4 * |t.todo| - 1
    case LoadInsert => if t.todo == [] then 2 else 4 * |t.todo| - 2
    case ResetLock | DeleteLock => 2 case ResetClear | DeleteFile => 1
    case InvokeResolve => 3 case InvokeLock => 2 case InvokeRun => 1
    case RecordResolve => 22 + 20 * t.left case RecordLock => 21 + 20 * t.left
    case AttemptResolve => 20 + 20 * t.left case AttemptLock => 19 + 20 * t.left
    case GaugeUpLock => 18 + 20 * t.left case GaugeUp => 17 + 20 * t.left case Probe => 16 + 20 * t.left
    case WriteResolve(second) => (if second then 12 else 15) + 20 * t.left
    case WriteLock(second) => (if second then 11 else 14) + 20 * t.left
    case WriteRun(second) => (if second then 10 else 13) + 20 * t.left
    case GaugeDownLock(_) => 9 + 20 * t.left case GaugeDown(_) => 8 + 20 * t.left
    case AttemptUnlock(_) => 7 + 20 * t.left case AttemptNext => 6 + 20 * t.left
    case RecordSave => 3 case RecordWrite => 2 case RecordUnlock => 1
  }

  function TotalFuel(ts: seq<Thread>): nat {
    if ts == [] then 0 else Fuel(ts[0]) + TotalFuel(ts[1..])
  }

  lemma {:induction false} TotalFuelUpdate(ts: seq<Thread>, i: nat, t: Thread)
    requires i < |ts|
    ensures TotalFuel(ts[i := t]) == TotalFuel(ts) - Fuel(ts[i]) + Fuel(t)
  {
    if i == 0 {
      assert ts[i := t][1..] == ts[1..];
    } else {
      assert ts[i := t][1..] == ts[1..][i - 1 := t];
      TotalFuelUpdate(ts[1..], i - 1, t);
    }
  }

  /** Inserting a manifest always finds one to insert. */
  predicate LoadOk(t: Thread) {
    t.pc.LoadRestore? || t.pc.LoadInsertLock? || t.pc.LoadInsert? ==> t.todo != []
  }

  lemma PreparingBurnsFuel(t: Thread, g: Shared, c: bool)
    requires Prepares(t.pc)
    ensures Fuel(Advance(t, g, c).0) < Fuel(t) && LoadOk(Advance(t, g, c).0)
  {
  }

  lemma WritingBurnsFuel(t: Thread, g: Shared, c: bool)
    requires Writes(t.pc)
    ensures Fuel(Advance(t, g, c).0) < Fuel(t) && LoadOk(Advance(t, g, c).0)
  {
  }

  lemma LeavingBurnsFuel(t: Thread, g: Shared, c: bool)
    requires Leaves(t.pc)
    ensures Fuel(Advance(t, g, c).0) < Fuel(t) && LoadOk(Advance(t, g, c).0)
  {
  }

  lemma OthersBurnFuel(t: Thread, g: Shared, c: bool)
    requires !Verifies(t.pc) && t.pc != Done && LoadOk(t)
    ensures Fuel(Advance(t, g, c).0) < Fuel(t) && LoadOk(Advance(t, g, c).0)
  {
  }

  lemma AdvanceBurnsFuel(t: Thread, g: Shared, c: bool)
    requires t.pc != Done && LoadOk(t)
    ensures Fuel(Advance(t, g, c).0) < Fuel(t) && LoadOk(Advance(t, g, c).0)
  {
    if Prepares(t.pc) {
      PreparingBurnsFuel(t, g, c);
    } else if Writes(t.pc) {
      WritingBurnsFuel(t, g, c);
    } else if Leaves(t.pc) {
      LeavingBurnsFuel(t, g, c);
    } else {
      OthersBurnFuel(t, g, c);
    }
  }

  lemma {:induction false} RunBurnsFuel(s: State, sched: Schedule)
    requires Runs(s, sched) && forall i | 0 <= i < |s.threads| :: LoadOk(s.threads[i])
    ensures |sched| + TotalFuel(Run(s, sched).threads) <= TotalFuel(s.threads)
    decreases |sched|
  {
    if sched == [] {
    } else {
      var i := sched[0].0;
      var s' := Step(s, i, sched[0].1);
      AdvanceBurnsFuel(s.threads[i], s.shared, sched[0].1);
      TotalFuelUpdate(s.threads, i, s'.threads[i]);
      RunBurnsFuel(s', sched[1..]);
    }
  }

  /**
   Every run is finite, and a run that cannot be extended has finished every thread: no
   interleaving of any number of operations hangs.
   */
  lemma EveryRunFinishes(s: State, sched: Schedule)
    requires Initial(s) && Runs(s, sched)
    ensures |sched| <= TotalFuel(s.threads)
    ensures (forall k: nat | k < |Run(s, sched).threads| :: !Enabled(Run(s, sched), k))
            <==> (forall i | 0 <= i < |Run(s, sched).threads| :: Run(s, sched).threads[i].pc == Done)
  {
    forall i | 0 <= i < |s.threads| ensures LoadOk(s.threads[i]) {
      var op :| s.threads[i] == Start(op);
    }
    RunBurnsFuel(s, sched);
    var s' := Run(s, sched);
    if i: nat :| i < |s'.threads| && s'.threads[i].pc != Done {
      DeadlockFree(s, sched, i);
    }
  }

  /** Extend a run at its front. */
  lemma StepThenRun(s: State, i: nat, c: bool, rest: Schedule)
    requires i < |s.threads| && Enabled(s, i) && Runs(Step(s, i, c), rest)
    ensures Runs(s, [(i, c)] + rest) && Run(s, [(i, c)] + rest) == Run(Step(s, i, c), rest)
  {
    assert ([(i, c)] + rest)[1..] == rest;
  }

  // ---- Which adapter is probed and which is recorded -------------------------------------

  /** The application that a step of this thread registers, if any. */
  function Registers(t: Thread, g: Shared): Option<App> {
    match t.pc
    case CreateInsert => Some(t.app)
    case LoadInsert => if t.todo != [] && t.todo[0] !in g.registry then Some(t.todo[0]) else None
    case _ => None
  }

  /**
   Seen by one thread: `count` registrations of its application happened so far, and the
   others are the counts at its latest reads of the outer, inner and target adapter.
   */
  datatype Log = Log(count: nat, outer: nat, inner: nat, target: nat)

  const START := Log(0, 0, 0, 0)

  /** What the thread's own step adds: a read that finds an adapter notes the count. */
  function Noted(t: Thread, g: Shared, log: Log): Log {
    if t.app !in g.registry then log
    else match t.pc
      case RecordResolve | InvokeResolve => Log(log.count, log.count, log.count, log.count)
      case AttemptResolve => log.(inner := log.count, target := log.count)
      case WriteResolve(_) => log.(target := log.count)
      case _ => log
  }

  function Counted(app: App, t: Thread, g: Shared, log: Log): Log {
    if Registers(t, g) == Some(app) then log.(count := log.count + 1) else log
  }

  /** The log of thread `i` after a step of thread `j`. */
  function Logged(s: State, i: nat, j: nat, log: Log): Log
    requires i < |s.threads| && j < |s.threads|
  {
    var own := if i == j then Noted(s.threads[i], s.shared, log) else log;
    Counted(s.threads[i].app, s.threads[j], s.shared, own)
  }

  /** The log of thread `i` after a run that starts with `log`. */
  function History(s: State, sched: Schedule, i: nat, log: Log): Log
    requires Runs(s, sched) && i < |s.threads|
    decreases |sched|
  {
    if sched == [] then log
    else History(Step(s, sched[0].0, sched[0].1), sched[1..], i, Logged(s, i, sched[0].0, log))
  }

  /** Equal adapters were read at equal counts, and only those. */
  predicate Linked(t: Thread, g: Shared, log: Log) {
    && log.outer <= log.inner <= log.target <= log.count
    && (t.read ==>
      && (t.outer == t.inner <==> log.outer == log.inner)
      && (t.inner == t.target <==> log.inner == log.target)
      && (t.app in g.registry ==> (t.target == g.registry[t.app] <==> log.target == log.count)))
  }

  /** What a step does to one entry of the registry. */
  lemma RegistryStep(t: Thread, g: Shared, c: bool, app: App)
    ensures var g' := Advance(t, g, c).1;
            if Registers(t, g) == Some(app) then app in g'.registry && g'.registry[app] == g.next
            else app in g'.registry ==> app in g.registry && g'.registry[app] == g.registry[app]
  {
  }

  /** Registering or forgetting adapters keeps the link, whoever does it. */
  lemma OthersStayLinked(u: Thread, t: Thread, g: Shared, c: bool, log: Log)
    requires ThreadOk(u, g) && Linked(u, g, log)
    ensures Linked(u, Advance(t, g, c).1, Counted(u.app, t, g, log))
  {
    RegistryStep(t, g, c, u.app);
  }

  lemma ReadStaysLinked(t: Thread, g: Shared, c: bool, log: Log)
    requires Reads(t.pc) && ThreadOk(t, g) && Linked(t, g, log)
    ensures Linked(Advance(t, g, c).0, g, Noted(t, g, log))
    ensures Advance(t, g, c).1 == g && Registers(t, g) == None
  {
  }

  lemma OwnStepStaysLinked(t: Thread, g: Shared, c: bool, log: Log)
    requires ThreadOk(t, g) && Linked(t, g, log)
    ensures Linked(Advance(t, g, c).0, Advance(t, g, c).1, Counted(t.app, t, g, Noted(t, g, log)))
    ensures Advance(t, g, c).0.app == t.app
  {
    if Reads(t.pc) {
      ReadStaysLinked(t, g, c, log);
    } else {
      OthersStayLinked(t, t, g, c, log);
      OtherStepsReadNothing(t, g, c);
    }
  }

  lemma {:induction false} RunStaysLinked(s: State, sched: Schedule, i: nat, log: Log)
    requires Inv(s) && Runs(s, sched) && i < |s.threads| && Linked(s.threads[i], s.shared, log)
    ensures i < |Run(s, sched).threads|
    ensures Linked(Run(s, sched).threads[i], Run(s, sched).shared, History(s, sched, i, log))
    decreases |sched|
  {
    if sched == [] {
    } else {
      var j, c := sched[0].0, sched[0].1;
      StepInv(s, j, c);
      assert ThreadOk(s.threads[i], s.shared);
      if i == j {
        OwnStepStaysLinked(s.threads[i], s.shared, c, log);
      } else {
        OthersStayLinked(s.threads[i], s.threads[j], s.shared, c, log);
      }
      RunStaysLinked(Step(s, j, c), sched[1..], i, Logged(s, i, j, log));
    }
  }

  /**
   For every run and thread: the adapter whose action is probed is the one the verdict is
   recorded on, and the adapter that is written is the one that is probed, exactly when no
   registration of the application happened between the reads that resolved them.
   */
  lemma AdaptersAgreeIff(s: State, sched: Schedule, i: nat)
    requires Initial(s) && Runs(s, sched) && i < |s.threads|
    ensures i < |Run(s, sched).threads|
    ensures var t, log := Run(s, sched).threads[i], History(s, sched, i, START);
            t.read ==>
              && (t.outer == t.inner <==> log.outer == log.inner)
              && (t.inner == t.target <==> log.inner == log.target)
              && (t.outer == t.target <==> log.outer == log.target)
  {
    InitialInv(s);
    NothingReadYet(s, i);
    RunInv(s, sched);
    RunStaysLinked(s, sched, i, START);
    assert ThreadOk(Run(s, sched).threads[i], Run(s, sched).shared);
  }

  lemma NothingReadYet(s: State, i: nat)
    requires Initial(s) && i < |s.threads|
    ensures !s.threads[i].read
  {
    var op :| s.threads[i] == Start(op);
  }

  /** The level numbers alone order the acquisition a thread is about to make. */
  predicate LevelsSuffice(t: Thread) {
    Wanted(t).Some? && Wanted(t).value !in Held(t) ==> forall l | l in Held(t) :: Level(l) < Level(Wanted(t).value)
  }

  lemma SameLevelIff(t: Thread, g: Shared)
    requires ThreadOk(t, g)
    ensures LevelsSuffice(t) <==>
            !(t.pc.AttemptLock? && t.outer != t.inner) && !(t.pc.WriteLock? && t.inner != t.target)
  {
    if t.pc.AttemptLock? && t.outer != t.inner {
      assert AdapterLock(t.outer) in Held(t);
    } else if t.pc.WriteLock? && t.inner != t.target {
      assert AdapterLock(t.inner) in Held(t) && AdapterLock(t.target) !in Held(t);
    }
  }

  /**
   The documented levels are a strict order for a thread exactly until it resolves its
   adapter again after a registration of the application.
   */
  lemma LevelsSufficeIff(s: State, sched: Schedule, i: nat)
    requires Initial(s) && Runs(s, sched) && i < |s.threads|
    ensures i < |Run(s, sched).threads|
    ensures var t, log := Run(s, sched).threads[i], History(s, sched, i, START);
            LevelsSuffice(t) <==>
            !(t.pc.AttemptLock? && log.outer != log.inner) && !(t.pc.WriteLock? && log.inner != log.target)
  {
    AdaptersAgreeIff(s, sched, i);
    InitialInv(s);
    RunInv(s, sched);
    var t, g := Run(s, sched).threads[i], Run(s, sched).shared;
    assert ThreadOk(t, g);
    SameLevelIff(t, g);
  }

  /** A thread that may still register the application. */
  predicate MayRegister(t: Thread, app: App) {
    (t.app == app && Creates(t.pc)) || app in t.todo
  }

  lemma TodoShrinks(t: Thread, g: Shared, c: bool)
    ensures var t' := Advance(t, g, c).0;
            t'.app == t.app && (t'.todo == t.todo || (t.todo != [] && t'.todo == t.todo[1..]))
  {
  }

  predicate Creates(pc: Pc) { pc.CreateRead? || pc.CreateLock? || pc.CreateInsert? }

  lemma PreparingNeverCreates(t: Thread, g: Shared, c: bool)
    requires Prepares(t.pc)
    ensures !Creates(Advance(t, g, c).0.pc)
  {
  }

  lemma FinishingNeverCreates(t: Thread, g: Shared, c: bool)
    requires Writes(t.pc) || Leaves(t.pc)
    ensures !Creates(Advance(t, g, c).0.pc)
  {
  }

  lemma OthersNeverCreate(t: Thread, g: Shared, c: bool)
    requires !Verifies(t.pc) && !Creates(t.pc)
    ensures !Creates(Advance(t, g, c).0.pc)
  {
  }

  lemma NeverStartsRegistering(t: Thread, g: Shared, c: bool, app: App)
    requires !MayRegister(t, app)
    ensures !MayRegister(Advance(t, g, c).0, app) && Registers(t, g) != Some(app)
  {
    TodoShrinks(t, g, c);
    if Prepares(t.pc) {
      PreparingNeverCreates(t, g, c);
    } else if Writes(t.pc) || Leaves(t.pc) {
      FinishingNeverCreates(t, g, c);
    } else if !Creates(t.pc) {
      OthersNeverCreate(t, g, c);
    }
  }

  lemma {:induction false} NothingCounted(s: State, sched: Schedule, i: nat, log: Log)
    requires Runs(s, sched) && i < |s.threads|
    requires forall j | 0 <= j < |s.threads| :: !MayRegister(s.threads[j], s.threads[i].app)
    ensures History(s, sched, i, log).count == log.count
    decreases |sched|
  {
    if sched == [] {
    } else {
      var j, c := sched[0].0, sched[0].1;
      var s' := Step(s, j, c);
      NeverStartsRegistering(s.threads[j], s.shared, c, s.threads[i].app);
      assert s'.threads[i].app == s.threads[i].app;
      forall k | 0 <= k < |s'.threads| ensures !MayRegister(s'.threads[k], s'.threads[i].app) { }
      NothingCounted(s', sched[1..], i, Logged(s, i, j, log));
    }
  }

  /**
   What a caller can check beforehand: while no operation creates or loads the application,
   every thread probes and writes the adapter it records on.
   */
  lemma UnregisteredAppsAgree(s: State, sched: Schedule, i: nat)
    requires Initial(s) && Runs(s, sched) && i < |s.threads|
    requires forall j | 0 <= j < |s.threads| :: !MayRegister(s.threads[j], s.threads[i].app)
    ensures i < |Run(s, sched).threads|
    ensures var t := Run(s, sched).threads[i]; t.read ==> t.outer == t.inner == t.target
  {
    InitialInv(s);
    NothingReadYet(s, i);
    RunStaysLinked(s, sched, i, START);
    NothingCounted(s, sched, i, START);
  }

  // ---- A run in which they differ --------------------------------------------------------

  /** Run one schedule after another. */
  lemma {:induction false} RunOn(s: State, first: Schedule, next: Schedule)
    requires Runs(s, first) && Runs(Run(s, first), next)
    ensures Runs(s, first + next) && Run(s, first + next) == Run(Run(s, first), next)
    decreases |first|
  {
    if first == [] {
      assert first + next == next;
    } else {
      assert (first + next)[1..] == first[1..] + next;
      RunOn(Step(s, first[0].0, first[0].1), first[1..], next);
    }
  }

  function Turns(n: nat): Schedule { seq(n, _ => (0, true)) }

  /** One step of the first thread, which a thread that holds nothing cannot block. */
  lemma OneTurn(t: Thread, idle: Thread, g: Shared)
    requires t.pc != Done && Held(idle) == {}
    ensures Enabled(State([t, idle], g), 0)
    ensures Step(State([t, idle], g), 0, true) == State([Advance(t, g, true).0, idle], Advance(t, g, true).1)
  {
    var s := State([t, idle], g);
    assert s.threads[1] == idle;
  }

  lemma TurnThenRun(t: Thread, idle: Thread, g: Shared, t1: Thread, g1: Shared, n: nat, last: State)
    requires t.pc != Done && Held(idle) == {} && Advance(t, g, true) == (t1, g1)
    requires Runs(State([t1, idle], g1), Turns(n)) && Run(State([t1, idle], g1), Turns(n)) == last
    ensures Runs(State([t, idle], g), Turns(n + 1)) && Run(State([t, idle], g), Turns(n + 1)) == last
  {
    OneTurn(t, idle, g);
    StepThenRun(State([t, idle], g), 0, true, Turns(n));
    assert Turns(n + 1) == [(0, true)] + Turns(n);
  }

  /** Steps from here to the recording of the verdict, when nothing raises. */
  function Ahead(pc: Pc): nat {
    match pc
    case AttemptLock => 14 case GaugeUpLock => 13 case GaugeUp => 12 case Probe => 11
    case WriteResolve(second) => if second then 7 else 10
    case WriteLock(second) => if second then 6 else 9
    case WriteRun(second) => if second then 5 else 8
    case GaugeDownLock(_) => 4 case GaugeDown(_) => 3 case AttemptUnlock(_) => 2 case AttemptNext => 1
    case _ => 0
  }

  /** The only probe of all, in its last attempt, with nothing raised and nothing registered anew. */
  predicate Straight(t: Thread, g: Shared) {
    && (Ahead(t.pc) > 0 || t.pc.RecordSave?)
    && t.pc !in {GaugeDownLock(true), GaugeDown(true), AttemptUnlock(true)}
    && t.left == 1 && t.app in g.registry && t.target == g.registry[t.app]
    && g.gauge == if Probing(t) then 1 else 0
  }

  /** The next step is on the straight way, too. */
  predicate GoesOn(t: Thread, g: Shared, t1: Thread, g1: Shared) {
    && Straight(t1, g1) && Ahead(t.pc) == Ahead(t1.pc) + 1
    && t1 == t.(pc := t1.pc) && g1 == g.(gauge := g1.gauge)
  }

  lemma PreparingGoesOn(t: Thread, g: Shared)
    requires Straight(t, g) && Prepares(t.pc)
    ensures GoesOn(t, g, Advance(t, g, true).0, Advance(t, g, true).1)
  {
  }

  lemma WritingGoesOn(t: Thread, g: Shared)
    requires Straight(t, g) && Writes(t.pc)
    ensures GoesOn(t, g, Advance(t, g, true).0, Advance(t, g, true).1)
  {
  }

  lemma LeavingGoesOn(t: Thread, g: Shared)
    requires Straight(t, g) && Leaves(t.pc)
    ensures GoesOn(t, g, Advance(t, g, true).0, Advance(t, g, true).1)
  {
  }

  /** So the thread comes to record its verdict. */
  lemma {:induction false} StraightRuns(t: Thread, idle: Thread, g: Shared)
    requires Straight(t, g) && Held(idle) == {}
    ensures Runs(State([t, idle], g), Turns(Ahead(t.pc)))
    ensures Run(State([t, idle], g), Turns(Ahead(t.pc))) == State([t.(pc := RecordSave), idle], g.(gauge := 0))
    decreases Ahead(t.pc)
  {
    if t.pc.RecordSave? {
      assert g.(gauge := 0) == g;
    } else {
      if Prepares(t.pc) {
        PreparingGoesOn(t, g);
      } else if Writes(t.pc) {
        WritingGoesOn(t, g);
      } else {
        LeavingGoesOn(t, g);
      }
      var (t1, g1) := Advance(t, g, true);
      StraightRuns(t1, idle, g1);
      TurnThenRun(t, idle, g, t1, g1, Ahead(t1.pc), State([t.(pc := RecordSave), idle], g.(gauge := 0)));
    }
  }

  /**
   A run in which a verdict is about to be saved on an adapter other than the one that was
   probed and written: the application was created again after the first read.
   */
  lemma VerdictOnReplacedAdapter() returns (s: State, sched: Schedule)
    ensures Initial(s) && Runs(s, sched) && |Run(s, sched).threads| == 2
    ensures var t := Run(s, sched).threads[0];
            t.pc == RecordSave && t.read && t.outer != t.inner && t.inner == t.target
    ensures History(s, sched, 0, START).outer != History(s, sched, 0, START).inner
  {
    var verify, create, g := Start(VerifyAndRecord("crm", 1)), Start(Create("crm")), Shared(map["crm" := 0], 1, 0);
    s := State([verify, create], g);
    TwoStart(VerifyAndRecord("crm", 1), Create("crm"), g);
    sched := ReplacedRun(verify, create, g);
    AdaptersAgreeIff(s, sched, 0);
  }

  lemma ReplacedRun(verify: Thread, create: Thread, g: Shared) returns (sched: Schedule)
    requires verify.pc == RecordResolve && verify.left == 1 && verify.outer == verify.inner == verify.target == 0
    requires verify.app in g.registry && g.registry[verify.app] == 0 && g.gauge == 0
    requires create.pc == CreateRead && create.app == verify.app
    ensures var s := State([verify, create], g);
            Runs(s, sched) &&
            Run(s, sched) == State([verify.(pc := RecordSave, read := true, inner := g.next, target := g.next),
                                    create.(pc := CreateSave)], Register(g, create.app))
  {
    var recreation := RecreatedRun(verify, create, g);
    var locked, created := verify.(pc := AttemptResolve, read := true), create.(pc := CreateSave);
    var n := AttemptRuns(locked, created, Register(g, create.app));
    RunOn(State([verify, create], g), recreation, Turns(n));
    sched := recreation + Turns(n);
  }

  /** The first read, and then the application is created again. */
  lemma RecreatedRun(verify: Thread, create: Thread, g: Shared) returns (sched: Schedule)
    requires verify.pc == RecordResolve && verify.outer == verify.inner == verify.target == 0
    requires verify.app in g.registry && g.registry[verify.app] == 0
    requires create.pc == CreateRead && create.app == verify.app
    ensures var s := State([verify, create], g);
            Runs(s, sched) &&
            Run(s, sched) == State([verify.(pc := AttemptResolve, read := true), create.(pc := CreateSave)],
                                   Register(g, create.app))
  {
    var created, locked := create.(pc := CreateSave), verify.(pc := AttemptResolve, read := true);
    FirstReadRuns(verify, create, g);
    var recreation := RecreationRuns(State([locked, create], g), State([locked, created], Register(g, create.app)));
    RunOn(State([verify, create], g), Turns(2), recreation);
    sched := Turns(2) + recreation;
  }

  /**
   The documented level numbers are not a strict order: a thread that holds the lock of a
   replaced adapter asks for the lock of its replacement, which is on the same level.
   */
  lemma LevelsAloneAreNotStrict() returns (s: State, sched: Schedule)
    ensures Initial(s) && Runs(s, sched) && |Run(s, sched).threads| == 2
    ensures var t := Run(s, sched).threads[0];
            && Wanted(t).Some? && Wanted(t).value !in Held(t)
            && exists l :: l in Held(t) && Level(l) == Level(Wanted(t).value)
  {
    var verify, create, g := Start(VerifyAndRecord("crm", 1)), Start(Create("crm")), Shared(map["crm" := 0], 1, 0);
    s := State([verify, create], g);
    TwoStart(VerifyAndRecord("crm", 1), Create("crm"), g);
    sched := RereadRun(verify, create, g);
    ReplacedIsOnTheSameLevel(Run(s, sched).threads[0]);
  }

  lemma ReplacedIsOnTheSameLevel(t: Thread)
    requires t.pc == AttemptLock && t.outer != t.inner
    ensures Wanted(t).Some? && Wanted(t).value !in Held(t)
    ensures exists l :: l in Held(t) && Level(l) == Level(Wanted(t).value)
  {
    assert AdapterLock(t.outer) in Held(t);
  }

  lemma TwoStart(a: Op, b: Op, g: Shared)
    requires SharedOk(g) && g.gauge == 0
    ensures Initial(State([Start(a), Start(b)], g))
  {
    var s := State([Start(a), Start(b)], g);
    assert s.threads[0] == Start(a) && s.threads[1] == Start(b);
  }

  /** The first read, the second creation, and then the second read. */
  lemma RereadRun(verify: Thread, create: Thread, g: Shared) returns (sched: Schedule)
    requires verify.pc == RecordResolve && verify.outer == verify.inner == verify.target == 0
    requires verify.app in g.registry && g.registry[verify.app] == 0
    requires create.pc == CreateRead && create.app == verify.app
    ensures var s := State([verify, create], g);
            Runs(s, sched) &&
            Run(s, sched) == State([verify.(pc := AttemptLock, read := true, inner := g.next, target := g.next),
                                    create.(pc := CreateSave)], Register(g, create.app))
  {
    var recreation := RecreatedRun(verify, create, g);
    var reread := RereadRuns(verify.(pc := AttemptResolve, read := true), create.(pc := CreateSave),
                             Register(g, create.app));
    RunOn(State([verify, create], g), recreation, reread);
    sched := recreation + reread;
  }

  lemma RereadRuns(t: Thread, idle: Thread, g: Shared) returns (sched: Schedule)
    requires t.pc == AttemptResolve && t.app in g.registry && Held(idle) == {}
    ensures var s, a := State([t, idle], g), g.registry[t.app];
            Runs(s, sched) && Run(s, sched) == State([t.(pc := AttemptLock, inner := a, target := a), idle], g)
  {
    var a := g.registry[t.app];
    var u := t.(pc := AttemptLock, inner := a, target := a);
    TurnThenRun(t, idle, g, u, g, 0, State([u, idle], g));
    sched := Turns(1);
  }

  lemma AttemptRuns(t: Thread, idle: Thread, g: Shared) returns (n: nat)
    requires t.pc == AttemptResolve && t.left == 1 && t.app in g.registry && g.gauge == 0 && Held(idle) == {}
    ensures var s, a := State([t, idle], g), g.registry[t.app];
            Runs(s, Turns(n)) &&
            Run(s, Turns(n)) == State([t.(pc := RecordSave, inner := a, target := a), idle], g)
  {
    var a := g.registry[t.app];
    var u := t.(pc := AttemptLock, inner := a, target := a);
    StraightRuns(u, idle, g);
    assert g.(gauge := 0) == g;
    TurnThenRun(t, idle, g, u, g, Ahead(AttemptLock), State([u.(pc := RecordSave), idle], g));
    n := 1 + Ahead(AttemptLock);
  }

  lemma FirstReadRuns(verify: Thread, idle: Thread, g: Shared)
    requires verify.pc == RecordResolve && verify.app in g.registry && g.registry[verify.app] == 0 && Held(idle) == {}
    requires verify.outer == verify.inner == verify.target == 0
    ensures var s := State([verify, idle], g);
            Runs(s, Turns(2)) &&
            Run(s, Turns(2)) == State([verify.(pc := AttemptResolve, read := true), idle], g)
  {
    var last, resolved := verify.(pc := AttemptResolve, read := true), verify.(pc := RecordLock, read := true);
    TurnThenRun(resolved, idle, g, last, g, 0, State([last, idle], g));
    TurnThenRun(verify, idle, g, resolved, g, 1, State([last, idle], g));
  }

  lemma RecreationRuns(s: State, s': State) returns (sched: Schedule)
    requires |s.threads| == 2 && Held(s.threads[0]) == {AdapterLock(0)} && s.threads[1].pc == CreateRead
    requires var t := s.threads[1];
             s' == State(s.threads[1 := t.(pc := CreateSave)], Register(s.shared, t.app))
    ensures Runs(s, sched) && Run(s, sched) == s'
  {
    var ready := Step(s, 1, true);
    var locked := Step(ready, 1, true);
    assert Step(locked, 1, true) == s';
    StepThenRun(locked, 1, true, []);
    StepThenRun(ready, 1, true, [(1, true)] + []);
    StepThenRun(s, 1, true, [(1, true)] + ([(1, true)] + []));
    sched := [(1, true)] + ([(1, true)] + ([(1, true)] + []));
  }
}
