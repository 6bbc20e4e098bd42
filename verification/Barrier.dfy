/** The clock of the simulator: `timer_routine`, `next_slot` and `detach_event`.

    Every thread that takes part (the loader and the CPUs) owns one device record with
    two flags, two mutexes and two condition variables.  The model takes one step for each
    lock, unlock, shared read or write, signal and wait, so critical sections guarded by
    different mutexes may overlap.  Devices are named by their position in the device list.
 */
module Barrier {

  datatype Lock = Free | ByDevice | ByTimer

  /** Where a device thread stands.  `Busy` is anywhere outside `next_slot` and `detach_event`;
      each other value names the operation the thread performs next. */
  datatype DevPc =
    | Busy
    // next_slot, first critical section (event_lock)
    | WantEvent | MarkDone | SignalEvent | DropEvent
    // next_slot, second critical section (timer_lock); Asleep is inside pthread_cond_wait
    | WantTimer | TestDone | Asleep | DropTimer
    // detach_event
    | DetachWant | MarkFsh | DetachSignal | DetachDrop | Gone

  /** `calls` counts the writes `done = 1`; it is history and steers nothing. */
  datatype Device = Device(
    pc: DevPc, done: bool, fsh: bool, eventLock: Lock, timerLock: Lock, calls: nat)

  datatype TimerPc =
    | LoopHead
    | CollectWant(k: nat) | CollectTest(k: nat) | CollectAsleep(k: nat) | CollectDrop(k: nat)
    | Tick
    | ReleaseWant(k: nat) | ReleaseClear(k: nat) | ReleaseSignal(k: nat) | ReleaseDrop(k: nat)
    | Exited

  datatype State = State(
    devs: seq<Device>, tpc: TimerPc, time: nat, fshCount: nat, eventCount: nat, stop: bool)

  /** `Enter` and `Detach` are the calls a busy thread chooses to make; `SpuriousDevice` and
      `SpuriousTimer` are wake-ups without a signal, which POSIX permits; `RequestStop` is
      `stop_timer`, called by the main thread once it has joined every other thread. */
  datatype Action =
    | DeviceMoves(d: nat) | TimerMoves | Enter(d: nat) | Detach(d: nat)
    | SpuriousDevice(d: nat) | SpuriousTimer | RequestStop

  // ---------------------------------------------------------------- steps

  predicate TimerInRange(s: State) {
    match s.tpc
    case LoopHead => true
    case Tick => true
    case Exited => true
    case CollectWant(k) => k <= |s.devs|
    case ReleaseWant(k) => k <= |s.devs|
    case CollectTest(k) => k < |s.devs|
    case CollectAsleep(k) => k < |s.devs|
    case CollectDrop(k) => k < |s.devs|
    case ReleaseClear(k) => k < |s.devs|
    case ReleaseSignal(k) => k < |s.devs|
    case ReleaseDrop(k) => k < |s.devs|
  }

  predicate DeviceCanMove(dev: Device) {
    match dev.pc
    case Busy => false
    case Asleep => false
    case Gone => false
    case WantEvent => dev.eventLock.Free?
    case DetachWant => dev.eventLock.Free?
    case WantTimer => dev.timerLock.Free?
    case _ => true
  }

  /** What one step does to the stepping device's own record. */
  function MoveDevice(dev: Device): Device
    requires DeviceCanMove(dev)
  {
    match dev.pc
    case WantEvent => dev.(pc := MarkDone, eventLock := ByDevice)
    case MarkDone => dev.(pc := SignalEvent, done := true, calls := dev.calls + 1)
    case SignalEvent => dev.(pc := DropEvent)
    case DropEvent => dev.(pc := WantTimer, eventLock := Free)
    case WantTimer => dev.(pc := TestDone, timerLock := ByDevice)
    case TestDone => if dev.done then dev.(pc := Asleep, timerLock := Free) else dev.(pc := DropTimer)
    case DropTimer => dev.(pc := Busy, timerLock := Free)
    case DetachWant => dev.(pc := MarkFsh, eventLock := ByDevice)
    case MarkFsh => dev.(pc := DetachSignal, fsh := true)
    case DetachSignal => dev.(pc := DetachDrop)
    case DetachDrop => dev.(pc := Gone, eventLock := Free)
  }

  /** `pthread_cond_signal(event_cond)` wakes the timer only if it sleeps on that very device. */
  function AfterEventSignal(tpc: TimerPc, d: nat): TimerPc {
    if tpc == CollectAsleep(d) then CollectWant(d) else tpc
  }

  predicate Signals(pc: DevPc) {
    pc.SignalEvent? || pc.DetachSignal?
  }

  function DeviceStep(s: State, d: nat): State
    requires d < |s.devs| && DeviceCanMove(s.devs[d])
  {
    s.(devs := s.devs[d := MoveDevice(s.devs[d])],
       tpc := if Signals(s.devs[d].pc) then AfterEventSignal(s.tpc, d) else s.tpc)
  }

  /** The device the timer is working on, if any. */
  predicate Attending(tpc: TimerPc) {
    !tpc.LoopHead? && !tpc.Tick? && !tpc.Exited?
  }

  /** With `k` past the end of the list the two passes touch no device. */
  predicate AtDevice(s: State) {
    Attending(s.tpc) && s.tpc.k < |s.devs|
  }

  predicate TimerCanMove(s: State)
    requires TimerInRange(s)
  {
    match s.tpc
    case CollectAsleep(_) => false
    case Exited => false
    case CollectWant(k) => k < |s.devs| ==> s.devs[k].eventLock.Free?
    case ReleaseWant(k) => k < |s.devs| ==> s.devs[k].timerLock.Free?
    case _ => true
  }

  /** What one timer step does to the device record it works on. */
  function TouchDevice(dev: Device, tpc: TimerPc): Device {
    match tpc
    case CollectWant(_) => dev.(eventLock := ByTimer)
    case CollectTest(_) => if !dev.done && !dev.fsh then dev.(eventLock := Free) else dev
    case CollectDrop(_) => dev.(eventLock := Free)
    case ReleaseWant(_) => dev.(timerLock := ByTimer)
    case ReleaseClear(_) => dev.(done := false)
    case ReleaseSignal(_) => if dev.pc == Asleep then dev.(pc := WantTimer) else dev
    case ReleaseDrop(_) => dev.(timerLock := Free)
    case _ => dev
  }

  /** Where the timer goes next. */
  function NextTimerPc(s: State): TimerPc
    requires TimerInRange(s) && TimerCanMove(s)
  {
    match s.tpc
    case LoopHead => if s.stop then Exited else CollectWant(0)
    case CollectWant(k) => if k == |s.devs| then Tick else CollectTest(k)
    case CollectTest(k) =>
      if !s.devs[k].done && !s.devs[k].fsh then CollectAsleep(k) else CollectDrop(k)
    case CollectDrop(k) => CollectWant(k + 1)
    case Tick => ReleaseWant(0)
    case ReleaseWant(k) =>
      if k < |s.devs| then ReleaseClear(k)
      else if s.fshCount == s.eventCount then Exited else LoopHead
    case ReleaseClear(k) => ReleaseSignal(k)
    case ReleaseSignal(k) => ReleaseDrop(k)
    case ReleaseDrop(k) => ReleaseWant(k + 1)
  }

  function TimerStep(s: State): State
    requires TimerInRange(s) && TimerCanMove(s)
  {
    var counts := s.tpc.CollectTest? && (s.devs[s.tpc.k].done || s.devs[s.tpc.k].fsh);
    State(
      if AtDevice(s) then s.devs[s.tpc.k := TouchDevice(s.devs[s.tpc.k], s.tpc)] else s.devs,
      NextTimerPc(s),
      if s.tpc.Tick? then s.time + 1 else s.time,
      if s.tpc.LoopHead? then 0
      else if counts && s.devs[s.tpc.k].fsh then s.fshCount + 1 else s.fshCount,
      if s.tpc.LoopHead? then 0 else if counts then s.eventCount + 1 else s.eventCount,
      s.stop)
  }

  predicate Enabled(s: State, a: Action) {
    && TimerInRange(s)
    && match a
       case DeviceMoves(d) => d < |s.devs| && DeviceCanMove(s.devs[d])
       case TimerMoves => TimerCanMove(s)
       case Enter(d) => d < |s.devs| && s.devs[d].pc == Busy
       case Detach(d) => d < |s.devs| && s.devs[d].pc == Busy
       case SpuriousDevice(d) => d < |s.devs| && s.devs[d].pc == Asleep
       case SpuriousTimer => s.tpc.CollectAsleep?
       case RequestStop => forall d :: 0 <= d < |s.devs| ==> s.devs[d].pc == Gone
  }

  function Apply(s: State, a: Action): State
    requires Enabled(s, a)
  {
    match a
    case DeviceMoves(d) => DeviceStep(s, d)
    case TimerMoves => TimerStep(s)
    case Enter(d) => s.(devs := s.devs[d := s.devs[d].(pc := WantEvent)])
    case Detach(d) => s.(devs := s.devs[d := s.devs[d].(pc := DetachWant)])
    case SpuriousDevice(d) => s.(devs := s.devs[d := s.devs[d].(pc := WantTimer)])
    case SpuriousTimer => s.(tpc := CollectWant(s.tpc.k))
    case RequestStop => s.(stop := true)
  }

  const FRESH_DEVICE := Device(Busy, false, false, Free, Free, 0)

  /** The state in which `start_timer` creates the timer thread, after n `attach_event` calls. */
  function Initial(n: nat): State {
    State(seq(n, i => FRESH_DEVICE), LoopHead, 0, 0, 0, false)
  }

  // ---------------------------------------------------------------- invariant

  /** The timer has counted device d in this round and has not released it yet. */
  predicate Collected(tpc: TimerPc, d: nat) {
    match tpc
    case LoopHead => false
    case Exited => false
    case Tick => true
    case CollectWant(k) => d < k
    case CollectTest(k) => d < k
    case CollectAsleep(k) => d < k
    case CollectDrop(k) => d <= k
    case ReleaseWant(k) => k <= d
    case ReleaseClear(k) => k <= d
    case ReleaseSignal(k) => k < d
    case ReleaseDrop(k) => k < d
  }

  predicate InReleasePass(tpc: TimerPc) {
    tpc.ReleaseWant? || tpc.ReleaseClear? || tpc.ReleaseSignal? || tpc.ReleaseDrop?
  }

  /** The clock has ticked but d's turn in the release pass has not come. */
  predicate Owed(tpc: TimerPc, d: nat) {
    InReleasePass(tpc) && Collected(tpc, d)
  }

  predicate HoldsEventLock(pc: DevPc) {
    match pc
    case MarkDone => true
    case SignalEvent => true
    case DropEvent => true
    case MarkFsh => true
    case DetachSignal => true
    case DetachDrop => true
    case _ => false
  }

  predicate HoldsTimerLock(pc: DevPc) {
    pc.TestDone? || pc.DropTimer?
  }

  /** The device has set `done` and not yet seen it cleared. */
  predicate MayBeDone(pc: DevPc) {
    pc.SignalEvent? || pc.DropEvent? || pc.WantTimer? || pc.TestDone? || pc.Asleep?
  }

  predicate Left(pc: DevPc) {
    pc.DetachSignal? || pc.DetachDrop? || pc.Gone?
  }

  predicate LocksMatch(dev: Device, tpc: TimerPc, d: nat) {
    && (dev.eventLock == ByDevice <==> HoldsEventLock(dev.pc))
    && (dev.eventLock == ByTimer <==> tpc == CollectTest(d) || tpc == CollectDrop(d))
    && (dev.timerLock == ByDevice <==> HoldsTimerLock(dev.pc))
    && (dev.timerLock == ByTimer <==>
        tpc == ReleaseClear(d) || tpc == ReleaseSignal(d) || tpc == ReleaseDrop(d))
  }

  predicate FlagsMatch(dev: Device, tpc: TimerPc, d: nat) {
    && (dev.fsh <==> Left(dev.pc))
    && (dev.done ==> MayBeDone(dev.pc))
    && (dev.pc.SignalEvent? || dev.pc.DropEvent? ==> dev.done && !Collected(tpc, d))
    && (Collected(tpc, d) ==> dev.done || dev.fsh)
  }

  /** Neither wait can miss its signal. */
  predicate SleepersWillBeWoken(dev: Device, tpc: TimerPc, d: nat) {
    && (dev.pc == Asleep ==> (dev.done <==> tpc != ReleaseSignal(d)))
    && (tpc == CollectAsleep(d) ==>
        (!dev.done && !dev.fsh) || Signals(dev.pc))
  }

  predicate ClockMatches(dev: Device, tpc: TimerPc, d: nat, time: nat) {
    if dev.fsh then dev.calls <= time
    else dev.calls + (if Owed(tpc, d) then 1 else 0) == time + (if dev.done then 1 else 0)
  }

  predicate DeviceOk(dev: Device, tpc: TimerPc, d: nat, time: nat) {
    && LocksMatch(dev, tpc, d)
    && FlagsMatch(dev, tpc, d)
    && SleepersWillBeWoken(dev, tpc, d)
    && ClockMatches(dev, tpc, d, time)
  }

  function CountFsh(devs: seq<Device>, n: nat): nat
    requires n <= |devs|
  {
    if n == 0 then 0 else CountFsh(devs, n - 1) + (if devs[n - 1].fsh then 1 else 0)
  }

  predicate AllFinished(s: State) {
    forall d :: 0 <= d < |s.devs| ==> s.devs[d].fsh
  }

  /** How many devices the collecting pass has counted. */
  function Counted(s: State): nat
    requires TimerInRange(s)
    ensures Counted(s) <= |s.devs|
  {
    match s.tpc
    case CollectWant(k) => k
    case CollectTest(k) => k
    case CollectAsleep(k) => k
    case CollectDrop(k) => k + 1
    case _ => |s.devs|
  }

  predicate TallyOk(s: State)
    requires TimerInRange(s)
  {
    match s.tpc
    case LoopHead => true
    case Exited => AllFinished(s)
    case ReleaseWant(_) => s.eventCount == |s.devs| && (s.fshCount == s.eventCount ==> AllFinished(s))
    case ReleaseClear(_) => s.eventCount == |s.devs| && (s.fshCount == s.eventCount ==> AllFinished(s))
    case ReleaseSignal(_) => s.eventCount == |s.devs| && (s.fshCount == s.eventCount ==> AllFinished(s))
    case ReleaseDrop(_) => s.eventCount == |s.devs| && (s.fshCount == s.eventCount ==> AllFinished(s))
    case _ => s.eventCount == Counted(s) && s.fshCount == CountFsh(s.devs, Counted(s))
  }

  predicate Inv(s: State) {
    && TimerInRange(s)
    && (forall d :: 0 <= d < |s.devs| ==> DeviceOk(s.devs[d], s.tpc, d, s.time))
    && TallyOk(s)
    && (s.stop ==> forall d :: 0 <= d < |s.devs| ==> s.devs[d].pc == Gone)
  }

  lemma {:induction false} CountFshFrame(a: seq<Device>, b: seq<Device>, n: nat)
    requires n <= |a| && n <= |b|
    requires forall d :: 0 <= d < n ==> a[d].fsh == b[d].fsh
    ensures CountFsh(a, n) == CountFsh(b, n)
  {
    if n > 0 { CountFshFrame(a, b, n - 1); }
  }

  lemma {:induction false} CountFshFull(devs: seq<Device>, n: nat)
    requires n <= |devs|
    ensures CountFsh(devs, n) <= n
    ensures CountFsh(devs, n) == n <==> forall d :: 0 <= d < n ==> devs[d].fsh
  {
    if n > 0 { CountFshFull(devs, n - 1); }
  }

  lemma InitialInv(n: nat)
    ensures Inv(Initial(n))
  {
  }

  // The device records are checked one at a time, away from the sequence that holds them.

  lemma MoverOk(dev: Device, tpc: TimerPc, d: nat, time: nat)
    requires DeviceOk(dev, tpc, d, time) && DeviceCanMove(dev)
    ensures DeviceOk(MoveDevice(dev), if Signals(dev.pc) then AfterEventSignal(tpc, d) else tpc, d, time)
  {
  }

  lemma BystanderOk(dev: Device, tpc: TimerPc, e: nat, time: nat, d: nat)
    requires DeviceOk(dev, tpc, e, time) && e != d
    ensures DeviceOk(dev, AfterEventSignal(tpc, d), e, time)
  {
  }

  lemma TouchedOk(dev: Device, tpc: TimerPc, next: TimerPc, time: nat)
    requires Attending(tpc) && DeviceOk(dev, tpc, tpc.k, time)
    requires match tpc
      case CollectWant(k) => dev.eventLock.Free? && next == CollectTest(k)
      case CollectTest(k) => next == if !dev.done && !dev.fsh then CollectAsleep(k) else CollectDrop(k)
      case CollectDrop(k) => next == CollectWant(k + 1)
      case ReleaseWant(k) => dev.timerLock.Free? && next == ReleaseClear(k)
      case ReleaseClear(k) => next == ReleaseSignal(k)
      case ReleaseSignal(k) => next == ReleaseDrop(k)
      case ReleaseDrop(k) => next == ReleaseWant(k + 1)
      case _ => false
    ensures DeviceOk(TouchDevice(dev, tpc), next, tpc.k, time)
  {
  }

  lemma UntouchedOk(s: State, e: nat)
    requires Inv(s) && TimerCanMove(s) && e < |s.devs| && (Attending(s.tpc) ==> e != s.tpc.k)
    ensures DeviceOk(s.devs[e], NextTimerPc(s), e, TimerStep(s).time)
  {
    assert DeviceOk(s.devs[e], s.tpc, e, s.time);
  }

  /** Only a device the timer has not counted yet can finish. */
  lemma MoverFsh(dev: Device, tpc: TimerPc, d: nat, time: nat)
    requires DeviceOk(dev, tpc, d, time) && DeviceCanMove(dev)
    ensures Collected(tpc, d) || dev.fsh ==> MoveDevice(dev).fsh == dev.fsh
  {
  }

  lemma DeviceStepInv(s: State, d: nat)
    requires Inv(s) && d < |s.devs| && DeviceCanMove(s.devs[d])
    ensures Inv(DeviceStep(s, d))
  {
    hide DeviceOk;
    var t := DeviceStep(s, d);
    assert DeviceOk(s.devs[d], s.tpc, d, s.time);
    MoverOk(s.devs[d], s.tpc, d, s.time);
    MoverFsh(s.devs[d], s.tpc, d, s.time);
    forall e | 0 <= e < |t.devs| && e != d ensures DeviceOk(t.devs[e], t.tpc, e, t.time) {
      assert DeviceOk(s.devs[e], s.tpc, e, s.time);
      BystanderOk(s.devs[e], s.tpc, e, s.time, d);
    }
    if t.devs[d].fsh == s.devs[d].fsh || Counted(s) <= d {
      CountFshFrame(s.devs, t.devs, Counted(s));
    }
  }

  lemma TallyFrame(s: State, t: State)
    requires TimerInRange(s) && TallyOk(s)
    requires |t.devs| == |s.devs| && t.tpc == s.tpc && t.fshCount == s.fshCount && t.eventCount == s.eventCount
    requires forall d :: 0 <= d < |s.devs| ==> s.devs[d].fsh == t.devs[d].fsh
    ensures TimerInRange(t) && TallyOk(t)
  {
    CountFshFrame(s.devs, t.devs, Counted(s));
  }

  lemma StopMeansFinished(s: State)
    requires Inv(s) && s.stop
    ensures AllFinished(s)
  {
    forall d | 0 <= d < |s.devs| ensures s.devs[d].fsh {
      assert DeviceOk(s.devs[d], s.tpc, d, s.time);
    }
  }

  lemma TimerKeepsFsh(s: State, d: nat)
    requires TimerInRange(s) && TimerCanMove(s) && d < |s.devs|
    ensures TimerStep(s).devs[d].fsh == s.devs[d].fsh
  {
    if AtDevice(s) { assert TouchDevice(s.devs[s.tpc.k], s.tpc).fsh == s.devs[s.tpc.k].fsh; }
  }

  /** The counters after a timer step, while the devices are still looked at as before it. */
  lemma TimerCounts(s: State)
    requires TimerInRange(s) && TallyOk(s) && TimerCanMove(s) && (s.stop ==> AllFinished(s))
    ensures var u := TimerStep(s).(devs := s.devs); TimerInRange(u) && TallyOk(u)
  {
    CountFshFull(s.devs, |s.devs|);
  }

  lemma TimerTallyOk(s: State)
    requires TimerInRange(s) && TallyOk(s) && TimerCanMove(s) && (s.stop ==> AllFinished(s))
    ensures TimerInRange(TimerStep(s)) && TallyOk(TimerStep(s))
  {
    hide TallyOk, TimerCanMove, AllFinished;
    var t := TimerStep(s);
    TimerCounts(s);
    forall d | 0 <= d < |s.devs| ensures s.devs[d].fsh == t.devs[d].fsh {
      TimerKeepsFsh(s, d);
    }
    TallyFrame(t.(devs := s.devs), t);
  }

  lemma TimerStepInv(s: State)
    requires Inv(s) && TimerCanMove(s)
    ensures Inv(TimerStep(s))
  {
    var t := TimerStep(s);
    if s.stop { StopMeansFinished(s); }
    TimerTallyOk(s);
    forall e | 0 <= e < |t.devs| ensures DeviceOk(t.devs[e], t.tpc, e, t.time) {
      assert DeviceOk(s.devs[e], s.tpc, e, s.time);
      if AtDevice(s) && e == s.tpc.k {
        TouchedOk(s.devs[e], s.tpc, t.tpc, s.time);
      } else {
        UntouchedOk(s, e);
      }
    }
  }

  /** `Enter`, `Detach` and a spurious wake-up change one record's pc only. */
  lemma RedirectInv(s: State, d: nat, pc: DevPc)
    requires Inv(s) && d < |s.devs|
    requires (s.devs[d].pc.Busy? && (pc.WantEvent? || pc.DetachWant?)) || (s.devs[d].pc.Asleep? && pc.WantTimer?)
    ensures Inv(s.(devs := s.devs[d := s.devs[d].(pc := pc)]))
  {
    var t := s.(devs := s.devs[d := s.devs[d].(pc := pc)]);
    assert DeviceOk(s.devs[d], s.tpc, d, s.time);
    forall e | 0 <= e < |t.devs| && e != d ensures DeviceOk(t.devs[e], t.tpc, e, t.time) {
      assert DeviceOk(s.devs[e], s.tpc, e, s.time);
    }
    TallyFrame(s, t);
  }

  lemma SpuriousTimerInv(s: State)
    requires Inv(s) && s.tpc.CollectAsleep?
    ensures Inv(s.(tpc := CollectWant(s.tpc.k)))
  {
    var t := s.(tpc := CollectWant(s.tpc.k));
    forall e | 0 <= e < |t.devs| ensures DeviceOk(t.devs[e], t.tpc, e, t.time) {
      assert DeviceOk(s.devs[e], s.tpc, e, s.time);
    }
  }

  lemma StepInv(s: State, a: Action)
    requires Inv(s) && Enabled(s, a)
    ensures Inv(Apply(s, a)) && |Apply(s, a).devs| == |s.devs|
  {
    match a
    case DeviceMoves(d) => DeviceStepInv(s, d);
    case TimerMoves => TimerStepInv(s);
    case Enter(d) => RedirectInv(s, d, WantEvent);
    case Detach(d) => RedirectInv(s, d, DetachWant);
    case SpuriousDevice(d) => RedirectInv(s, d, WantTimer);
    case SpuriousTimer => SpuriousTimerInv(s);
    case RequestStop =>
  }
}
