/** The barrier makes progress: without new calls and without wake-ups that nobody signalled, its
    threads come to rest after a bounded number of steps, and then the clock waits for a thread
    that is busy, or has ended. */
module BarrierLiveness {
  import opened Arithmetic
  import opened Barrier
  import BT = BarrierTheorems

  /** A step of a thread's own code inside the barrier. */
  predicate RealStep(a: Action) {
    a.DeviceMoves? || a.TimerMoves?
  }

  // ---------------------------------------------------------------- what the devices still have to do

  function DevWork(dev: Device): nat {
    match dev.pc
    case Busy => 0
    case Gone => 0
    case WantEvent => 11
    case MarkDone => 10
    case SignalEvent => 9
    case DropEvent => 8
    case WantTimer => if dev.done then 7 else 3
    case TestDone => if dev.done then 6 else 2
    case Asleep => if dev.done then 5 else 4
    case DropTimer => 1
    case DetachWant => 4
    case MarkFsh => 3
    case DetachSignal => 2
    case DetachDrop => 1
  }

  function Work(devs: seq<Device>): nat {
    if devs == [] then 0 else Work(devs[..|devs| - 1]) + DevWork(devs[|devs| - 1])
  }

  lemma {:induction false} WorkUpdate(devs: seq<Device>, d: nat, dev: Device)
    requires d < |devs|
    ensures Work(devs[d := dev]) + DevWork(devs[d]) == Work(devs) + DevWork(dev)
  {
    hide DevWork;
    var init := devs[..|devs| - 1];
    if d < |init| {
      WorkUpdate(init, d, dev);
      assert devs[d := dev][..|devs| - 1] == init[d := dev];
    } else {
      assert devs[d := dev][..|devs| - 1] == init;
    }
  }

  lemma MoverWork(dev: Device, tpc: TimerPc, d: nat, time: nat)
    requires DeviceOk(dev, tpc, d, time) && DeviceCanMove(dev)
    ensures DevWork(MoveDevice(dev)) < DevWork(dev)
  {
  }

  /** The timer gives no device more to do, and clearing `done` takes some away. */
  lemma TouchedWork(dev: Device, tpc: TimerPc, time: nat)
    requires Attending(tpc) && DeviceOk(dev, tpc, tpc.k, time)
    ensures DevWork(TouchDevice(dev, tpc)) <= DevWork(dev)
    ensures tpc.ReleaseClear? && dev.done ==> DevWork(TouchDevice(dev, tpc)) < DevWork(dev)
  {
  }

  // ---------------------------------------------------------------- what the timer still has to do

  /** Steps to the end of the release pass over n devices. */
  function ReleaseLeft(tpc: TimerPc, n: nat): int {
    match tpc
    case ReleaseWant(k) => 4 * (n - k) + 1
    case ReleaseClear(k) => 4 * (n - k)
    case ReleaseSignal(k) => 4 * (n - k) - 1
    case ReleaseDrop(k) => 4 * (n - k) - 2
    case _ => 0
  }

  /** The rest of this release pass will clear a device's `done`, or end the timer. */
  ghost predicate Decisive(s: State) {
    || s.fshCount == s.eventCount
    || exists d :: 0 <= d < |s.devs| && Collected(s.tpc, d) && s.devs[d].done
  }

  /** A bound on the timer's steps until it clears some `done`, sleeps or ends.  A release pass that
      has nothing more to clear comes before the next round, any other after it. */
  ghost function TimerLeft(s: State): int {
    var n := |s.devs|;
    match s.tpc
    case Exited => 0
    case Tick => 4 * n + 2
    case CollectWant(k) => 4 * n + 3 + 4 * (n - k)
    case CollectTest(k) => 4 * n + 2 + 4 * (n - k)
    case CollectAsleep(k) => 4 * n + 1 + 4 * (n - k)
    case CollectDrop(k) => 4 * n + 1 + 4 * (n - k)
    case LoopHead => 8 * n + 4
    case _ => ReleaseLeft(s.tpc, n) + (if Decisive(s) then 0 else 8 * n + 4)
  }

  lemma TimerLeftBounds(s: State)
    requires TimerInRange(s)
    ensures 0 <= TimerLeft(s) < 12 * |s.devs| + 6
  {
  }

  /** At the tick either all devices are finished, or some device waits for its release. */
  lemma TickIsDecisive(s: State)
    requires Inv(s) && s.tpc.Tick?
    ensures Decisive(s) && Decisive(TimerStep(s))
  {
    hide DeviceOk;
    CountFshFull(s.devs, |s.devs|);
    if s.fshCount != s.eventCount {
      var d :| 0 <= d < |s.devs| && !s.devs[d].fsh;
      TickedIsDone(s, d);
      assert Collected(TimerStep(s).tpc, d) && TimerStep(s).devs[d].done;
    }
  }

  lemma TickedIsDone(s: State, d: nat)
    requires Inv(s) && s.tpc.Tick? && d < |s.devs| && !s.devs[d].fsh
    ensures s.devs[d].done
  {
    assert DeviceOk(s.devs[d], s.tpc, d, s.time);
  }

  /** Only clearing a `done` can end a pass's decisiveness. */
  lemma StaysDecisive(s: State)
    requires Inv(s) && TimerCanMove(s) && InReleasePass(s.tpc) && InReleasePass(TimerStep(s).tpc) && Decisive(s)
    requires s.tpc.ReleaseClear? ==> !s.devs[s.tpc.k].done
    ensures Decisive(TimerStep(s))
  {
    hide DeviceOk;
    var t := TimerStep(s);
    if s.fshCount != s.eventCount {
      var d :| 0 <= d < |s.devs| && Collected(s.tpc, d) && s.devs[d].done;
      assert Collected(t.tpc, d) && t.devs[d].done;
    }
  }

  lemma EndsDecisive(s: State)
    requires Inv(s) && TimerCanMove(s) && InReleasePass(s.tpc) && !InReleasePass(TimerStep(s).tpc) && Decisive(s)
    ensures TimerStep(s).tpc.Exited?
  {
  }

  lemma TimerWork(s: State)
    requires Inv(s) && TimerCanMove(s)
    ensures var t := TimerStep(s);
      && |t.devs| == |s.devs| && Work(t.devs) <= Work(s.devs)
      && (Work(t.devs) == Work(s.devs) ==> s.tpc.ReleaseClear? ==> !s.devs[s.tpc.k].done)
  {
    hide DevWork, TouchDevice;
    if AtDevice(s) {
      var k := s.tpc.k;
      assert DeviceOk(s.devs[k], s.tpc, k, s.time);
      TouchedWork(s.devs[k], s.tpc, s.time);
      WorkUpdate(s.devs, k, TouchDevice(s.devs[k], s.tpc));
    }
  }

  lemma TimerAdvances(s: State)
    requires Inv(s) && TimerCanMove(s)
    requires s.tpc.ReleaseClear? ==> !s.devs[s.tpc.k].done
    ensures TimerLeft(TimerStep(s)) < TimerLeft(s)
  {
    hide Decisive, DeviceOk, TouchDevice;
    var t := TimerStep(s);
    if s.tpc.Tick? { TickIsDecisive(s); }
    if InReleasePass(s.tpc) && Decisive(s) {
      if InReleasePass(t.tpc) { StaysDecisive(s); } else { EndsDecisive(s); }
    }
  }

  // ---------------------------------------------------------------- every step counts

  ghost predicate Smaller(t: State, s: State) {
    Work(t.devs) < Work(s.devs) || (Work(t.devs) == Work(s.devs) && TimerLeft(t) < TimerLeft(s))
  }

  /** Every step inside the barrier leaves less to do for the devices, or as much for them and less
      for the timer. */
  lemma EveryStepCounts(s: State, a: Action)
    requires Inv(s) && Enabled(s, a) && RealStep(a)
    ensures Smaller(Apply(s, a), s) && |Apply(s, a).devs| == |s.devs|
  {
    hide DevWork, TimerLeft, DeviceOk;
    match a
    case DeviceMoves(d) =>
      assert DeviceOk(s.devs[d], s.tpc, d, s.time);
      MoverWork(s.devs[d], s.tpc, d, s.time);
      WorkUpdate(s.devs, d, MoveDevice(s.devs[d]));
    case TimerMoves =>
      TimerWork(s);
      if Work(TimerStep(s).devs) == Work(s.devs) { TimerAdvances(s); }
  }

  /** The bound: for each unit of the devices' work the timer may go once through its positions. */
  ghost function Bound(s: State): int {
    Work(s.devs) * (12 * |s.devs| + 6) + TimerLeft(s)
  }

  lemma BoundFalls(s: State, t: State)
    requires TimerInRange(s) && TimerInRange(t) && Smaller(t, s) && |t.devs| == |s.devs|
    ensures 0 <= Bound(t) < Bound(s)
  {
    hide Work, TimerLeft;
    TimerLeftBounds(s); TimerLeftBounds(t);
    var m := 12 * |s.devs| + 6;
    MulMono(Work(t.devs) + 1, Work(s.devs), m);
    MulSucc(Work(t.devs), m);
  }

  // ---------------------------------------------------------------- coming to rest

  /** The steps can be taken one after the other. */
  predicate CanTake(s: State, steps: seq<Action>)
    decreases |steps|
  {
    steps == [] || (Enabled(s, steps[0]) && CanTake(Apply(s, steps[0]), steps[1..]))
  }

  lemma {:induction false} ComesToRest(s: State, steps: seq<Action>)
    requires Inv(s) && CanTake(s, steps) && forall k :: 0 <= k < |steps| ==> RealStep(steps[k])
    ensures |steps| <= Bound(s)
    decreases |steps|
  {
    hide Enabled, Apply, Inv, Bound, Smaller;
    InRange(s);
    if steps == [] {
      BoundIsNat(s);
    } else {
      var t := Apply(s, steps[0]);
      EveryStepCounts(s, steps[0]);
      StepInv(s, steps[0]);
      InRange(t);
      BoundFalls(s, t);
      ComesToRest(t, steps[1..]);
    }
  }

  lemma InRange(s: State)
    requires Inv(s)
    ensures TimerInRange(s)
  {
  }

  lemma BoundIsNat(s: State)
    requires TimerInRange(s)
    ensures Bound(s) >= 0
  {
    hide Work, TimerLeft;
    TimerLeftBounds(s);
    MulMono(0, Work(s.devs), 12 * |s.devs| + 6);
  }

  /** Nobody inside the barrier can move. */
  ghost predicate AtRest(s: State) {
    forall a :: RealStep(a) ==> !Enabled(s, a)
  }

  /** At rest the timer has ended, or sleeps on a device whose thread is busy; every other thread is
      busy, gone, or asleep with its call pending. */
  lemma RestMeansWaiting(s: State)
    requires Inv(s) && AtRest(s)
    ensures s.tpc.Exited? || (s.tpc.CollectAsleep? && s.devs[s.tpc.k].pc.Busy?)
    ensures forall d :: 0 <= d < |s.devs| ==>
      s.devs[d].pc.Busy? || s.devs[d].pc.Gone? || (s.devs[d].pc.Asleep? && s.devs[d].done && !s.tpc.Exited?)
  {
    BT.SomeoneCanMove(s);
    assert !Enabled(s, TimerMoves);
    forall d: nat | d < |s.devs|
      ensures !DeviceCanMove(s.devs[d])
      ensures DeviceOk(s.devs[d], s.tpc, d, s.time)
    {
      assert !Enabled(s, DeviceMoves(d));
    }
  }

  /** Over every run: from any state only boundedly many steps can be taken inside the barrier
      before some thread calls it, and when none is left the clock waits for a busy thread. */
  lemma RunComesToRest(run: seq<State>, i: nat, steps: seq<Action>)
    requires BT.IsRun(run) && i < |run| && CanTake(run[i], steps)
    requires forall k :: 0 <= k < |steps| ==> RealStep(steps[k])
    ensures |steps| <= Bound(run[i])
    ensures AtRest(run[i]) && !run[i].tpc.Exited? ==>
      run[i].tpc.CollectAsleep? && run[i].tpc.k < |run[i].devs| && run[i].devs[run[i].tpc.k].pc.Busy?
  {
    hide Inv, AtRest, CanTake;
    BT.RunInv(run, i);
    ComesToRest(run[i], steps);
    InRange(run[i]);
    if AtRest(run[i]) { RestMeansWaiting(run[i]); }
  }
}
