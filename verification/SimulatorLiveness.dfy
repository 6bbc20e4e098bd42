/** The simulator makes progress: within one clock slot all threads together take boundedly many
    steps, so the clock goes on ticking until every thread has ended. */
module SimulatorLiveness {
  import opened Arithmetic
  import Clock = Barrier
  import BL = BarrierLiveness
  import BT = BarrierTheorems
  import opened Scheduler
  import opened Simulator
  import SI = SimulatorInv
  import SC = SimulatorClock
  import ST = SimulatorTheorems
  import SS = SimulatorSlots

  /** How many steps the thread of device d is from one that ends its slot, at the most. */
  function ThreadRank(s: Sys, d: nat): nat {
    if d == LOADER_DEVICE then (if s.ld.pc.Await? then 1 else 0)
    else if d <= |s.cpus| then SS.StepsToGo(s.cpus[|s.cpus| - d].pc)
    else 0
  }

  /** What one thread may still do before the next tick, when its thread has rank r outside the
      barrier; a device whose release is owed will go through a whole slot once more. */
  function Weight(dev: Clock.Device, owed: bool, r: nat): nat {
    (if owed then 20 else 0) +
    match dev.pc
    case Gone => 0
    case DetachDrop => 1
    case DetachSignal => 2
    case MarkFsh => 3
    case DetachWant => 4
    case Busy => 16 + r
    case WantEvent => 15
    case MarkDone => 14
    case SignalEvent => 13
    case DropEvent => 12
    case WantTimer => if dev.done then 11 else 22
    case TestDone => if dev.done then 10 else 21
    case Asleep => if dev.done then 9 else 23
    case DropTimer => 20
  }

  function DeviceWeight(s: Sys, d: nat): nat
    requires d < |s.clock.devs|
  {
    Weight(s.clock.devs[d], Clock.Owed(s.clock.tpc, d), ThreadRank(s, d))
  }

  function Weights(s: Sys): (ws: seq<nat>)
    ensures |ws| == |s.clock.devs| && forall d :: 0 <= d < |ws| ==> ws[d] == DeviceWeight(s, d)
  {
    seq(|s.clock.devs|, d requires 0 <= d < |s.clock.devs| => DeviceWeight(s, d))
  }

  function Sum(ws: seq<nat>): nat {
    if ws == [] then 0 else Sum(ws[..|ws| - 1]) + ws[|ws| - 1]
  }

  lemma {:induction false} SumGrows(vs: seq<nat>, ws: seq<nat>)
    requires |vs| == |ws| && forall d :: 0 <= d < |ws| ==> vs[d] <= ws[d]
    ensures Sum(vs) <= Sum(ws)
    ensures (exists d :: 0 <= d < |ws| && vs[d] < ws[d]) ==> Sum(vs) < Sum(ws)
  {
    if ws != [] { SumGrows(vs[..|vs| - 1], ws[..|ws| - 1]); }
  }

  /** Steps of the timer to its next tick, if it never sleeps. */
  function TimerToTick(clock: Clock.State): int {
    var n := |clock.devs|;
    match clock.tpc
    case Exited => 0
    case Tick => 0
    case CollectWant(k) => 1 + 4 * (n - k)
    case CollectTest(k) => 4 * (n - k)
    case CollectAsleep(k) => 4 * (n - k) - 1
    case CollectDrop(k) => 4 * (n - k) - 1
    case LoopHead => 4 * n + 2
    case _ => 4 * n + 2 + BL.ReleaseLeft(clock.tpc, n)
  }

  lemma TimerToTickBounds(clock: Clock.State)
    requires Clock.TimerInRange(clock)
    ensures 0 <= TimerToTick(clock) < 8 * |clock.devs| + 4
  {
  }

  // ---------------------------------------------------------------- one step

  ghost predicate Smaller(t: Sys, s: Sys) {
    && |t.clock.devs| == |s.clock.devs|
    && (forall d :: 0 <= d < |s.clock.devs| ==> DeviceWeight(t, d) <= DeviceWeight(s, d))
    && (TimerToTick(t.clock) < TimerToTick(s.clock)
        || exists d :: 0 <= d < |s.clock.devs| && DeviceWeight(t, d) < DeviceWeight(s, d))
  }

  lemma MoverWeight(dev: Clock.Device, tpc: Clock.TimerPc, d: nat, time: nat, owed: bool, r: nat)
    requires Clock.DeviceOk(dev, tpc, d, time) && Clock.DeviceCanMove(dev) && r <= 3
    ensures Weight(Clock.MoveDevice(dev), owed, r) < Weight(dev, owed, r)
  {
  }

  lemma SameOwed(tpc: Clock.TimerPc, d: nat, e: nat)
    ensures Clock.Owed(Clock.AfterEventSignal(tpc, d), e) == Clock.Owed(tpc, e)
  {
  }

  lemma RankSmall(s: Sys, d: nat)
    ensures ThreadRank(s, d) <= 3
  {
  }

  lemma DeviceMoveCounts(cfg: Config, s: Sys, d: nat)
    requires Clock.Inv(s.clock) && Enabled(cfg, s, ClockMoves(Clock.DeviceMoves(d)))
    ensures Smaller(Apply(cfg, s, ClockMoves(Clock.DeviceMoves(d))), s)
  {
    hide Weight, Clock.MoveDevice, Clock.DeviceOk;
    var t := Apply(cfg, s, ClockMoves(Clock.DeviceMoves(d)));
    assert Clock.DeviceOk(s.clock.devs[d], s.clock.tpc, d, s.clock.time);
    RankSmall(s, d);
    MoverWeight(s.clock.devs[d], s.clock.tpc, d, s.clock.time, Clock.Owed(s.clock.tpc, d), ThreadRank(s, d));
    forall e: nat | e < |s.clock.devs| ensures Clock.Owed(t.clock.tpc, e) == Clock.Owed(s.clock.tpc, e) {
      SameOwed(s.clock.tpc, d, e);
    }
    assert DeviceWeight(t, d) < DeviceWeight(s, d);
  }

  lemma TouchedWeight(dev: Clock.Device, tpc: Clock.TimerPc, time: nat, owed: bool, r: nat)
    requires Clock.Attending(tpc) && Clock.DeviceOk(dev, tpc, tpc.k, time) && r <= 3
    requires owed ==> Clock.Owed(tpc, tpc.k) && !tpc.ReleaseClear?
    ensures Weight(Clock.TouchDevice(dev, tpc), owed, r) <= Weight(dev, Clock.Owed(tpc, tpc.k), r)
  {
  }

  /** As the timer goes on no release comes to be owed, except by the tick. */
  lemma OwedFades(clock: Clock.State, e: nat)
    requires Clock.TimerInRange(clock) && Clock.TimerCanMove(clock) && !clock.tpc.Tick?
    ensures var next := Clock.NextTimerPc(clock);
      Clock.Owed(next, e) ==> Clock.Owed(clock.tpc, e) && (clock.tpc.ReleaseClear? ==> clock.tpc.k != e)
  {
  }

  lemma TimerMoveCounts(cfg: Config, s: Sys)
    requires Clock.Inv(s.clock) && Enabled(cfg, s, ClockMoves(Clock.TimerMoves)) && !s.clock.tpc.Tick?
    ensures Smaller(Apply(cfg, s, ClockMoves(Clock.TimerMoves)), s)
  {
    hide Weight, Clock.TouchDevice, Clock.DeviceOk, Clock.Owed;
    var t := Apply(cfg, s, ClockMoves(Clock.TimerMoves));
    forall e: nat | e < |s.clock.devs| ensures DeviceWeight(t, e) <= DeviceWeight(s, e) {
      OwedFades(s.clock, e);
      RankSmall(s, e);
      assert Clock.DeviceOk(s.clock.devs[e], s.clock.tpc, e, s.clock.time);
      if Clock.AtDevice(s.clock) && e == s.clock.tpc.k {
        TouchedWeight(s.clock.devs[e], s.clock.tpc, s.clock.time, Clock.Owed(t.clock.tpc, e), ThreadRank(s, e));
      } else {
        LessOwed(s.clock.devs[e], Clock.Owed(t.clock.tpc, e), Clock.Owed(s.clock.tpc, e), ThreadRank(s, e));
      }
    }
    TimerSteps(s.clock);
  }

  lemma LessOwed(dev: Clock.Device, next: bool, now: bool, r: nat)
    requires next ==> now
    ensures Weight(dev, next, r) <= Weight(dev, now, r)
  {
  }

  lemma TimerSteps(clock: Clock.State)
    requires Clock.TimerInRange(clock) && Clock.TimerCanMove(clock) && !clock.tpc.Tick?
    ensures TimerToTick(Clock.TimerStep(clock)) < TimerToTick(clock)
  {
    hide Clock.TouchDevice;
  }

  /** A call made by thread d, or no call at all. */
  lemma CallWeight(clock: Clock.State, d: nat, next: Clock.State, r: nat, r': nat)
    requires d < |clock.devs| && clock.devs[d].pc.Busy? && r' <= 3
    requires (next == clock && r' < r)
      || (Clock.Enabled(clock, Clock.Enter(d)) && next == Clock.Apply(clock, Clock.Enter(d)))
      || (Clock.Enabled(clock, Clock.Detach(d)) && next == Clock.Apply(clock, Clock.Detach(d)))
    ensures |next.devs| == |clock.devs| && next.tpc == clock.tpc
    ensures forall e :: 0 <= e < |clock.devs| && e != d ==> next.devs[e] == clock.devs[e]
    ensures Weight(next.devs[d], Clock.Owed(next.tpc, d), r') < Weight(clock.devs[d], Clock.Owed(clock.tpc, d), r)
  {
  }

  lemma CpuCalls(cfg: Config, s: Sys, c: nat)
    requires Enabled(cfg, s, CpuMoves(c)) && s.ready.currentPrio == 0
    ensures var t, d := Apply(cfg, s, CpuMoves(c)), CpuDevice(s, c);
      && |t.cpus| == |s.cpus| && t.ld == s.ld
      && ((t.clock == s.clock && SS.StepsToGo(t.cpus[c].pc) < SS.StepsToGo(s.cpus[c].pc))
          || (Clock.Enabled(s.clock, Clock.Enter(d)) && t.clock == Clock.Apply(s.clock, Clock.Enter(d)))
          || (Clock.Enabled(s.clock, Clock.Detach(d)) && t.clock == Clock.Apply(s.clock, Clock.Detach(d))))
  {
    hide GetMlq, PutMlq, Ran, Clock.Apply;
    ScanIsStrictPriority(s.ready);
    var d := CpuDevice(s, c);
    assert Clock.Enabled(s.clock, Clock.Enter(d)) && Clock.Enabled(s.clock, Clock.Detach(d));
  }

  lemma CpuMoveCounts(cfg: Config, s: Sys, c: nat)
    requires Enabled(cfg, s, CpuMoves(c)) && s.ready.currentPrio == 0
    ensures Smaller(Apply(cfg, s, CpuMoves(c)), s)
  {
    hide CpuStep, Weight, Clock.Owed, Clock.Apply;
    var t, d := Apply(cfg, s, CpuMoves(c)), CpuDevice(s, c);
    CpuCalls(cfg, s, c);
    RankSmall(t, d);
    CallWeight(s.clock, d, t.clock, ThreadRank(s, d), ThreadRank(t, d));
    forall b: nat | b < |s.cpus| && b != c ensures t.cpus[b] == s.cpus[b] {
      SS.OthersKeepCpu(cfg, s, CpuMoves(c), b);
    }
    assert DeviceWeight(t, d) < DeviceWeight(s, d);
  }

  lemma LoaderCalls(cfg: Config, s: Sys)
    requires Enabled(cfg, s, LoaderMoves)
    ensures var t := Apply(cfg, s, LoaderMoves);
      && t.cpus == s.cpus
      && ((t.clock == s.clock && s.ld.pc.Await? && t.ld.pc.AddProc?)
          || (Clock.Enabled(s.clock, Clock.Enter(LOADER_DEVICE))
              && t.clock == Clock.Apply(s.clock, Clock.Enter(LOADER_DEVICE)))
          || (Clock.Enabled(s.clock, Clock.Detach(LOADER_DEVICE))
              && t.clock == Clock.Apply(s.clock, Clock.Detach(LOADER_DEVICE))))
  {
    hide PutMlq, Clock.Apply;
    assert Clock.Enabled(s.clock, Clock.Enter(LOADER_DEVICE)) && Clock.Enabled(s.clock, Clock.Detach(LOADER_DEVICE));
  }

  lemma LoaderMoveCounts(cfg: Config, s: Sys)
    requires Enabled(cfg, s, LoaderMoves)
    ensures Smaller(Apply(cfg, s, LoaderMoves), s)
  {
    hide LoaderStep, Weight, Clock.Owed, Clock.Apply;
    var t := Apply(cfg, s, LoaderMoves);
    LoaderCalls(cfg, s);
    CallWeight(s.clock, LOADER_DEVICE, t.clock, ThreadRank(s, LOADER_DEVICE), ThreadRank(t, LOADER_DEVICE));
    assert DeviceWeight(t, LOADER_DEVICE) < DeviceWeight(s, LOADER_DEVICE);
  }

  /** Every step of any thread but the tick leaves less to do in this slot. */
  lemma EveryStepCounts(cfg: Config, s: Sys, e: Event)
    requires Clock.Inv(s.clock) && s.ready.currentPrio == 0 && Enabled(cfg, s, e) && ST.RealStep(e)
    requires Apply(cfg, s, e).clock.time == s.clock.time
    ensures Smaller(Apply(cfg, s, e), s)
  {
    hide Smaller, CpuStep, LoaderStep, Clock.Inv;
    match e
    case CpuMoves(c) => CpuMoveCounts(cfg, s, c);
    case LoaderMoves => LoaderMoveCounts(cfg, s);
    case ClockMoves(a) =>
      if a.TimerMoves? { TimerMoveCounts(cfg, s); } else { DeviceMoveCounts(cfg, s, a.d); }
  }

  // ---------------------------------------------------------------- the bound

  ghost function Bound(s: Sys): int {
    Sum(Weights(s)) * (8 * |s.clock.devs| + 4) + TimerToTick(s.clock)
  }

  lemma BoundFalls(s: Sys, t: Sys)
    requires Clock.TimerInRange(s.clock) && Clock.TimerInRange(t.clock) && Smaller(t, s)
    ensures 0 <= Bound(t) < Bound(s)
  {
    hide Sum, TimerToTick, DeviceWeight;
    TimerToTickBounds(s.clock);
    TimerToTickBounds(t.clock);
    var vs, ws := Weights(t), Weights(s);
    SumGrows(vs, ws);
    if d :| 0 <= d < |s.clock.devs| && DeviceWeight(t, d) < DeviceWeight(s, d) { assert vs[d] < ws[d]; }
    var m := 8 * |s.clock.devs| + 4;
    MulMono(Sum(vs) + 1, Sum(ws), m);
    MulMono(Sum(vs), Sum(ws), m);
    MulSucc(Sum(vs), m);
  }

  /** Over every run: from state i on, as long as the clock shows the same slot, all threads
      together take at most Bound steps.  (Wake-ups that nobody signalled are not their steps.) */
  lemma {:induction false} SlotIsBounded(cfg: Config, run: seq<Sys>, i: nat, j: nat)
    requires IsRun(cfg, run) && i <= j < |run| && run[j].clock.time == run[i].clock.time
    requires forall k :: i <= k < j ==> RealNext(cfg, run[k], run[k + 1])
    ensures j - i <= Bound(run[i])
    decreases j - i
  {
    hide Apply, Enabled, Clock.Inv, Bound, Smaller;
    SS.RunClock(cfg, run, i);
    ClockInRange(run[i].clock);
    if i < j {
      assert RealNext(cfg, run[i], run[i + 1]);
      var e :| ST.RealStep(e) && Enabled(cfg, run[i], e) && run[i + 1] == Apply(cfg, run[i], e);
      SS.SlotsGrow(cfg, run, i, i + 1, LOADER_DEVICE);
      SS.SlotsGrow(cfg, run, i + 1, j, LOADER_DEVICE);
      EveryStepCounts(cfg, run[i], e);
      SS.RunClock(cfg, run, i + 1);
      ClockInRange(run[i + 1].clock);
      BoundFalls(run[i], run[i + 1]);
      SlotIsBounded(cfg, run, i + 1, j);
    } else {
      BoundIsNat(run[i]);
    }
  }

  ghost predicate RealNext(cfg: Config, s: Sys, t: Sys) {
    exists e :: ST.RealStep(e) && Enabled(cfg, s, e) && t == Apply(cfg, s, e)
  }

  lemma ClockInRange(clock: Clock.State)
    requires Clock.Inv(clock)
    ensures Clock.TimerInRange(clock)
  {
  }

  lemma BoundIsNat(s: Sys)
    requires Clock.TimerInRange(s.clock)
    ensures Bound(s) >= 0
  {
    hide Sum, TimerToTick;
    TimerToTickBounds(s.clock);
    MulMono(0, Sum(Weights(s)), 8 * |s.clock.devs| + 4);
  }
}
