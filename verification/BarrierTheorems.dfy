/** What the barrier guarantees in every state of every run, for any number of devices,
    any schedule and any spurious wake-ups. */
module BarrierTheorems {
  import opened Barrier

  ghost predicate Next(s: State, t: State) {
    exists a :: Enabled(s, a) && t == Apply(s, a)
  }

  /** Runs start once n devices are attached and the timer thread is created. */
  ghost predicate IsRun(run: seq<State>) {
    && |run| > 0
    && (exists n :: run[0] == Initial(n))
    && forall i :: 0 <= i < |run| - 1 ==> Next(run[i], run[i + 1])
  }

  lemma NextInv(s: State, t: State)
    requires Inv(s) && Next(s, t)
    ensures Inv(t) && |t.devs| == |s.devs|
  {
    var a :| Enabled(s, a) && t == Apply(s, a);
    StepInv(s, a);
  }

  lemma {:induction false} RunInv(run: seq<State>, i: nat)
    requires IsRun(run) && i < |run|
    ensures Inv(run[i])
    ensures |run[i].devs| == |run[0].devs|
  {
    if i == 0 {
      var n :| run[0] == Initial(n);
      InitialInv(n);
    } else {
      RunInv(run, i - 1);
      assert Next(run[i - 1], run[i]);
      NextInv(run[i - 1], run[i]);
    }
  }

  /** Completed rounds of a device: its `done = 1` writes minus the one still pending. */
  function Releases(dev: Device): int {
    dev.calls - (if dev.done then 1 else 0)
  }

  /** Lockstep: every unfinished device has been released exactly `_time` times, or one time
      less precisely while the release pass has not reached it.  A device outside `next_slot`
      has made exactly `_time` calls. */
  lemma Lockstep(run: seq<State>, i: nat, d: nat)
    requires IsRun(run) && i < |run| && d < |run[i].devs|
    ensures var s, dev := run[i], run[i].devs[d];
      && (!dev.fsh ==> Releases(dev) == s.time - (if Owed(s.tpc, d) then 1 else 0))
      && (!dev.fsh && dev.pc.Busy? ==> dev.calls == s.time)
      && (dev.fsh ==> dev.calls <= s.time)
  {
    RunInv(run, i);
    assert DeviceOk(run[i].devs[d], run[i].tpc, d, run[i].time);
  }

  lemma StepKeepsTimeOfBusyDevice(s: State, a: Action, d: nat)
    requires Inv(s) && Enabled(s, a) && d < |s.devs|
    requires s.devs[d].pc.Busy?
    ensures Apply(s, a).time == s.time
  {
    assert DeviceOk(s.devs[d], s.tpc, d, s.time);
  }

  /** The slot a device works in or, inside `next_slot`, the slot it will come back in. */
  function SlotOf(dev: Device): nat {
    dev.calls + (if dev.pc.WantEvent? || dev.pc.MarkDone? then 1 else 0)
  }

  lemma BusySlotIsNow(s: State, d: nat)
    requires Inv(s) && d < |s.devs| && s.devs[d].pc.Busy?
    ensures SlotOf(s.devs[d]) == s.time
  {
    assert DeviceOk(s.devs[d], s.tpc, d, s.time);
  }

  /** Only a call of `next_slot` moves a device on to another slot, the one after its own. */
  lemma SlotStep(s: State, a: Action, d: nat)
    requires Enabled(s, a) && d < |s.devs|
    ensures |Apply(s, a).devs| == |s.devs|
    ensures SlotOf(Apply(s, a).devs[d]) == SlotOf(s.devs[d]) + (if a == Enter(d) then 1 else 0)
  {
    match a
    case DeviceMoves(e) => if e == d { assert MoveDevice(s.devs[d]).calls >= 0; }
    case TimerMoves => assert TouchDevice(s.devs[d], s.tpc).calls == s.devs[d].calls;
    case _ =>
  }

  lemma {:induction false} SlotKept(run: seq<State>, i: nat, j: nat, d: nat)
    requires IsRun(run) && i <= j < |run| && d < |run[0].devs|
    requires forall k :: i <= k < j ==> d < |run[k].devs| && !run[k].devs[d].pc.Busy?
    ensures d < |run[i].devs| && d < |run[j].devs| && SlotOf(run[j].devs[d]) == SlotOf(run[i].devs[d])
    decreases j - i
  {
    hide Inv, Enabled, Apply, SlotOf;
    RunInv(run, i);
    if i < j {
      assert Next(run[i], run[i + 1]);
      var a :| Enabled(run[i], a) && run[i + 1] == Apply(run[i], a);
      SlotStep(run[i], a, d);
      EnterNeedsBusy(run[i], d);
      SlotKept(run, i + 1, j, d);
    }
  }

  lemma EnterNeedsBusy(s: State, d: nat)
    requires d < |s.devs|
    ensures Enabled(s, Enter(d)) ==> s.devs[d].pc.Busy?
  {
  }

  /** A device that calls `next_slot` is back at work exactly one slot later. */
  lemma NextSlotTakesOneSlot(run: seq<State>, i: nat, j: nat, d: nat)
    requires IsRun(run) && i < j < |run| && d < |run[i].devs|
    requires Enabled(run[i], Enter(d)) && run[i + 1] == Apply(run[i], Enter(d))
    requires forall k :: i < k < j ==> d < |run[k].devs| && !run[k].devs[d].pc.Busy?
    requires d < |run[j].devs| && run[j].devs[d].pc.Busy?
    ensures run[j].time == run[i].time + 1
  {
    hide Inv, Apply, SlotOf;
    RunInv(run, i);
    RunInv(run, j);
    BusySlotIsNow(run[i], d);
    BusySlotIsNow(run[j], d);
    SlotStep(run[i], Enter(d), d);
    SlotKept(run, i + 1, j, d);
  }

  /** The clock stands still for as long as some device stays between two `next_slot` calls. */
  lemma {:induction false} TimeStableWhileBusy(run: seq<State>, i: nat, j: nat, d: nat)
    requires IsRun(run) && i <= j < |run| && d < |run[0].devs|
    requires forall k :: i <= k < j ==> d < |run[k].devs| && run[k].devs[d].pc.Busy?
    ensures run[j].time == run[i].time
    decreases j - i
  {
    if i < j {
      RunInv(run, i);
      assert Next(run[i], run[i + 1]);
      var a :| Enabled(run[i], a) && run[i + 1] == Apply(run[i], a);
      StepKeepsTimeOfBusyDevice(run[i], a, d);
      TimeStableWhileBusy(run, i + 1, j, d);
    }
  }

  /** No lost wake-up: whoever sleeps still has the condition it waits for false, unless the
      other side is at this very moment about to signal it. */
  lemma NoLostWakeup(run: seq<State>, i: nat, d: nat)
    requires IsRun(run) && i < |run| && d < |run[i].devs|
    ensures var s, dev := run[i], run[i].devs[d];
      && (dev.pc.Asleep? ==> (dev.done <==> s.tpc != ReleaseSignal(d)))
      && (s.tpc == CollectAsleep(d) && !Signals(dev.pc) ==> !dev.done && !dev.fsh)
  {
    RunInv(run, i);
    assert DeviceOk(run[i].devs[d], run[i].tpc, d, run[i].time);
  }

  /** A thread can take its next step without waiting for a lock or a signal.  A busy thread
      always can: it is running its own code. */
  predicate DeviceAwake(dev: Device) {
    dev.pc.Busy? || DeviceCanMove(dev)
  }

  lemma SomeoneCanMove(s: State)
    requires Inv(s)
    ensures !s.tpc.Exited? ==>
      TimerCanMove(s) || (AtDevice(s) && DeviceAwake(s.devs[s.tpc.k]))
    ensures s.tpc.Exited? ==> forall d :: 0 <= d < |s.devs| ==>
      s.devs[d].pc.Gone? || DeviceAwake(s.devs[d])
  {
    if AtDevice(s) {
      assert DeviceOk(s.devs[s.tpc.k], s.tpc, s.tpc.k, s.time);
    }
    if s.tpc.Exited? {
      forall d | 0 <= d < |s.devs| ensures s.devs[d].pc.Gone? || DeviceAwake(s.devs[d]) {
        assert DeviceOk(s.devs[d], s.tpc, d, s.time);
      }
    }
  }

  /** No deadlock: until the timer has left, the timer itself or the one device it attends
      to can move; afterwards every device that has not fully left can move. */
  lemma NoDeadlock(run: seq<State>, i: nat)
    requires IsRun(run) && i < |run|
    ensures TimerInRange(run[i])
    ensures !run[i].tpc.Exited? ==>
      TimerCanMove(run[i]) || (AtDevice(run[i]) && DeviceAwake(run[i].devs[run[i].tpc.k]))
    ensures run[i].tpc.Exited? ==> forall d :: 0 <= d < |run[i].devs| ==>
      run[i].devs[d].pc.Gone? || DeviceAwake(run[i].devs[d])
  {
    RunInv(run, i);
    SomeoneCanMove(run[i]);
  }

  /** Two threads stand before conflicting accesses to the same variable. */
  predicate DoneRace(dev: Device, tpc: TimerPc, d: nat) {
    || (dev.pc.MarkDone? && (tpc == ReleaseClear(d) || tpc == CollectTest(d)))
    || (dev.pc.TestDone? && tpc == ReleaseClear(d))
  }

  predicate FshRace(dev: Device, tpc: TimerPc, d: nat) {
    dev.pc.MarkFsh? && tpc == CollectTest(d)
  }

  /** `current_time()` reads the clock without a lock, from a thread outside `next_slot`. */
  predicate TimeRace(dev: Device, tpc: TimerPc) {
    dev.pc.Busy? && tpc.Tick?
  }

  /** `done` is set under one mutex and cleared under another, and `_time` is read under none,
      yet no two conflicting accesses are ever simultaneously possible. */
  lemma RaceFree(run: seq<State>, i: nat, d: nat)
    requires IsRun(run) && i < |run| && d < |run[i].devs|
    ensures !DoneRace(run[i].devs[d], run[i].tpc, d)
    ensures !FshRace(run[i].devs[d], run[i].tpc, d)
    ensures !TimeRace(run[i].devs[d], run[i].tpc)
  {
    RunInv(run, i);
    assert DeviceOk(run[i].devs[d], run[i].tpc, d, run[i].time);
  }

  lemma StepKeepsCounted(s: State, a: Action, d: nat)
    requires Inv(s) && Enabled(s, a) && d < |s.devs| && Collected(s.tpc, d) && !s.devs[d].fsh
    ensures d < |Apply(s, a).devs| && !Apply(s, a).devs[d].fsh
  {
    assert DeviceOk(s.devs[d], s.tpc, d, s.time);
    assert MayBeDone(s.devs[d].pc);
    if a == DeviceMoves(d) {
      assert !MoveDevice(s.devs[d]).fsh;
    } else if a.TimerMoves? && AtDevice(s) {
      assert TouchDevice(s.devs[d], s.tpc).fsh == s.devs[d].fsh;
    }
  }

  /** A device counted as done cannot finish, or be back at work, before its release. */
  lemma CountedStaysUntilRelease(run: seq<State>, i: nat, d: nat)
    requires IsRun(run) && i + 1 < |run| && d < |run[i].devs|
    requires Collected(run[i].tpc, d) && !run[i].devs[d].fsh
    ensures d < |run[i + 1].devs| && !run[i + 1].devs[d].fsh
    ensures run[i + 1].devs[d].pc.Busy? ==> !Collected(run[i + 1].tpc, d)
  {
    RunInv(run, i);
    assert Next(run[i], run[i + 1]);
    var a :| Enabled(run[i], a) && run[i + 1] == Apply(run[i], a);
    StepKeepsCounted(run[i], a, d);
    RunInv(run, i + 1);
    assert DeviceOk(run[i + 1].devs[d], run[i + 1].tpc, d, run[i + 1].time);
  }

  /** At the end of the collecting pass the two counters agree exactly when every attached
      device has finished. */
  lemma ExitVerdict(run: seq<State>, i: nat)
    requires IsRun(run) && i < |run| && run[i].tpc.Tick?
    ensures run[i].fshCount == run[i].eventCount <==> AllFinished(run[i])
  {
    RunInv(run, i);
    CountFshFull(run[i].devs, |run[i].devs|);
  }

  /** From the tick to the end of the release pass nobody touches the two counters, and the pass
      ends by leaving exactly if they agree. */
  lemma ReleaseStep(s: State, a: Action)
    requires Inv(s) && Enabled(s, a) && (s.tpc.Tick? || InReleasePass(s.tpc))
    ensures var t := Apply(s, a);
      if t.tpc.Tick? || InReleasePass(t.tpc) then t.fshCount == s.fshCount && t.eventCount == s.eventCount
      else if s.fshCount == s.eventCount then t.tpc.Exited? else t.tpc.LoopHead?
  {
    hide DeviceOk, MoveDevice, TouchDevice;
  }

  lemma {:induction false} ReleaseEnds(run: seq<State>, i: nat, j: nat)
    requires IsRun(run) && i < j < |run|
    requires forall k :: i <= k < j ==> run[k].tpc.Tick? || InReleasePass(run[k].tpc)
    requires !run[j].tpc.Tick? && !InReleasePass(run[j].tpc)
    ensures if run[i].fshCount == run[i].eventCount then run[j].tpc.Exited? else run[j].tpc.LoopHead?
    decreases j - i
  {
    hide Inv, Enabled, Apply;
    RunInv(run, i);
    assert Next(run[i], run[i + 1]);
    var a :| Enabled(run[i], a) && run[i + 1] == Apply(run[i], a);
    ReleaseStep(run[i], a);
    if i + 1 < j { ReleaseEnds(run, i + 1, j); }
  }

  /** When the release pass after a tick is over, the timer has left if and only if every device
      was finished at the tick; otherwise it starts another round. */
  lemma LeavesIff(run: seq<State>, i: nat, j: nat)
    requires IsRun(run) && i < j < |run| && run[i].tpc.Tick?
    requires forall k :: i <= k < j ==> run[k].tpc.Tick? || InReleasePass(run[k].tpc)
    requires !run[j].tpc.Tick? && !InReleasePass(run[j].tpc)
    ensures run[j].tpc.Exited? <==> AllFinished(run[i])
    ensures run[j].tpc.LoopHead? <==> !AllFinished(run[i])
  {
    hide Inv;
    ExitVerdict(run, i);
    ReleaseEnds(run, i, j);
  }

  lemma StoppedStep(s: State, a: Action)
    requires Enabled(s, a) && s.stop && (s.tpc.LoopHead? || s.tpc.Exited?)
    ensures var t := Apply(s, a); t.stop && (t.tpc.LoopHead? || t.tpc.Exited?) && t.time == s.time
    ensures a.TimerMoves? ==> Apply(s, a).tpc.Exited?
  {
  }

  /** Once a stop is requested, a timer at the head of its loop starts no further round. */
  lemma {:induction false} StopEndsTheClock(run: seq<State>, i: nat, j: nat)
    requires IsRun(run) && i <= j < |run| && run[i].stop && (run[i].tpc.LoopHead? || run[i].tpc.Exited?)
    ensures run[j].time == run[i].time && (run[j].tpc.LoopHead? || run[j].tpc.Exited?)
    decreases j - i
  {
    hide Enabled, Apply;
    if i < j {
      assert Next(run[i], run[i + 1]);
      var a :| Enabled(run[i], a) && run[i + 1] == Apply(run[i], a);
      StoppedStep(run[i], a);
      StopEndsTheClock(run, i + 1, j);
    }
  }

  lemma StepKeepsExit(s: State, a: Action)
    requires Inv(s) && Enabled(s, a) && s.tpc.Exited?
    ensures Apply(s, a).tpc.Exited?
  {
  }

  /** Safe exit: once the timer has left, now and ever after, every device has finished, so
      none is or will be inside `next_slot`. */
  lemma {:induction false} SafeExit(run: seq<State>, i: nat, j: nat)
    requires IsRun(run) && i <= j < |run| && run[i].tpc.Exited?
    ensures run[j].tpc.Exited? && AllFinished(run[j])
    ensures forall d :: 0 <= d < |run[j].devs| ==> Left(run[j].devs[d].pc)
    decreases j - i
  {
    RunInv(run, i);
    if i < j {
      assert Next(run[i], run[i + 1]);
      var a :| Enabled(run[i], a) && run[i + 1] == Apply(run[i], a);
      StepKeepsExit(run[i], a);
      SafeExit(run, i + 1, j);
    } else {
      forall d | 0 <= d < |run[j].devs| ensures Left(run[j].devs[d].pc) {
        assert DeviceOk(run[j].devs[d], run[j].tpc, d, run[j].time);
      }
    }
  }
}
