/** The part of the simulator's invariant that leans on the clock: when the loader adds each
    process, and why a CPU that stops leaves nothing behind. */
module SimulatorClock {
  import Clock = Barrier
  import BT = BarrierTheorems
  import opened ProcQueue
  import opened Scheduler
  import opened Simulator

  // ---------------------------------------------------------------- the clock seen from a thread

  predicate InDetach(pc: Clock.DevPc) {
    pc.DetachWant? || pc.MarkFsh? || pc.DetachSignal? || pc.DetachDrop? || pc.Gone?
  }

  /** A step of the clock's own code changes no thread's slot and takes no thread out of its
      own code or out of `detach_event`; time never runs back, and stands still while
      some thread is busy. */
  lemma ClockFrame(clock: Clock.State, a: Clock.Action, d: nat)
    requires Clock.Inv(clock) && Clock.Enabled(clock, a) && !a.Enter? && !a.Detach? && d < |clock.devs|
    ensures var next := Clock.Apply(clock, a);
      && |next.devs| == |clock.devs|
      && BT.SlotOf(next.devs[d]) == BT.SlotOf(clock.devs[d])
      && (clock.devs[d].pc.Busy? ==> next.devs[d].pc.Busy? && next.time == clock.time)
      && (InDetach(next.devs[d].pc) <==> InDetach(clock.devs[d].pc))
      && next.time >= clock.time
  {
    if clock.devs[d].pc.Busy? { BT.StepKeepsTimeOfBusyDevice(clock, a, d); }
    match a
    case DeviceMoves(e) => if e == d { assert Clock.MoveDevice(clock.devs[d]).calls >= 0; }
    case TimerMoves => assert Clock.TouchDevice(clock.devs[d], clock.tpc).calls == clock.devs[d].calls;
    case _ =>
  }

  // ---------------------------------------------------------------- the invariant

  /** The slot in which process i is to be added: its start time, but one slot after the
      previous addition at the earliest. */
  function AddTime(cfg: Config, i: nat): nat
    requires i < |cfg.startTime|
    decreases i, 1
  {
    if cfg.startTime[i] >= Earliest(cfg, i) then cfg.startTime[i] else Earliest(cfg, i)
  }

  function Earliest(cfg: Config, i: nat): nat
    requires i <= |cfg.startTime|
    decreases i, 0
  {
    if i == 0 then 0 else AddTime(cfg, i - 1) + 1
  }

  ghost predicate LoaderOk(cfg: Config, s: Sys)
    requires Shaped(s) && |cfg.startTime| == |cfg.procs|
  {
    var dev := s.clock.devs[LOADER_DEVICE];
    && s.ld.i <= |cfg.procs| && |s.addSlot| == s.ld.i
    && (forall k :: 0 <= k < s.ld.i ==> s.addSlot[k] == AddTime(cfg, k))
    && (s.ld.pc.Ended? <==> InDetach(dev.pc))
    && (s.ld.pc.Ended? <==> s.done)
    && match s.ld.pc
       case Await =>
         Earliest(cfg, s.ld.i) <= BT.SlotOf(dev)
         && (s.ld.i < |cfg.procs| ==> BT.SlotOf(dev) <= AddTime(cfg, s.ld.i))
       case AddProc => s.ld.i < |cfg.procs| && dev.pc.Busy? && BT.SlotOf(dev) == AddTime(cfg, s.ld.i)
       case Ended => s.ld.i == |cfg.procs| && Earliest(cfg, s.ld.i) <= s.clock.time
  }

  /** Whoever found no process before the last addition is still in the slot of that addition. */
  predicate StaleFailure(cfg: Config, s: Sys)
  {
    && |cfg.procs| > 0
    && (|s.addSlot| == |cfg.procs| ==> s.addSlot[|cfg.procs| - 1] == s.clock.time)
  }

  ghost predicate CpuClockOk(cfg: Config, s: Sys, c: nat)
    requires Shaped(s) && c < |s.cpus|
  {
    var cpu, dev := s.cpus[c], s.clock.devs[CpuDevice(s, c)];
    && (cpu.pc.Stopped? <==> InDetach(dev.pc))
    && (cpu.pc.GetAgain? || cpu.pc.Check? || cpu.pc.Run? ==> dev.pc.Busy?)
    && (cpu.sawAll ==> s.ld.i == |cfg.procs|)
    && (cpu.pc.Stopped? ==> cpu.sawAll && cpu.proc.None?)
    && (cpu.pc.Check? && cpu.proc.None? && !cpu.sawAll ==> StaleFailure(cfg, s))
  }

  /** A CPU that will take nothing more: it failed to get a process after every process had
      been added, and is stopping or stopped, or about to find out whether it stops. */
  predicate Quiet(cpu: Cpu) {
    cpu.proc.None? && cpu.sawAll && (cpu.pc.Check? || cpu.pc.Stopped?)
  }

  ghost predicate SomeoneServes(s: Sys) {
    exists c :: 0 <= c < |s.cpus| && !Quiet(s.cpus[c])
  }

  /** Loading over and a queue not empty: some CPU holds a process or will ask for one. */
  ghost predicate NothingStranded(cfg: Config, s: Sys) {
    s.ld.i == |cfg.procs| && |s.cpus| >= 1 && !NoneReady(s.ready) ==> SomeoneServes(s)
  }

  ghost predicate Inv(cfg: Config, s: Sys) {
    && ValidConfig(cfg) && Shaped(s) && s.ready.currentPrio == 0
    && Clock.Inv(s.clock)
    && LoaderOk(cfg, s)
    && (forall c :: 0 <= c < |s.cpus| ==> CpuClockOk(cfg, s, c))
    && NothingStranded(cfg, s)
  }

  lemma InitialInv(cfg: Config)
    requires ValidConfig(cfg)
    ensures Inv(cfg, Initial(cfg))
  {
    Clock.InitialInv(cfg.numCpus + 1);
  }

  // ---------------------------------------------------------------- CPU steps

  /** A CPU step changes CPU c's record, and its device only by a call. */
  ghost predicate OneCpuChanges(s: Sys, t: Sys, c: nat)
    requires Shaped(s) && c < |s.cpus|
  {
    && |t.cpus| == |s.cpus| && t.ld == s.ld && t.done == s.done && t.addSlot == s.addSlot
    && WellFormed(t.ready) && t.ready.currentPrio == 0
    && Clock.Inv(t.clock) && |t.clock.devs| == |s.clock.devs| && t.clock.time == s.clock.time
    && (forall d :: 0 <= d < |s.clock.devs| && d != CpuDevice(s, c) ==> t.clock.devs[d] == s.clock.devs[d])
    && (forall d :: 0 <= d < |s.cpus| && d != c ==> t.cpus[d] == s.cpus[d])
  }

  lemma OneCpuChangesInv(cfg: Config, s: Sys, t: Sys, c: nat)
    requires Inv(cfg, s) && c < |s.cpus| && OneCpuChanges(s, t, c) && Shaped(t)
    requires CpuClockOk(cfg, t, c) && NothingStranded(cfg, t)
    ensures Inv(cfg, t)
  {
    hide Clock.Inv;
    forall d | 0 <= d < |t.cpus| ensures CpuClockOk(cfg, t, d) {
      assert CpuClockOk(cfg, s, d);
    }
  }

  lemma CallInv(clock: Clock.State, a: Clock.Action)
    requires Clock.Inv(clock) && Clock.Enabled(clock, a) && (a.Enter? || a.Detach?)
    ensures Clock.Inv(Clock.Apply(clock, a)) && Clock.Apply(clock, a).time == clock.time
    ensures |Clock.Apply(clock, a).devs| == |clock.devs|
  {
    Clock.StepInv(clock, a);
  }

  lemma GetsInv(cfg: Config, s: Sys, c: nat)
    requires Inv(cfg, s) && CpuCanMove(s, c) && (s.cpus[c].pc.Top? || s.cpus[c].pc.GetAgain?)
    ensures Inv(cfg, CpuGets(cfg, s, c))
  {
    hide Clock.Inv, GetMlq;
    var t := CpuGets(cfg, s, c);
    ScanIsStrictPriority(s.ready);
    CallInv(s.clock, Clock.Enter(CpuDevice(s, c)));
    assert CpuClockOk(cfg, s, c);
    assert t.cpus[c].proc.Some? ==> !Quiet(t.cpus[c]);
    OneCpuChangesInv(cfg, s, t, c);
  }

  /** After a CPU step that leaves the CPU holding a process or bound to ask for one. */
  lemma StillServingInv(cfg: Config, s: Sys, t: Sys, c: nat)
    requires Inv(cfg, s) && c < |s.cpus| && OneCpuChanges(s, t, c) && Shaped(t)
    requires CpuClockOk(cfg, t, c) && !Quiet(t.cpus[c])
    ensures Inv(cfg, t)
  {
    OneCpuChangesInv(cfg, s, t, c);
  }

  /** The step that stops a CPU.  It read `done`, so its failed `get_proc` came after the last
      `add_proc`: the loader passed a whole `next_slot` between the two, and the clock does
      not move while this CPU is busy. */
  lemma StopsInv(cfg: Config, s: Sys, c: nat)
    requires Inv(cfg, s) && CpuCanMove(s, c) && s.cpus[c].pc.Check? && s.cpus[c].proc.None? && s.done
    ensures Inv(cfg, CpuRechecks(cfg, s, c))
  {
    hide Clock.Inv;
    var t := CpuRechecks(cfg, s, c);
    CallInv(s.clock, Clock.Detach(CpuDevice(s, c)));
    assert CpuClockOk(cfg, s, c);
    assert s.cpus[c].sawAll;
    assert SomeoneServes(s) ==> SomeoneServes(t) by {
      if SomeoneServes(s) {
        var d :| 0 <= d < |s.cpus| && !Quiet(s.cpus[d]);
        assert !Quiet(t.cpus[d]);
      }
    }
    OneCpuChangesInv(cfg, s, t, c);
  }

  lemma RechecksInv(cfg: Config, s: Sys, c: nat)
    requires Inv(cfg, s) && CpuCanMove(s, c) && s.cpus[c].pc.Check?
    ensures Inv(cfg, CpuRechecks(cfg, s, c))
  {
    hide Clock.Inv;
    if s.cpus[c].proc.None? && s.done {
      StopsInv(cfg, s, c);
    } else {
      assert CpuClockOk(cfg, s, c);
      CallInv(s.clock, Clock.Enter(CpuDevice(s, c)));
      StillServingInv(cfg, s, CpuRechecks(cfg, s, c), c);
    }
  }

  lemma GivesUpInv(cfg: Config, s: Sys, c: nat, p: Pcb)
    requires Inv(cfg, s) && CpuCanMove(s, c) && s.cpus[c].pc.Top? && s.cpus[c].proc == Some(p)
    ensures Inv(cfg, CpuFrees(s, c, p)) && Inv(cfg, CpuPutsBack(s, c, p))
  {
    hide Clock.Inv;
    assert CpuClockOk(cfg, s, c);
    StillServingInv(cfg, s, CpuFrees(s, c, p), c);
    StillServingInv(cfg, s, CpuPutsBack(s, c, p), c);
  }

  lemma RunsInv(cfg: Config, s: Sys, c: nat, p: Pcb)
    requires Inv(cfg, s) && CpuCanMove(s, c) && s.cpus[c].pc.Run?
    ensures Inv(cfg, CpuRuns(s, c, p))
  {
    hide Clock.Inv;
    assert CpuClockOk(cfg, s, c);
    CallInv(s.clock, Clock.Enter(CpuDevice(s, c)));
    StillServingInv(cfg, s, CpuRuns(s, c, p), c);
  }

  lemma CpuStepInv(cfg: Config, s: Sys, c: nat)
    requires Inv(cfg, s) && CpuCanMove(s, c)
    ensures Inv(cfg, CpuStep(cfg, s, c))
  {
    hide Clock.Inv;
    var cpu := s.cpus[c];
    match cpu.pc
    case Top =>
      if cpu.proc.None? {
        GetsInv(cfg, s, c);
      } else {
        assert CpuClockOk(cfg, s, c);
        GivesUpInv(cfg, s, c, cpu.proc.value);
        StillServingInv(cfg, s, s.(cpus := s.cpus[c := cpu.(pc := Check)]), c);
      }
    case GetAgain => GetsInv(cfg, s, c);
    case Check => RechecksInv(cfg, s, c);
    case Run => RunsInv(cfg, s, c, cpu.proc.value);
  }

  // ---------------------------------------------------------------- loader and clock steps

  /** The last addition finds a CPU that has not given up: none gives up before it. */
  lemma AddsInv(cfg: Config, s: Sys)
    requires Inv(cfg, s) && LoaderCanMove(cfg, s) && s.ld.pc.AddProc?
    ensures Inv(cfg, LoaderStep(cfg, s))
  {
    hide Clock.Inv;
    var t := LoaderStep(cfg, s);
    BT.BusySlotIsNow(s.clock, LOADER_DEVICE);
    CallInv(s.clock, Clock.Enter(LOADER_DEVICE));
    forall c | 0 <= c < |t.cpus| ensures CpuClockOk(cfg, t, c) {
      assert CpuClockOk(cfg, s, c);
    }
    if |s.cpus| >= 1 {
      assert CpuClockOk(cfg, s, 0);
      assert !Quiet(t.cpus[0]);
    }
  }

  lemma LoaderStepInv(cfg: Config, s: Sys)
    requires Inv(cfg, s) && LoaderCanMove(cfg, s)
    ensures Inv(cfg, LoaderStep(cfg, s))
  {
    hide Clock.Inv;
    if s.ld.pc.AddProc? {
      AddsInv(cfg, s);
    } else {
      var t := LoaderStep(cfg, s);
      BT.BusySlotIsNow(s.clock, LOADER_DEVICE);
      CallInv(s.clock, Clock.Enter(LOADER_DEVICE));
      CallInv(s.clock, Clock.Detach(LOADER_DEVICE));
      forall c | 0 <= c < |t.cpus| ensures CpuClockOk(cfg, t, c) {
        assert CpuClockOk(cfg, s, c);
      }
    }
  }

  lemma ClockStepOk(clock: Clock.State, a: Clock.Action)
    requires Clock.Inv(clock) && Clock.Enabled(clock, a)
    ensures Clock.Inv(Clock.Apply(clock, a)) && Clock.TimerInRange(Clock.Apply(clock, a))
  {
    Clock.StepInv(clock, a);
  }

  lemma ClockStepInv(cfg: Config, s: Sys, a: Clock.Action)
    requires Inv(cfg, s) && Enabled(cfg, s, ClockMoves(a))
    ensures Inv(cfg, Apply(cfg, s, ClockMoves(a)))
  {
    hide Clock.Inv;
    var t := Apply(cfg, s, ClockMoves(a));
    ClockStepOk(s.clock, a);
    ClockFrame(s.clock, a, LOADER_DEVICE);
    forall c | 0 <= c < |t.cpus| ensures CpuClockOk(cfg, t, c) {
      assert CpuClockOk(cfg, s, c);
      ClockFrame(s.clock, a, CpuDevice(s, c));
    }
  }

  lemma StepInv(cfg: Config, s: Sys, e: Event)
    requires Inv(cfg, s) && Enabled(cfg, s, e)
    ensures Inv(cfg, Apply(cfg, s, e))
  {
    match e
    case CpuMoves(c) => CpuStepInv(cfg, s, c);
    case LoaderMoves => LoaderStepInv(cfg, s);
    case ClockMoves(a) => ClockStepInv(cfg, s, a);
  }

  /** Every addition so far was made in its computed slot. */
  lemma AddedOnTime(cfg: Config, s: Sys, k: nat)
    requires Inv(cfg, s) && k < |s.addSlot|
    ensures |s.addSlot| == s.ld.i <= |cfg.procs| == |cfg.startTime| && s.addSlot[k] == AddTime(cfg, k)
  {
    hide Clock.Inv, AddTime, NothingStranded, CpuClockOk;
  }
}
