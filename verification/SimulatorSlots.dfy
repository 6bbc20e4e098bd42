/** Which clock slot each step of a thread falls into: a CPU runs at most one instruction per
    slot, looks for a process at most once per slot when there is none, and the loader wakes
    once per slot while it waits. */
module SimulatorSlots {
  import Clock = Barrier
  import BT = BarrierTheorems
  import opened ProcQueue
  import opened Scheduler
  import opened Simulator
  import SI = SimulatorInv
  import SC = SimulatorClock
  import ST = SimulatorTheorems

  /** The step from state i of the run is CPU c's. */
  ghost predicate Steps(cfg: Config, run: seq<Sys>, i: nat, c: nat) {
    i + 1 < |run| && Enabled(cfg, run[i], CpuMoves(c)) && run[i + 1] == Apply(cfg, run[i], CpuMoves(c))
  }

  ghost predicate LoaderSteps(cfg: Config, run: seq<Sys>, i: nat) {
    i + 1 < |run| && Enabled(cfg, run[i], LoaderMoves) && run[i + 1] == Apply(cfg, run[i], LoaderMoves)
  }

  /** The three places where a CPU is through with the slot: it is about to run an instruction,
      to look for a process when none is ready, or to find that it has none and is not to stop. */
  predicate EndsSlot(s: Sys, c: nat) {
    c < |s.cpus|
    && (s.cpus[c].pc.Run?
        || (s.cpus[c].pc.Top? && s.cpus[c].proc.None? && NoneReady(s.ready))
        || (s.cpus[c].pc.Check? && s.cpus[c].proc.None? && !s.done))
  }

  /** The loader is through with the slot when it adds a process or has to wait for its time. */
  predicate LoaderEndsSlot(cfg: Config, s: Sys) {
    || s.ld.pc.AddProc?
    || (s.ld.pc.Await? && s.ld.i < |cfg.startTime| && s.clock.time < cfg.startTime[s.ld.i])
  }

  /** The thread of device d takes the step that ends its slot. */
  predicate PassesOn(cfg: Config, s: Sys, e: Event, d: nat) {
    match e
    case CpuMoves(c) => c < |s.cpus| && d == CpuDevice(s, c) && EndsSlot(s, c)
    case LoaderMoves => d == LOADER_DEVICE && LoaderEndsSlot(cfg, s)
    case ClockMoves(_) => false
  }

  // ---------------------------------------------------------------- one step

  lemma CallSlot(clock: Clock.State, a: Clock.Action, d: nat)
    requires Clock.Enabled(clock, a) && d < |clock.devs|
    ensures |Clock.Apply(clock, a).devs| == |clock.devs|
    ensures BT.SlotOf(Clock.Apply(clock, a).devs[d]) ==
      BT.SlotOf(clock.devs[d]) + (if a == Clock.Enter(d) then 1 else 0)
  {
    BT.SlotStep(clock, a, d);
  }

  lemma CpuSlot(cfg: Config, s: Sys, c: nat, d: nat)
    requires Enabled(cfg, s, CpuMoves(c)) && s.ready.currentPrio == 0 && d < |s.clock.devs|
    ensures var t := Apply(cfg, s, CpuMoves(c));
      && |t.clock.devs| == |s.clock.devs| && t.clock.time == s.clock.time
      && BT.SlotOf(t.clock.devs[d]) == BT.SlotOf(s.clock.devs[d]) + (if PassesOn(cfg, s, CpuMoves(c), d) then 1 else 0)
  {
    hide GetMlq, PutMlq, BT.SlotOf, Ran;
    ScanIsStrictPriority(s.ready);
    var own := CpuDevice(s, c);
    CallSlot(s.clock, Clock.Enter(own), d);
    CallSlot(s.clock, Clock.Detach(own), d);
  }

  lemma LoaderSlot(cfg: Config, s: Sys, d: nat)
    requires Enabled(cfg, s, LoaderMoves) && d < |s.clock.devs|
    ensures var t := Apply(cfg, s, LoaderMoves);
      && |t.clock.devs| == |s.clock.devs| && t.clock.time == s.clock.time
      && BT.SlotOf(t.clock.devs[d]) == BT.SlotOf(s.clock.devs[d]) + (if PassesOn(cfg, s, LoaderMoves, d) then 1 else 0)
  {
    hide PutMlq, BT.SlotOf;
    CallSlot(s.clock, Clock.Enter(LOADER_DEVICE), d);
    CallSlot(s.clock, Clock.Detach(LOADER_DEVICE), d);
  }

  /** A thread moves to the next slot by its own slot-ending step and by no other step of any
      thread; the clock never runs back. */
  lemma EventSlot(cfg: Config, s: Sys, e: Event, d: nat)
    requires Enabled(cfg, s, e) && Clock.Inv(s.clock) && s.ready.currentPrio == 0 && d < |s.clock.devs|
    ensures var t := Apply(cfg, s, e);
      && |t.clock.devs| == |s.clock.devs| && t.clock.time >= s.clock.time
      && BT.SlotOf(t.clock.devs[d]) == BT.SlotOf(s.clock.devs[d]) + (if PassesOn(cfg, s, e, d) then 1 else 0)
  {
    hide BT.SlotOf, CpuStep, LoaderStep, Clock.Inv, GetMlq;
    match e
    case CpuMoves(c) => CpuSlot(cfg, s, c, d);
    case LoaderMoves => LoaderSlot(cfg, s, d);
    case ClockMoves(a) =>
      CallSlot(s.clock, a, d);
      SC.ClockFrame(s.clock, a, d);
  }

  /** How many steps a CPU is from one that ends its slot or stops it, at the most. */
  function StepsToGo(pc: CpuPc): nat {
    match pc
    case Top => 3
    case GetAgain => 2
    case Check => 1
    case Run => 0
    case Stopped => 0
  }

  /** A CPU does not circle inside a slot: each step that does not end the slot brings it nearer to
      one that does, or stops it.  So it takes at most four steps in a slot. */
  lemma FewStepsPerSlot(cfg: Config, s: Sys, c: nat)
    requires Enabled(cfg, s, CpuMoves(c)) && s.ready.currentPrio == 0 && !EndsSlot(s, c)
    ensures var t := Apply(cfg, s, CpuMoves(c));
      |t.cpus| == |s.cpus| && (t.cpus[c].pc.Stopped? || StepsToGo(t.cpus[c].pc) < StepsToGo(s.cpus[c].pc))
  {
    hide GetMlq, PutMlq, Clock.Apply, Clock.Enabled, Ran;
    ScanIsStrictPriority(s.ready);
  }

  /** The loader adds the process whose time has come in the step after it finds that it has. */
  lemma LoaderGoesOn(cfg: Config, s: Sys)
    requires Enabled(cfg, s, LoaderMoves) && !LoaderEndsSlot(cfg, s)
    ensures var t := Apply(cfg, s, LoaderMoves); t.ld.i == s.ld.i && (t.ld.pc.Ended? || t.ld.pc.AddProc?)
  {
    hide PutMlq, Clock.Apply, Clock.Enabled;
  }

  // ---------------------------------------------------------------- from step to step

  lemma RunClock(cfg: Config, run: seq<Sys>, i: nat)
    requires IsRun(cfg, run) && i < |run|
    ensures Clock.Inv(run[i].clock) && run[i].ready.currentPrio == 0
    ensures |run[i].clock.devs| == cfg.numCpus + 1 && |run[i].cpus| == cfg.numCpus
  {
    hide Clock.Inv;
    ST.RunInv(cfg, run, i);
  }

  lemma {:induction false} SlotsGrow(cfg: Config, run: seq<Sys>, i: nat, j: nat, d: nat)
    requires IsRun(cfg, run) && i <= j < |run| && d <= cfg.numCpus
    ensures d < |run[i].clock.devs| && d < |run[j].clock.devs|
    ensures BT.SlotOf(run[i].clock.devs[d]) <= BT.SlotOf(run[j].clock.devs[d])
    ensures run[i].clock.time <= run[j].clock.time
    decreases j - i
  {
    hide Apply, Enabled, Clock.Inv, BT.SlotOf, PassesOn;
    RunClock(cfg, run, i);
    if i < j {
      assert Next(cfg, run[i], run[i + 1]);
      var e :| Enabled(cfg, run[i], e) && run[i + 1] == Apply(cfg, run[i], e);
      EventSlot(cfg, run[i], e, d);
      SlotsGrow(cfg, run, i + 1, j, d);
    }
  }

  lemma StepsAtItsSlot(cfg: Config, run: seq<Sys>, i: nat, c: nat)
    requires IsRun(cfg, run) && Steps(cfg, run, i, c)
    ensures |run[i].clock.devs| == |run[i].cpus| + 1 == cfg.numCpus + 1 && c < cfg.numCpus
    ensures BT.SlotOf(run[i].clock.devs[CpuDevice(run[i], c)]) == run[i].clock.time
  {
    hide Apply, Clock.Inv, BT.SlotOf;
    RunClock(cfg, run, i);
    BT.BusySlotIsNow(run[i].clock, CpuDevice(run[i], c));
  }

  /** After a step that ends the slot, whatever the CPU does next it does in a later slot. */
  lemma LaterSlot(cfg: Config, run: seq<Sys>, i: nat, j: nat, c: nat)
    requires IsRun(cfg, run) && i < j && Steps(cfg, run, i, c) && Steps(cfg, run, j, c)
    requires EndsSlot(run[i], c)
    ensures run[i].clock.time < run[j].clock.time
  {
    hide Apply, Enabled, Clock.Inv, BT.SlotOf, EndsSlot;
    StepsAtItsSlot(cfg, run, i, c);
    StepsAtItsSlot(cfg, run, j, c);
    RunClock(cfg, run, i);
    EventSlot(cfg, run[i], CpuMoves(c), CpuDevice(run[i], c));
    SlotsGrow(cfg, run, i + 1, j, CpuDevice(run[i], c));
  }

  /** A CPU runs at most one instruction per slot. */
  lemma OneInstructionPerSlot(cfg: Config, run: seq<Sys>, i: nat, j: nat, c: nat)
    requires IsRun(cfg, run) && i < j && Steps(cfg, run, i, c) && Steps(cfg, run, j, c)
    requires c < |run[i].cpus| && run[i].cpus[c].pc.Run? && c < |run[j].cpus| && run[j].cpus[c].pc.Run?
    ensures run[i].clock.time < run[j].clock.time
  {
    hide Apply, Enabled;
    LaterSlot(cfg, run, i, j, c);
  }

  lemma {:induction false} SlotStays(cfg: Config, run: seq<Sys>, i: nat, j: nat, c: nat)
    requires IsRun(cfg, run) && i <= j < |run| && c < cfg.numCpus
    requires forall k :: i <= k < j ==> !Steps(cfg, run, k, c)
    ensures |run[i].clock.devs| == |run[j].clock.devs| == cfg.numCpus + 1
    ensures var d := cfg.numCpus - c; BT.SlotOf(run[j].clock.devs[d]) == BT.SlotOf(run[i].clock.devs[d])
    decreases j - i
  {
    hide Apply, Enabled, Clock.Inv, BT.SlotOf, EndsSlot, LoaderEndsSlot;
    RunClock(cfg, run, i);
    if i < j {
      assert Next(cfg, run[i], run[i + 1]);
      var e :| Enabled(cfg, run[i], e) && run[i + 1] == Apply(cfg, run[i], e);
      assert e != CpuMoves(c) by { assert !Steps(cfg, run, i, c); }
      EventSlot(cfg, run[i], e, cfg.numCpus - c);
      SlotStays(cfg, run, i + 1, j, c);
    }
  }

  /** Between two successive steps of a CPU exactly one slot passes if the first ends its slot, and
      none otherwise. */
  lemma NextStepOfCpu(cfg: Config, run: seq<Sys>, i: nat, j: nat, c: nat)
    requires IsRun(cfg, run) && i < j && Steps(cfg, run, i, c) && Steps(cfg, run, j, c)
    requires forall k :: i < k < j ==> !Steps(cfg, run, k, c)
    ensures run[j].clock.time == run[i].clock.time + (if EndsSlot(run[i], c) then 1 else 0)
  {
    hide Apply, Enabled, Clock.Inv, BT.SlotOf, EndsSlot;
    StepsAtItsSlot(cfg, run, i, c);
    StepsAtItsSlot(cfg, run, j, c);
    RunClock(cfg, run, i);
    EventSlot(cfg, run[i], CpuMoves(c), CpuDevice(run[i], c));
    SlotStays(cfg, run, i + 1, j, c);
  }

  // ---------------------------------------------------------------- the loader

  lemma LoaderAtItsSlot(cfg: Config, run: seq<Sys>, i: nat)
    requires IsRun(cfg, run) && LoaderSteps(cfg, run, i)
    ensures |run[i].clock.devs| == cfg.numCpus + 1
    ensures BT.SlotOf(run[i].clock.devs[LOADER_DEVICE]) == run[i].clock.time
  {
    hide Apply, Clock.Inv, BT.SlotOf;
    RunClock(cfg, run, i);
    BT.BusySlotIsNow(run[i].clock, LOADER_DEVICE);
  }

  lemma {:induction false} LoaderSlotStays(cfg: Config, run: seq<Sys>, i: nat, j: nat)
    requires IsRun(cfg, run) && i <= j < |run|
    requires forall k :: i <= k < j ==> !LoaderSteps(cfg, run, k)
    ensures |run[i].clock.devs| == |run[j].clock.devs| == cfg.numCpus + 1
    ensures BT.SlotOf(run[j].clock.devs[LOADER_DEVICE]) == BT.SlotOf(run[i].clock.devs[LOADER_DEVICE])
    decreases j - i
  {
    hide Apply, Enabled, Clock.Inv, BT.SlotOf, EndsSlot, LoaderEndsSlot;
    RunClock(cfg, run, i);
    if i < j {
      assert Next(cfg, run[i], run[i + 1]);
      var e :| Enabled(cfg, run[i], e) && run[i + 1] == Apply(cfg, run[i], e);
      assert e != LoaderMoves by { assert !LoaderSteps(cfg, run, i); }
      EventSlot(cfg, run[i], e, LOADER_DEVICE);
      LoaderSlotStays(cfg, run, i + 1, j);
    }
  }

  /** The loader lets exactly one slot pass after an addition and each time it has to wait, and
      none otherwise. */
  lemma NextStepOfLoader(cfg: Config, run: seq<Sys>, i: nat, j: nat)
    requires IsRun(cfg, run) && i < j && LoaderSteps(cfg, run, i) && LoaderSteps(cfg, run, j)
    requires forall k :: i < k < j ==> !LoaderSteps(cfg, run, k)
    ensures run[j].clock.time == run[i].clock.time + (if LoaderEndsSlot(cfg, run[i]) then 1 else 0)
  {
    hide Apply, Enabled, Clock.Inv, BT.SlotOf, LoaderEndsSlot;
    LoaderAtItsSlot(cfg, run, i);
    LoaderAtItsSlot(cfg, run, j);
    RunClock(cfg, run, i);
    EventSlot(cfg, run[i], LoaderMoves, LOADER_DEVICE);
    LoaderSlotStays(cfg, run, i + 1, j);
  }

  // ---------------------------------------------------------------- the instructions of a process

  /** The step from state i runs an instruction of p on CPU c. */
  ghost predicate Runs(cfg: Config, run: seq<Sys>, i: nat, c: nat, p: Pcb) {
    Steps(cfg, run, i, c) && c < |run[i].cpus| && run[i].cpus[c].pc.Run? && run[i].cpus[c].proc == Some(p)
  }

  /** Slot t is over for p: either for everyone, or p is on a CPU that is through with it. */
  ghost predicate PastSlot(s: Sys, p: Pcb, t: nat) {
    || s.clock.time > t
    || exists c :: 0 <= c < |s.cpus| && Through(s, c, p, t)
  }

  ghost predicate Through(s: Sys, c: nat, p: Pcb, t: nat) {
    && c < |s.cpus| && |s.clock.devs| == |s.cpus| + 1
    && s.cpus[c].proc == Some(p) && BT.SlotOf(s.clock.devs[CpuDevice(s, c)]) > t
  }

  /** No thread but its own changes a CPU's record. */
  lemma OthersKeepCpu(cfg: Config, s: Sys, e: Event, c: nat)
    requires Enabled(cfg, s, e) && c < |s.cpus| && e != CpuMoves(c)
    ensures |Apply(cfg, s, e).cpus| == |s.cpus| && Apply(cfg, s, e).cpus[c] == s.cpus[c]
  {
    hide GetMlq, PutMlq, Clock.Apply, Clock.Enabled, JobOf;
  }

  lemma PastSlotStep(cfg: Config, s: Sys, e: Event, p: Pcb, t: nat)
    requires Enabled(cfg, s, e) && Clock.Inv(s.clock) && s.ready.currentPrio == 0
    requires |s.clock.devs| == |s.cpus| + 1 && PastSlot(s, p, t)
    ensures PastSlot(Apply(cfg, s, e), p, t)
  {
    hide Clock.Inv, BT.SlotOf, EndsSlot, LoaderEndsSlot, CpuStep, LoaderStep, Clock.Apply;
    EventSlot(cfg, s, e, LOADER_DEVICE);
    if s.clock.time <= t {
      var c :| 0 <= c < |s.cpus| && Through(s, c, p, t);
      var d := CpuDevice(s, c);
      EventSlot(cfg, s, e, d);
      if e == CpuMoves(c) {
        BT.BusySlotIsNow(s.clock, d);
      } else {
        OthersKeepCpu(cfg, s, e, c);
        assert Through(Apply(cfg, s, e), c, p, t);
      }
    }
  }

  lemma {:induction false} PastSlotStays(cfg: Config, run: seq<Sys>, i: nat, j: nat, p: Pcb, t: nat)
    requires IsRun(cfg, run) && i <= j < |run| && PastSlot(run[i], p, t)
    ensures PastSlot(run[j], p, t)
    decreases j - i
  {
    hide Apply, Enabled, Clock.Inv, PastSlot;
    if i < j {
      RunClock(cfg, run, i);
      assert Next(cfg, run[i], run[i + 1]);
      var e :| Enabled(cfg, run[i], e) && run[i + 1] == Apply(cfg, run[i], e);
      PastSlotStep(cfg, run[i], e, p, t);
      PastSlotStays(cfg, run, i + 1, j, p, t);
    }
  }

  lemma RunningHolds(cfg: Config, s: Sys, c: nat, p: Pcb)
    requires Enabled(cfg, s, CpuMoves(c)) && s.cpus[c].pc.Run? && s.cpus[c].proc == Some(p)
    ensures var t := Apply(cfg, s, CpuMoves(c)); |t.cpus| == |s.cpus| && t.cpus[c].proc == Some(p)
  {
    hide Clock.Apply, Clock.Enabled, JobOf;
  }

  lemma HolderIsUnique(cfg: Config, s: Sys, c: nat, c': nat, p: Pcb)
    requires SI.Inv(cfg, s) && c < |s.cpus| && c' < |s.cpus|
    requires s.cpus[c].proc == Some(p) && s.cpus[c'].proc == Some(p)
    ensures c == c'
  {
    assert SI.CpuOk(cfg, s, c) && SI.CpuOk(cfg, s, c');
  }

  /** Successive instructions of a process, on whatever CPUs, run in strictly later slots. */
  lemma InstructionsInLaterSlots(cfg: Config, run: seq<Sys>, i: nat, j: nat, c: nat, c': nat, p: Pcb)
    requires IsRun(cfg, run) && i < j && Runs(cfg, run, i, c, p) && Runs(cfg, run, j, c', p)
    ensures run[i].clock.time < run[j].clock.time
  {
    hide Apply, Enabled, Clock.Inv, BT.SlotOf, SI.Inv, SC.Inv;
    var t := run[i].clock.time;
    StepsAtItsSlot(cfg, run, i, c);
    StepsAtItsSlot(cfg, run, j, c');
    RunClock(cfg, run, i); RunClock(cfg, run, i + 1); RunClock(cfg, run, j);
    EventSlot(cfg, run[i], CpuMoves(c), CpuDevice(run[i], c));
    RunningHolds(cfg, run[i], c, p);
    assert Through(run[i + 1], c, p, t);
    PastSlotStays(cfg, run, i + 1, j, p, t);
    if run[j].clock.time <= t {
      var h :| 0 <= h < |run[j].cpus| && Through(run[j], h, p, t);
      ST.RunInv(cfg, run, j);
      HolderIsUnique(cfg, run[j], h, c', p);
    }
  }
}
