/** Every process finishes, by a slot that can be computed from the configuration: in each slot in
    which some process is not over yet, at least one step towards the end of some process is made. */
module SimulatorDeadline {
  import Clock = Barrier
  import BT = BarrierTheorems
  import opened ProcQueue
  import opened Scheduler
  import opened Simulator
  import SI = SimulatorInv
  import SC = SimulatorClock
  import ST = SimulatorTheorems
  import SS = SimulatorSlots
  import SL = SimulatorLiveness
  import SP = SimulatorSlices
  import SX = SimulatorStopping

  // ---------------------------------------------------------------- what is left to do

  predicate Over(job: Job) {
    job.place.Finished? || job.place.Lost?
  }

  /** Instructions to run, one more for the first dispatch and one more for the end. */
  function LeftToDo(job: Job, size: nat): nat {
    (if job.pc <= size then size - job.pc else 0)
    + (if job.dispatches == 0 then 1 else 0)
    + (if Over(job) then 0 else 1)
  }

  function Tasks(cfg: Config, s: Sys): (ws: seq<nat>)
    requires |s.jobs| == |cfg.procs|
    ensures |ws| == |s.jobs| && forall j :: 0 <= j < |ws| ==> ws[j] == LeftToDo(s.jobs[j], cfg.procs[j].size)
  {
    seq(|s.jobs|, j requires 0 <= j < |s.jobs| && |s.jobs| == |cfg.procs| => LeftToDo(s.jobs[j], cfg.procs[j].size))
  }

  function Todo(cfg: Config, s: Sys): nat
    requires |s.jobs| == |cfg.procs|
  {
    SL.Sum(Tasks(cfg, s))
  }

  lemma TaskShrinks(cfg: Config, s: Sys, e: Event, j: nat)
    requires SI.Inv(cfg, s) && Enabled(cfg, s, e) && j < |s.jobs|
    ensures var t := Apply(cfg, s, e);
      |t.jobs| == |s.jobs| && LeftToDo(t.jobs[j], cfg.procs[j].size) <= LeftToDo(s.jobs[j], cfg.procs[j].size)
  {
    hide GetMlq, PutMlq, Clock.Apply, Clock.Enabled, SI.QueueOk;
    assert SI.JobOk(cfg, s, j);
    match e
    case CpuMoves(c) =>
      assert SI.CpuOk(cfg, s, c);
      SI.TakenIsReady(cfg, s);
    case LoaderMoves => assert s.ld.i < |cfg.procs| ==> SI.JobOk(cfg, s, s.ld.i);
    case ClockMoves(a) =>
  }

  /** No step gives anybody more to do; if all together have as much to do as before, then each has. */
  lemma TodoShrinks(cfg: Config, s: Sys, e: Event)
    requires SI.Inv(cfg, s) && Enabled(cfg, s, e)
    ensures var t := Apply(cfg, s, e);
      && |t.jobs| == |s.jobs| && Todo(cfg, t) <= Todo(cfg, s)
      && (Todo(cfg, t) == Todo(cfg, s) ==> forall j :: 0 <= j < |s.jobs| ==>
            LeftToDo(t.jobs[j], cfg.procs[j].size) == LeftToDo(s.jobs[j], cfg.procs[j].size))
  {
    hide Apply, Enabled, LeftToDo, SL.Sum;
    SameJobs(cfg, s, e);
    var t := Apply(cfg, s, e);
    forall j: nat | j < |s.jobs|
      ensures LeftToDo(t.jobs[j], cfg.procs[j].size) <= LeftToDo(s.jobs[j], cfg.procs[j].size)
    {
      TaskShrinks(cfg, s, e, j);
    }
    SL.SumGrows(Tasks(cfg, t), Tasks(cfg, s));
    if Todo(cfg, t) == Todo(cfg, s) {
      assert forall j :: 0 <= j < |s.jobs| ==> Tasks(cfg, t)[j] == Tasks(cfg, s)[j];
    }
  }

  lemma SameJobs(cfg: Config, s: Sys, e: Event)
    requires SI.Inv(cfg, s) && Enabled(cfg, s, e)
    ensures |Apply(cfg, s, e).jobs| == |s.jobs| == |cfg.procs|
  {
    hide GetMlq, PutMlq, Clock.Apply, Clock.Enabled, SI.JobOk, SI.QueueOk, SI.CpuOk;
  }

  // ---------------------------------------------------------------- a slot without progress so far

  ghost predicate Fits(cfg: Config, s: Sys) {
    && |s.clock.devs| == |s.cpus| + 1 && |s.jobs| == |cfg.procs|
  }

  /** The slot CPU c is in, or will come back in. */
  function SlotOfCpu(s: Sys, c: nat): nat
    requires c < |s.cpus| && |s.clock.devs| == |s.cpus| + 1
  {
    BT.SlotOf(s.clock.devs[CpuDevice(s, c)])
  }

  /** The CPU holds a process or is about to ask for one. */
  predicate Asks(cpu: Cpu) {
    !cpu.pc.Stopped? && (cpu.proc.Some? || cpu.pc.Top? || cpu.pc.GetAgain?)
  }

  /** In this slot CPU c will still work on a process or ask for one. */
  ghost predicate Serving(s: Sys, c: nat) {
    && c < |s.cpus| && |s.clock.devs| == |s.cpus| + 1
    && SlotOfCpu(s, c) <= s.clock.time && Asks(s.cpus[c])
  }

  ghost predicate SomeServe(s: Sys) {
    exists c: nat :: Serving(s, c)
  }

  /** The CPU that runs next has something to run, and who is through with the slot holds nothing. */
  ghost predicate CpuIdle(cfg: Config, s: Sys, c: nat)
    requires c < |s.cpus| && Fits(cfg, s)
  {
    var cpu := s.cpus[c];
    && (!cpu.pc.Stopped? && SlotOfCpu(s, c) > s.clock.time ==> cpu.proc.None?)
    && (cpu.proc.Some? && (cpu.pc.Run? || (cpu.pc.Check? && cpu.timeLeft != 0)) ==>
          var id := cpu.proc.value.id; id < |s.jobs| && s.jobs[id].pc < cfg.procs[id].size)
  }

  /** How things stand in a slot as long as nothing has got done in it. */
  ghost predicate NothingYet(cfg: Config, s: Sys) {
    && Fits(cfg, s)
    && (forall c :: 0 <= c < |s.cpus| ==> CpuIdle(cfg, s, c))
    && (SX.AllOver(s) || SomeServe(s))
  }

  ghost predicate Going(cfg: Config, s: Sys, f: nat) {
    && Fits(cfg, s) && Todo(cfg, s) <= f
    && (Todo(cfg, s) == f ==> NothingYet(cfg, s))
  }

  /** Whoever is not over is in a queue or on a CPU, once loading is over. */
  lemma Somewhere(cfg: Config, s: Sys)
    requires SI.Inv(cfg, s) && s.ld.i == |cfg.procs| && !SX.AllOver(s) && NoneReady(s.ready)
    ensures exists c: nat :: c < |s.cpus| && s.cpus[c].proc.Some?
  {
    var j :| 0 <= j < |s.jobs| && s.jobs[j].place != Finished && s.jobs[j].place != Lost;
    assert SI.JobOk(cfg, s, j);
    assert s.jobs[j].place.OnCpu?;
    assert s.cpus[s.jobs[j].place.c].proc.Some?;
  }

  lemma HolderServes(cfg: Config, s: Sys)
    requires SI.Inv(cfg, s) && Fits(cfg, s) && s.ld.i == |cfg.procs| && !SX.AllOver(s) && NoneReady(s.ready)
    requires forall c :: 0 <= c < |s.cpus| ==> CpuIdle(cfg, s, c)
    ensures SomeServe(s)
  {
    hide BT.SlotOf, SI.JobOk, SI.QueueOk;
    Somewhere(cfg, s);
    var c: nat :| c < |s.cpus| && s.cpus[c].proc.Some?;
    assert SI.CpuOk(cfg, s, c);
    assert CpuIdle(cfg, s, c);
    assert Serving(s, c);
  }

  // ---------------------------------------------------------------- steps within a slot

  /** Steps that leave queues, jobs and CPUs alone. */
  lemma Undisturbed(cfg: Config, s: Sys, t: Sys)
    requires NothingYet(cfg, s) && t.cpus == s.cpus && t.jobs == s.jobs
    requires |t.clock.devs| == |s.clock.devs| && t.clock.time == s.clock.time
    requires forall c :: 0 <= c < |s.cpus| ==> SlotOfCpu(t, c) == SlotOfCpu(s, c)
    ensures NothingYet(cfg, t)
  {
    hide BT.SlotOf;
    forall c | 0 <= c < |t.cpus| ensures CpuIdle(cfg, t, c) { assert CpuIdle(cfg, s, c); }
    if !SX.AllOver(s) {
      var c: nat :| Serving(s, c);
      assert Serving(t, c);
    }
  }

  lemma QuietStep(cfg: Config, s: Sys, e: Event)
    requires Clock.Inv(s.clock) && s.ready.currentPrio == 0 && s.ld.i == |cfg.procs| && Enabled(cfg, s, e)
    requires NothingYet(cfg, s) && !e.CpuMoves? && Apply(cfg, s, e).clock.time == s.clock.time
    ensures NothingYet(cfg, Apply(cfg, s, e))
  {
    hide BT.SlotOf, Clock.Inv, NothingYet;
    assert Fits(cfg, s) by { NothingFits(cfg, s); }
    var t := Apply(cfg, s, e);
    SS.EventSlot(cfg, s, e, LOADER_DEVICE);
    forall c | 0 <= c < |s.cpus| ensures SlotOfCpu(t, c) == SlotOfCpu(s, c) {
      SS.EventSlot(cfg, s, e, CpuDevice(s, c));
    }
    Undisturbed(cfg, s, t);
  }

  lemma NothingFits(cfg: Config, s: Sys)
    requires NothingYet(cfg, s)
    ensures Fits(cfg, s)
  {
    hide CpuIdle;
  }

  ghost predicate NobodyGotOn(cfg: Config, s: Sys, t: Sys) {
    && |s.jobs| == |t.jobs| == |cfg.procs|
    && forall j :: 0 <= j < |s.jobs| ==>
      LeftToDo(t.jobs[j], cfg.procs[j].size) == LeftToDo(s.jobs[j], cfg.procs[j].size)
  }

  /** The CPU that steps, when nothing gets done by its step. */
  lemma OwnStep(cfg: Config, s: Sys, c: nat)
    requires SI.Inv(cfg, s) && Enabled(cfg, s, CpuMoves(c)) && Fits(cfg, s) && CpuIdle(cfg, s, c)
    requires NobodyGotOn(cfg, s, Apply(cfg, s, CpuMoves(c)))
    ensures var t := Apply(cfg, s, CpuMoves(c));
      var cpu := t.cpus[c];
      && |t.cpus| == |s.cpus|
      && (SS.EndsSlot(s, c) ==> cpu.proc.None?)
      && (Asks(s.cpus[c]) ==> (Asks(cpu) && !SS.EndsSlot(s, c)) || NoneReady(t.ready))
      && (cpu.proc.Some? && (cpu.pc.Run? || (cpu.pc.Check? && cpu.timeLeft != 0)) ==>
            var id := cpu.proc.value.id; id < |t.jobs| && t.jobs[id].pc < cfg.procs[id].size)
  {
    hide GetMlq, PutMlq, Clock.Apply, Clock.Enabled, BT.SlotOf, SI.QueueOk;
    assert SI.CpuOk(cfg, s, c);
    ScanIsStrictPriority(s.ready);
    SI.TakenIsReady(cfg, s);
    if s.cpus[c].proc.Some? { assert SI.JobOk(cfg, s, s.cpus[c].proc.value.id); }
  }

  lemma OtherCpuIdle(cfg: Config, s: Sys, c: nat, b: nat)
    requires SI.Inv(cfg, s) && Clock.Inv(s.clock) && Enabled(cfg, s, CpuMoves(c)) && NothingYet(cfg, s)
    requires b < |s.cpus| && b != c
    ensures var t := Apply(cfg, s, CpuMoves(c));
      && Fits(cfg, t) && |t.cpus| == |s.cpus| && t.cpus[b] == s.cpus[b] && CpuIdle(cfg, t, b)
      && SlotOfCpu(t, b) == SlotOfCpu(s, b)
  {
    hide GetMlq, Clock.Inv, BT.SlotOf, CpuStep, SI.JobOk, SI.QueueOk, SomeServe, SX.AllOver;
    var t := Apply(cfg, s, CpuMoves(c));
    SS.OthersKeepCpu(cfg, s, CpuMoves(c), b);
    SS.EventSlot(cfg, s, CpuMoves(c), CpuDevice(s, b));
    SameJobs(cfg, s, CpuMoves(c));
    assert CpuIdle(cfg, s, b);
    assert SI.CpuOk(cfg, s, b) && SI.CpuOk(cfg, s, c);
    if s.cpus[b].proc.Some? {
      SP.OtherJobs(cfg, s, c, s.cpus[b].proc.value.id);
    }
  }

  lemma OverStays(cfg: Config, s: Sys, e: Event)
    requires SI.Inv(cfg, s) && Enabled(cfg, s, e) && SX.AllOver(s)
    ensures SX.AllOver(Apply(cfg, s, e))
  {
    hide Apply, Enabled;
    SameJobs(cfg, s, e);
    var t := Apply(cfg, s, e);
    forall j | 0 <= j < |t.jobs| ensures t.jobs[j].place == Finished || t.jobs[j].place == Lost {
      SP.DoneStays(cfg, s, e, j);
    }
  }

  lemma SteppingCpu(cfg: Config, s: Sys, c: nat)
    requires SI.Inv(cfg, s) && Clock.Inv(s.clock) && s.ld.i == |cfg.procs| && Enabled(cfg, s, CpuMoves(c))
    requires NothingYet(cfg, s) && NobodyGotOn(cfg, s, Apply(cfg, s, CpuMoves(c)))
    ensures var t := Apply(cfg, s, CpuMoves(c));
      && Fits(cfg, t) && |t.cpus| == |s.cpus| && t.clock.time == s.clock.time && CpuIdle(cfg, t, c)
      && (Serving(s, c) ==> Serving(t, c) || NoneReady(t.ready))
  {
    hide GetMlq, BT.SlotOf, CpuStep, SI.JobOk, SI.QueueOk, SI.CpuOk, Clock.Inv;
    hide SomeServe, SX.AllOver, NobodyGotOn, Asks, SS.EndsSlot;
    assert CpuIdle(cfg, s, c);
    SameJobs(cfg, s, CpuMoves(c));
    OwnStep(cfg, s, c);
    SS.CpuSlot(cfg, s, c, CpuDevice(s, c));
    BT.BusySlotIsNow(s.clock, CpuDevice(s, c));
  }

  /** A step of a CPU by which nothing gets done: someone goes on serving. */
  lemma CpuGoesOn(cfg: Config, s: Sys, c: nat)
    requires SI.Inv(cfg, s) && Clock.Inv(s.clock) && s.ld.i == |cfg.procs| && Enabled(cfg, s, CpuMoves(c))
    requires NothingYet(cfg, s) && NobodyGotOn(cfg, s, Apply(cfg, s, CpuMoves(c)))
    requires SI.Inv(cfg, Apply(cfg, s, CpuMoves(c)))
    ensures NothingYet(cfg, Apply(cfg, s, CpuMoves(c)))
  {
    hide Apply, Enabled, SI.Inv, Clock.Inv, BT.SlotOf, CpuIdle, NobodyGotOn, SX.AllOver;
    var t := Apply(cfg, s, CpuMoves(c));
    CpuInRange(cfg, s, c);
    SteppingCpu(cfg, s, c);
    forall b: nat | b < |t.cpus| ensures CpuIdle(cfg, t, b) {
      if b != c { OtherCpuIdle(cfg, s, c, b); }
    }
    if SX.AllOver(s) {
      OverStays(cfg, s, CpuMoves(c));
    } else {
      var w: nat :| Serving(s, w);
      if w != c {
        OtherCpuIdle(cfg, s, c, w);
        assert Serving(t, w);
      } else if Serving(t, c) {
        assert SomeServe(t);
      } else if !SX.AllOver(t) {
        LoadedStays(cfg, s, c);
        HolderServes(cfg, t);
      }
    }
  }

  lemma CpuInRange(cfg: Config, s: Sys, c: nat)
    requires Enabled(cfg, s, CpuMoves(c))
    ensures c < |s.cpus|
  {
  }

  lemma LoadedStays(cfg: Config, s: Sys, c: nat)
    requires Enabled(cfg, s, CpuMoves(c))
    ensures Apply(cfg, s, CpuMoves(c)).ld == s.ld
  {
    hide GetMlq, PutMlq, Clock.Apply, Clock.Enabled, JobOf;
  }

  // ---------------------------------------------------------------- the tick

  /** At the tick every CPU that has not stopped is through with the slot. */
  lemma NobodyServesAtTick(cfg: Config, s: Sys)
    requires SC.Inv(cfg, s) && s.clock.tpc.Tick?
    ensures !SomeServe(s)
  {
    hide SC.LoaderOk, SC.NothingStranded;
    forall c: nat | c < |s.cpus| && !s.cpus[c].pc.Stopped? ensures SlotOfCpu(s, c) > s.clock.time {
      assert SC.CpuClockOk(cfg, s, c);
      assert Clock.DeviceOk(s.clock.devs[CpuDevice(s, c)], s.clock.tpc, CpuDevice(s, c), s.clock.time);
    }
  }

  /** Just after the tick every CPU that has not stopped stands at the head of its loop and is to
      serve in the slot that begins. */
  lemma TickStarts(cfg: Config, s: Sys)
    requires SI.Inv(cfg, s) && SC.Inv(cfg, s) && s.clock.tpc.Tick?
    ensures var t := Apply(cfg, s, ClockMoves(Clock.TimerMoves));
      && Fits(cfg, t) && t.cpus == s.cpus && t.jobs == s.jobs && t.clock.time == s.clock.time + 1
      && (forall c :: 0 <= c < |t.cpus| ==> CpuIdle(cfg, t, c))
      && (forall c: nat :: c < |t.cpus| && !t.cpus[c].pc.Stopped? ==> Serving(t, c))
  {
    hide SC.LoaderOk, SC.NothingStranded, SI.JobOk, SI.QueueOk, SI.CpuOk;
    var t := Apply(cfg, s, ClockMoves(Clock.TimerMoves));
    forall c: nat | c < |s.cpus|
      ensures t.cpus == s.cpus && SlotOfCpu(t, c) == SlotOfCpu(s, c)
      ensures s.cpus[c].pc.Stopped? || (s.cpus[c].pc.Top? && SlotOfCpu(s, c) == s.clock.time + 1)
    {
      assert SC.CpuClockOk(cfg, s, c);
      assert Clock.DeviceOk(s.clock.devs[CpuDevice(s, c)], s.clock.tpc, CpuDevice(s, c), s.clock.time);
    }
  }

  // ---------------------------------------------------------------- runs

  lemma TimeStep(cfg: Config, s: Sys, e: Event)
    requires Enabled(cfg, s, e)
    ensures var t := Apply(cfg, s, e);
      t.clock.time == s.clock.time
      || (t.clock.time == s.clock.time + 1 && e == ClockMoves(Clock.TimerMoves) && s.clock.tpc.Tick?)
  {
    hide GetMlq, PutMlq, JobOf, Clock.DeviceCanMove, Clock.MoveDevice, Clock.TouchDevice;
  }

  /** Within a slot nothing is lost: either something gets done, or someone will still see to it. */
  lemma GoingStep(cfg: Config, run: seq<Sys>, i: nat, e: Event, f: nat)
    requires IsRun(cfg, run) && i + 1 < |run| && Enabled(cfg, run[i], e) && run[i + 1] == Apply(cfg, run[i], e)
    requires run[i].ld.i == |cfg.procs| && Going(cfg, run[i], f) && run[i + 1].clock.time == run[i].clock.time
    ensures Going(cfg, run[i + 1], f)
  {
    hide Apply, Enabled, SI.Inv, SC.Inv, Clock.Inv, NothingYet, NobodyGotOn, LeftToDo, Todo;
    var s, t := run[i], run[i + 1];
    ST.RunInv(cfg, run, i); ST.RunInv(cfg, run, i + 1);
    SS.RunClock(cfg, run, i); SS.RunClock(cfg, run, i + 1);
    SameJobs(cfg, s, e);
    TodoShrinks(cfg, s, e);
    if Todo(cfg, t) == f {
      if e.CpuMoves? {
        assert NobodyGotOn(cfg, s, t) by { SameTasks(cfg, s, e); }
        CpuGoesOn(cfg, s, e.c);
      } else {
        QuietStep(cfg, s, e);
      }
    }
  }

  lemma SameTasks(cfg: Config, s: Sys, e: Event)
    requires SI.Inv(cfg, s) && Enabled(cfg, s, e) && |s.jobs| == |cfg.procs| == |Apply(cfg, s, e).jobs|
    requires Todo(cfg, Apply(cfg, s, e)) == Todo(cfg, s)
    ensures NobodyGotOn(cfg, s, Apply(cfg, s, e))
  {
    hide Apply, Enabled, SI.Inv, LeftToDo, Todo;
    TodoShrinks(cfg, s, e);
  }

  /** Each slot that ends before all is over has got something done. */
  lemma GoingTick(cfg: Config, run: seq<Sys>, i: nat, f: nat)
    requires IsRun(cfg, run) && i + 1 < |run| && cfg.numCpus >= 1 && run[i].clock.tpc.Tick?
    requires Enabled(cfg, run[i], ClockMoves(Clock.TimerMoves))
    requires run[i + 1] == Apply(cfg, run[i], ClockMoves(Clock.TimerMoves))
    requires Going(cfg, run[i], f) && !SX.AllOver(run[i])
    ensures Todo(cfg, run[i]) < f && Going(cfg, run[i + 1], Todo(cfg, run[i]))
  {
    hide Apply, Enabled, SI.Inv, SC.Inv, Clock.Inv, CpuIdle, LeftToDo, Serving;
    var s, t := run[i], run[i + 1];
    ST.RunInv(cfg, run, i);
    NobodyServesAtTick(cfg, s);
    TickStarts(cfg, s);
    if c: nat :| c < |s.cpus| && !s.cpus[c].pc.Stopped? {
      assert Serving(t, c);
    } else {
      ST.NoStrandedProcess(cfg, run, i);
    }
  }

  lemma LoadedNow(cfg: Config, s: Sys, e: Event)
    requires SI.Inv(cfg, s) && Enabled(cfg, s, e) && s.ld.i == |cfg.procs|
    ensures Apply(cfg, s, e).ld.i == |cfg.procs|
  {
    hide GetMlq, PutMlq, Clock.Apply, Clock.Enabled, JobOf, SI.JobOk, SI.QueueOk, SI.CpuOk;
  }

  /** What is left shrinks by at least one with every slot, until all is over. */
  lemma {:induction false} WorkGetsDone(cfg: Config, run: seq<Sys>, i: nat, j: nat, f: nat)
    requires IsRun(cfg, run) && i <= j < |run| && cfg.numCpus >= 1
    requires run[i].ld.i == |cfg.procs| && (SX.AllOver(run[i]) || Going(cfg, run[i], f))
    ensures SX.AllOver(run[j])
      || exists g: nat :: Going(cfg, run[j], g) && g + run[j].clock.time <= f + run[i].clock.time
    decreases j - i
  {
    hide Apply, Enabled, SI.Inv, SC.Inv, SX.AllOver, Going, Todo;
    if i < j {
      ST.RunInv(cfg, run, i);
      assert Next(cfg, run[i], run[i + 1]);
      var e :| Enabled(cfg, run[i], e) && run[i + 1] == Apply(cfg, run[i], e);
      LoadedNow(cfg, run[i], e);
      if SX.AllOver(run[i]) {
        OverStays(cfg, run[i], e);
        WorkGetsDone(cfg, run, i + 1, j, f);
        OverLater(cfg, run, i + 1, j);
      } else {
        TimeStep(cfg, run[i], e);
        if run[i + 1].clock.time == run[i].clock.time {
          GoingStep(cfg, run, i, e, f);
          WorkGetsDone(cfg, run, i + 1, j, f);
        } else {
          assert |run[i].jobs| == |cfg.procs| by { SameJobs(cfg, run[i], e); }
          GoingTick(cfg, run, i, f);
          WorkGetsDone(cfg, run, i + 1, j, Todo(cfg, run[i]));
        }
      }
    } else if !SX.AllOver(run[i]) {
      assert Going(cfg, run[j], f) && f + run[j].clock.time <= f + run[i].clock.time;
    }
  }

  lemma {:induction false} OverLater(cfg: Config, run: seq<Sys>, i: nat, j: nat)
    requires IsRun(cfg, run) && i <= j < |run| && SX.AllOver(run[i])
    ensures SX.AllOver(run[j])
    decreases j - i
  {
    hide Apply, Enabled, SI.Inv, SC.Inv, SX.AllOver;
    if i < j {
      ST.RunInv(cfg, run, i);
      assert Next(cfg, run[i], run[i + 1]);
      var e :| Enabled(cfg, run[i], e) && run[i + 1] == Apply(cfg, run[i], e);
      OverStays(cfg, run[i], e);
      OverLater(cfg, run, i + 1, j);
    }
  }

  lemma UnfinishedHasTodo(cfg: Config, s: Sys)
    requires |s.jobs| == |cfg.procs| && !SX.AllOver(s)
    ensures Todo(cfg, s) >= 1
  {
    var j :| 0 <= j < |s.jobs| && s.jobs[j].place != Finished && s.jobs[j].place != Lost;
    var zeros: seq<nat> := seq(|s.jobs|, k => 0);
    assert zeros[j] < Tasks(cfg, s)[j];
    SL.SumGrows(zeros, Tasks(cfg, s));
  }

  // ---------------------------------------------------------------- the deadline

  lemma {:induction false} AddTimesGrow(cfg: Config, k: nat, n: nat)
    requires k <= n < |cfg.startTime|
    ensures SC.AddTime(cfg, k) <= SC.AddTime(cfg, n)
    decreases n - k
  {
    if k < n { AddTimesGrow(cfg, k, n - 1); }
  }

  /** A device that has not finished is in the slot the clock shows, or through with it. */
  lemma NotBehind(clock: Clock.State, d: nat)
    requires Clock.Inv(clock) && d < |clock.devs| && !SC.InDetach(clock.devs[d].pc)
    ensures clock.time <= BT.SlotOf(clock.devs[d])
  {
    assert Clock.DeviceOk(clock.devs[d], clock.tpc, d, clock.time);
  }

  lemma LoadedByThen(cfg: Config, s: Sys)
    requires SC.Inv(cfg, s) && |cfg.procs| > 0 && s.clock.time > SC.AddTime(cfg, |cfg.procs| - 1)
    ensures s.ld.i == |cfg.procs|
  {
    hide Clock.Inv, SC.AddTime, SC.CpuClockOk, SC.NothingStranded, BT.SlotOf;
    if s.ld.i < |cfg.procs| {
      AddTimesGrow(cfg, s.ld.i, |cfg.procs| - 1);
      NotBehind(s.clock, LOADER_DEVICE);
    }
  }

  lemma {:induction false} SlotSeen(cfg: Config, run: seq<Sys>, i: nat, time: nat) returns (k: nat)
    requires IsRun(cfg, run) && i < |run| && time <= run[i].clock.time
    ensures k <= i && run[k].clock.time == time
  {
    hide Apply, Enabled;
    if run[i].clock.time == time || i == 0 {
      k := i;
    } else {
      assert Next(cfg, run[i - 1], run[i]);
      var e :| Enabled(cfg, run[i - 1], e) && run[i] == Apply(cfg, run[i - 1], e);
      TimeStep(cfg, run[i - 1], e);
      k := SlotSeen(cfg, run, i - 1, time);
    }
  }

  /** One unit per instruction and two more for each process. */
  function TotalWork(cfg: Config): nat {
    SL.Sum(seq(|cfg.procs|, j requires 0 <= j < |cfg.procs| => cfg.procs[j].size + 2))
  }

  lemma TodoBound(cfg: Config, s: Sys)
    requires |s.jobs| == |cfg.procs|
    ensures Todo(cfg, s) <= TotalWork(cfg)
  {
    SL.SumGrows(Tasks(cfg, s), seq(|cfg.procs|, j requires 0 <= j < |cfg.procs| => cfg.procs[j].size + 2));
  }

  /** The slot after the last addition, and then a slot for each unit of work. */
  function Deadline(cfg: Config): nat
    requires |cfg.startTime| == |cfg.procs|
  {
    if |cfg.procs| == 0 then 0 else SC.AddTime(cfg, |cfg.procs| - 1) + 1 + TotalWork(cfg)
  }

  lemma OverByThen(cfg: Config, run: seq<Sys>, k: nat, i: nat)
    requires IsRun(cfg, run) && k <= i < |run| && cfg.numCpus >= 1 && run[k].ld.i == |cfg.procs|
    requires run[i].clock.time > run[k].clock.time + TotalWork(cfg)
    ensures SX.AllOver(run[i])
  {
    hide SX.AllOver, Going, Todo, TotalWork, SI.Inv, SC.Inv;
    SS.RunClock(cfg, run, k);
    JobsAreProcs(cfg, run, k); JobsAreProcs(cfg, run, i);
    TodoBound(cfg, run[k]);
    var f := Todo(cfg, run[k]) + 1;
    assert Going(cfg, run[k], f) by { StartsGoing(cfg, run[k]); }
    WorkGetsDone(cfg, run, k, i, f);
    if !SX.AllOver(run[i]) {
      var g: nat :| Going(cfg, run[i], g) && g + run[i].clock.time <= f + run[k].clock.time;
      UnfinishedHasTodo(cfg, run[i]);
      GoingBound(cfg, run[i], g);
    }
  }

  lemma StartsGoing(cfg: Config, s: Sys)
    requires Fits(cfg, s)
    ensures Going(cfg, s, Todo(cfg, s) + 1)
  {
  }

  lemma GoingBound(cfg: Config, s: Sys, g: nat)
    requires Going(cfg, s, g)
    ensures |s.jobs| == |cfg.procs| && Todo(cfg, s) <= g
  {
  }

  lemma JobsAreProcs(cfg: Config, run: seq<Sys>, i: nat)
    requires IsRun(cfg, run) && i < |run|
    ensures |run[i].jobs| == |cfg.procs|
  {
    hide SI.JobOk, SI.CpuOk, SI.QueueOk, SC.Inv;
    ST.RunInv(cfg, run, i);
  }

  /** Over every run of a configuration with at least one CPU: once the clock is past the deadline
      every process has finished, or was lost to a full level. */
  lemma EveryProcessMeetsDeadline(cfg: Config, run: seq<Sys>, i: nat)
    requires IsRun(cfg, run) && i < |run| && cfg.numCpus >= 1 && run[i].clock.time > Deadline(cfg)
    ensures SX.AllOver(run[i])
    ensures ST.FitsLevels(cfg) ==> forall j :: 0 <= j < |run[i].jobs| ==> run[i].jobs[j].place == Finished
  {
    hide SI.Inv, SC.Inv, TotalWork, SC.AddTime, ST.FitsLevels;
    JobsAreProcs(cfg, run, i);
    if |cfg.procs| > 0 {
      var last := SC.AddTime(cfg, |cfg.procs| - 1);
      var k := SlotSeen(cfg, run, i, last + 1);
      ST.RunInv(cfg, run, k);
      LoadedByThen(cfg, run[k]);
      OverByThen(cfg, run, k, i);
    }
    if ST.FitsLevels(cfg) { ST.NothingLost(cfg, run, i); }
  }
}
