/** What holds in every state of every run of the simulator, for every configuration and
    every interleaving of its threads. */
module SimulatorTheorems {
  import Clock = Barrier
  import BT = BarrierTheorems
  import opened ProcQueue
  import opened Scheduler
  import opened Simulator
  import SI = SimulatorInv
  import SC = SimulatorClock

  lemma {:induction false} RunInv(cfg: Config, run: seq<Sys>, i: nat)
    requires IsRun(cfg, run) && i < |run|
    ensures SI.Inv(cfg, run[i]) && SC.Inv(cfg, run[i])
  {
    hide Apply, Enabled, SI.Inv, SC.Inv;
    if i == 0 {
      SI.InitialInv(cfg);
      SC.InitialInv(cfg);
    } else {
      RunInv(cfg, run, i - 1);
      assert Next(cfg, run[i - 1], run[i]);
      var e :| Enabled(cfg, run[i - 1], e) && run[i] == Apply(cfg, run[i - 1], e);
      SI.StepInv(cfg, run[i - 1], e);
      SC.StepInv(cfg, run[i - 1], e);
    }
  }

  lemma EventOnClock(cfg: Config, s: Sys, e: Event)
    requires Enabled(cfg, s, e)
    ensures Apply(cfg, s, e).clock == s.clock || BT.Next(s.clock, Apply(cfg, s, e).clock)
  {
    hide JobOf, PutMlq, GetMlq, Clock.DeviceCanMove, Clock.MoveDevice, Clock.TimerStep, Clock.TimerCanMove;
    match e
    case CpuMoves(c) =>
      var d := CpuDevice(s, c);
      assert Clock.Enabled(s.clock, Clock.Enter(d)) && Clock.Enabled(s.clock, Clock.Detach(d));
    case LoaderMoves =>
      assert Clock.Enabled(s.clock, Clock.Enter(LOADER_DEVICE));
      assert Clock.Enabled(s.clock, Clock.Detach(LOADER_DEVICE));
    case ClockMoves(a) =>
  }

  /** The simulator drives the clock only as the barrier protocol allows, so everything
      proved of the barrier holds of the clock inside the simulator. */
  lemma ClockFollowsBarrier(cfg: Config, run: seq<Sys>, i: nat)
    requires IsRun(cfg, run) && i + 1 < |run|
    ensures run[i + 1].clock == run[i].clock || BT.Next(run[i].clock, run[i + 1].clock)
    ensures Clock.Inv(run[i].clock)
  {
    hide SI.Inv, Clock.Inv, Apply, Enabled, BT.Next;
    RunInv(cfg, run, i);
    assert Next(cfg, run[i], run[i + 1]);
    var e :| Enabled(cfg, run[i], e) && run[i + 1] == Apply(cfg, run[i], e);
    EventOnClock(cfg, run[i], e);
  }

  // ---------------------------------------------------------------- where the processes are

  ghost predicate Queued(s: Sys, p: Pcb, l: nat, k: nat) {
    l < |s.ready.levels| && k < |s.ready.levels[l]| && s.ready.levels[l][k] == p
  }

  ghost predicate Held(s: Sys, p: Pcb, c: nat) {
    c < |s.cpus| && s.cpus[c].proc == Some(p)
  }

  /** Exclusivity: a process sits in at most one queue slot, on its own level, and on at most
      one CPU; never in both; and whoever is freed, lost or not yet loaded is in neither. */
  lemma Exclusive(cfg: Config, run: seq<Sys>, i: nat, j: nat)
    requires IsRun(cfg, run) && i < |run| && j < |cfg.procs|
    ensures j < |run[i].jobs|
    ensures var s, p := run[i], cfg.procs[j];
      && (forall l: nat, k: nat, l': nat, k': nat :: Queued(s, p, l, k) && Queued(s, p, l', k') ==>
            l == l' == p.prio && k == k')
      && (forall c: nat, c': nat :: Held(s, p, c) && Held(s, p, c') ==> c == c')
      && (forall l: nat, k: nat, c: nat :: !(Queued(s, p, l, k) && Held(s, p, c)))
      && (s.jobs[j].place in {Unloaded, Finished, Lost} ==>
            forall l: nat, k: nat, c: nat :: !Queued(s, p, l, k) && !Held(s, p, c))
  {
    RunInv(cfg, run, i);
    var s, p := run[i], cfg.procs[j];
    forall l: nat, k: nat | Queued(s, p, l, k) ensures l == p.prio && s.jobs[j].place == Ready {
      assert SI.QueueOk(cfg, s.jobs, s.ready.levels[l], l);
    }
    forall k: nat, k': nat | Queued(s, p, p.prio, k) && Queued(s, p, p.prio, k') ensures k == k' {
      assert SI.QueueOk(cfg, s.jobs, s.ready.levels[p.prio], p.prio);
    }
    forall c: nat | Held(s, p, c) ensures s.jobs[j].place == OnCpu(c) {
      assert SI.CpuOk(cfg, s, c);
    }
  }

  /** Conservation: exactly the added processes are queued, held, finished or lost. */
  lemma Conserved(cfg: Config, run: seq<Sys>, i: nat, j: nat)
    requires IsRun(cfg, run) && i < |run| && j < |cfg.procs|
    ensures j < |run[i].jobs|
    ensures var s, p := run[i], cfg.procs[j];
      j < s.ld.i <==>
        (exists k: nat :: Queued(s, p, p.prio, k)) || (exists c: nat :: Held(s, p, c))
        || s.jobs[j].place == Finished || s.jobs[j].place == Lost
  {
    RunInv(cfg, run, i);
    var s, p := run[i], cfg.procs[j];
    assert SI.JobOk(cfg, s, j);
    if k: nat :| Queued(s, p, p.prio, k) {
      assert SI.QueueOk(cfg, s.jobs, s.ready.levels[p.prio], p.prio);
    }
    if c: nat :| Held(s, p, c) {
      assert SI.CpuOk(cfg, s, c);
    }
    match s.jobs[j].place
    case Ready =>
      var k :| 0 <= k < |s.ready.levels[p.prio]| && s.ready.levels[p.prio][k] == p;
      assert Queued(s, p, p.prio, k);
    case OnCpu(c) => assert Held(s, p, c);
    case _ =>
  }

  // ---------------------------------------------------------------- levels that fit

  ghost function LevelMembers(cfg: Config, l: nat): set<Pcb> {
    set p | p in cfg.procs && p.prio == l
  }

  /** At most ten processes are configured on each level. */
  ghost predicate FitsLevels(cfg: Config) {
    forall l :: 0 <= l < MAX_PRIO ==> |LevelMembers(cfg, l)| <= MAX_QUEUE_SIZE
  }

  ghost function Elements(q: seq<Pcb>): set<Pcb> {
    set p | p in q
  }

  lemma {:induction false} DistinctCount(q: seq<Pcb>)
    requires forall k, k' :: 0 <= k < k' < |q| ==> q[k] != q[k']
    ensures |Elements(q)| == |q|
  {
    if q != [] {
      var init := q[..|q| - 1];
      DistinctCount(init);
      assert q == init + [q[|q| - 1]];
      assert Elements(q) == Elements(init) + {q[|q| - 1]};
    }
  }

  lemma SubsetCount(a: set<Pcb>, b: set<Pcb>)
    requires a <= b
    ensures |a| <= |b|
  {
    assert b == a + (b - a);
  }

  /** A process in no queue always finds room: its level holds only its fellow members. */
  lemma RoomForOneMore(cfg: Config, s: Sys, p: Pcb)
    requires SI.Inv(cfg, s) && FitsLevels(cfg) && p.id < |cfg.procs| && p == cfg.procs[p.id]
    requires !s.jobs[p.id].place.Ready?
    ensures p.prio < MAX_PRIO && |s.ready.levels[p.prio]| < MAX_QUEUE_SIZE
  {
    var q := s.ready.levels[p.prio];
    assert SI.QueueOk(cfg, s.jobs, q, p.prio);
    SI.NotQueued(cfg, s, p, p.prio);
    DistinctCount(q);
    assert |Elements(q) + {p}| == |q| + 1;
    SubsetCount(Elements(q) + {p}, LevelMembers(cfg, p.prio));
  }

  ghost predicate NoneLost(s: Sys) {
    forall j :: 0 <= j < |s.jobs| ==> s.jobs[j].place != Lost
  }

  lemma StepLosesNone(cfg: Config, s: Sys, e: Event)
    requires SI.Inv(cfg, s) && FitsLevels(cfg) && NoneLost(s) && Enabled(cfg, s, e)
    ensures NoneLost(Apply(cfg, s, e))
  {
    hide GetMlq, PutMlq, FitsLevels, Clock.Apply, Clock.DeviceCanMove, Clock.TimerCanMove;
    match e
    case CpuMoves(c) =>
      assert SI.CpuOk(cfg, s, c);
      if s.cpus[c].pc.Top? && s.cpus[c].proc.Some? {
        RoomForOneMore(cfg, s, s.cpus[c].proc.value);
      }
    case LoaderMoves =>
      if s.ld.pc.AddProc? {
        assert SI.JobOk(cfg, s, s.ld.i);
        RoomForOneMore(cfg, s, cfg.procs[s.ld.i]);
      }
    case ClockMoves(a) =>
  }

  /** `enqueue` drops a process silently when its level is full; with at most ten processes
      per level that never happens. */
  lemma {:induction false} NothingLost(cfg: Config, run: seq<Sys>, i: nat)
    requires IsRun(cfg, run) && FitsLevels(cfg) && i < |run|
    ensures NoneLost(run[i])
  {
    hide Apply, Enabled, SI.Inv, SC.Inv, FitsLevels;
    if i > 0 {
      NothingLost(cfg, run, i - 1);
      RunInv(cfg, run, i - 1);
      assert Next(cfg, run[i - 1], run[i]);
      var e :| Enabled(cfg, run[i - 1], e) && run[i] == Apply(cfg, run[i - 1], e);
      StepLosesNone(cfg, run[i - 1], e);
    }
  }

  // ---------------------------------------------------------------- stopping

  ghost predicate AllStopped(s: Sys) {
    forall c :: 0 <= c < |s.cpus| ==> s.cpus[c].pc.Stopped?
  }

  /** No stranded process: when every CPU has left its loop, loading is over, every queue is
      empty, and every configured process has run to its end, or was lost to a full level. */
  lemma NoStrandedProcess(cfg: Config, run: seq<Sys>, i: nat)
    requires IsRun(cfg, run) && i < |run| && cfg.numCpus >= 1 && AllStopped(run[i])
    ensures NoneReady(run[i].ready) && run[i].ld.i == |cfg.procs| == |run[i].jobs|
    ensures forall j :: 0 <= j < |cfg.procs| ==>
      run[i].jobs[j].place == Lost || (run[i].jobs[j].place == Finished && run[i].jobs[j].pc == cfg.procs[j].size)
  {
    RunInv(cfg, run, i);
    var s := run[i];
    forall c | 0 <= c < |s.cpus| ensures SC.Quiet(s.cpus[c]) {
      assert SC.CpuClockOk(cfg, s, c);
    }
    assert SC.Quiet(s.cpus[0]) && SC.CpuClockOk(cfg, s, 0);
    forall j | 0 <= j < |cfg.procs|
      ensures s.jobs[j].place == Lost || (s.jobs[j].place == Finished && s.jobs[j].pc == cfg.procs[j].size)
    {
      assert SI.JobOk(cfg, s, j);
    }
  }

  /** The same with levels that fit: every configured process has finished. */
  lemma EveryProcessFinishes(cfg: Config, run: seq<Sys>, i: nat)
    requires IsRun(cfg, run) && i < |run| && cfg.numCpus >= 1 && FitsLevels(cfg) && AllStopped(run[i])
    ensures NoneReady(run[i].ready) && |run[i].jobs| == |cfg.procs|
    ensures forall j :: 0 <= j < |cfg.procs| ==>
      run[i].jobs[j].place == Finished && run[i].jobs[j].log == seq(cfg.procs[j].size, k requires k >= 0 => k)
  {
    NoStrandedProcess(cfg, run, i);
    NothingLost(cfg, run, i);
    RunInv(cfg, run, i);
    forall j | 0 <= j < |cfg.procs|
      ensures run[i].jobs[j].place == Finished
      ensures run[i].jobs[j].log == seq(cfg.procs[j].size, k requires k >= 0 => k)
    {
      assert SI.JobOk(cfg, run[i], j);
    }
  }

  // ---------------------------------------------------------------- execution

  /** Exactly-once execution: over all CPUs a process has run instructions 0 .. pc-1, once each
      and in order; once freed it has run all of them; and no completed process is queued. */
  lemma ExactlyOnce(cfg: Config, run: seq<Sys>, i: nat, j: nat)
    requires IsRun(cfg, run) && i < |run| && j < |cfg.procs|
    ensures j < |run[i].jobs|
    ensures var job, size := run[i].jobs[j], cfg.procs[j].size;
      && job.pc <= size
      && job.log == seq(job.pc, k requires k >= 0 => k)
      && (job.place == Finished ==> job.pc == size)
      && (job.place == Ready && job.pc == size ==> size == 0 && job.dispatches == 0)
  {
    RunInv(cfg, run, i);
    assert SI.JobOk(cfg, run[i], j);
  }

  lemma MinOfProduct(n: int, ts: int, size: int)
    requires n >= 1 && ts >= 1 && size >= 0
    ensures SI.Min(size, n * ts) - (n - 1) * ts == SI.Min(size - (n - 1) * ts, ts)
  {
    assert n * ts - (n - 1) * ts == ts;
  }

  /** Bounded slices: the n-th dispatch of a process starts at instruction (n-1) * time_slot,
      and when its CPU gives it up it has run exactly min(time_slot, remaining) more. */
  lemma SliceLength(cfg: Config, run: seq<Sys>, i: nat, c: nat, p: Pcb)
    requires IsRun(cfg, run) && i < |run| && cfg.timeSlot >= 1 && Held(run[i], p, c)
    requires run[i].cpus[c].pc.Top?
    requires p.id < |run[i].jobs| ==> run[i].jobs[p.id].pc == p.size || run[i].cpus[c].timeLeft == 0
    ensures p.id < |run[i].jobs|
    ensures var job := run[i].jobs[p.id];
      && job.dispatches >= 1 && job.sliceStart == (job.dispatches - 1) * cfg.timeSlot
      && job.pc - job.sliceStart == SI.Min(cfg.timeSlot, p.size - job.sliceStart)
  {
    RunInv(cfg, run, i);
    var s := run[i];
    assert SI.CpuOk(cfg, s, c);
    assert SI.JobOk(cfg, s, p.id);
    var job := s.jobs[p.id];
    MinOfProduct(job.dispatches, cfg.timeSlot, p.size);
  }

  /** A freed process was dispatched ceil(size / time_slot) times, or once if it has no code. */
  lemma DispatchCount(cfg: Config, run: seq<Sys>, i: nat, j: nat)
    requires IsRun(cfg, run) && i < |run| && cfg.timeSlot >= 1 && j < |cfg.procs|
    requires j < |run[i].jobs| ==> run[i].jobs[j].place == Finished
    ensures j < |run[i].jobs|
    ensures var n, size := run[i].jobs[j].dispatches, cfg.procs[j].size;
      if size == 0 then n == 1 else (n - 1) * cfg.timeSlot < size <= n * cfg.timeSlot
  {
    RunInv(cfg, run, i);
    assert SI.JobOk(cfg, run[i], j);
  }

  // ---------------------------------------------------------------- scheduling and loading

  /** In every reachable state the scan position is 0, so `get_proc` serves the lowest-numbered
      non-empty level, by stable maximum of `priority`, and fails only when all are empty. */
  lemma AlwaysStrictPriority(cfg: Config, run: seq<Sys>, i: nat)
    requires IsRun(cfg, run) && i < |run|
    ensures WellFormed(run[i].ready) && run[i].ready.currentPrio == 0
    ensures GetMlq(run[i].ready).0.None? <==> NoneReady(run[i].ready)
    ensures forall l: nat :: LowestLevel(run[i].ready.levels, l) ==>
      GetMlq(run[i].ready).0 == Some(run[i].ready.levels[l][StableMax(run[i].ready.levels[l])])
  {
    RunInv(cfg, run, i);
    ScanIsStrictPriority(run[i].ready);
  }

  /** Loader timing: process k is added in slot a(k), where a(0) is its start time and a(k) the
      later of its start time and a(k-1) + 1, whatever the interleaving. */
  lemma LoaderTiming(cfg: Config, run: seq<Sys>, i: nat, k: nat)
    requires IsRun(cfg, run) && i < |run| && k < |run[i].addSlot|
    ensures |run[i].addSlot| == run[i].ld.i <= |cfg.procs| == |cfg.startTime|
    ensures k == 0 ==> run[i].addSlot[0] == cfg.startTime[0]
    ensures k > 0 ==>
      var next := run[i].addSlot[k - 1] + 1;
      run[i].addSlot[k] == if cfg.startTime[k] >= next then cfg.startTime[k] else next
  {
    hide SI.Inv, SC.Inv, Next;
    RunInv(cfg, run, i);
    SC.AddedOnTime(cfg, run[i], k);
    if k > 0 { SC.AddedOnTime(cfg, run[i], k - 1); }
  }

  // ---------------------------------------------------------------- progress

  /** A step of a thread's own code, as opposed to a wake-up without a signal. */
  predicate RealStep(e: Event) {
    e.CpuMoves? || e.LoaderMoves? || (e.ClockMoves? && (e.a.DeviceMoves? || e.a.TimerMoves?))
  }

  lemma BusyThreadMoves(cfg: Config, s: Sys, d: nat)
    requires SI.Inv(cfg, s) && SC.Inv(cfg, s) && d < |s.clock.devs| && s.clock.devs[d].pc.Busy?
    ensures exists e :: RealStep(e) && Enabled(cfg, s, e)
  {
    if d == LOADER_DEVICE {
      assert Enabled(cfg, s, LoaderMoves);
    } else {
      var c := |s.cpus| - d;
      assert SI.CpuOk(cfg, s, c);
      assert SC.CpuClockOk(cfg, s, c);
      assert Enabled(cfg, s, CpuMoves(c));
    }
  }

  /** The simulator never gets stuck: some thread can take a step of its own until the timer
      has left and every CPU and the loader have finished. */
  lemma NeverStuck(cfg: Config, run: seq<Sys>, i: nat)
    requires IsRun(cfg, run) && i < |run|
    ensures (exists e :: RealStep(e) && Enabled(cfg, run[i], e))
      || (run[i].clock.tpc.Exited? && run[i].ld.pc.Ended? && AllStopped(run[i]))
  {
    RunInv(cfg, run, i);
    var s := run[i];
    BT.SomeoneCanMove(s.clock);
    if d: nat :| d < |s.clock.devs| && BT.DeviceAwake(s.clock.devs[d]) {
      if s.clock.devs[d].pc.Busy? {
        BusyThreadMoves(cfg, s, d);
      } else {
        assert Enabled(cfg, s, ClockMoves(Clock.DeviceMoves(d)));
      }
    } else if Clock.TimerCanMove(s.clock) {
      assert Enabled(cfg, s, ClockMoves(Clock.TimerMoves));
    } else {
      forall c | 0 <= c < |s.cpus| ensures s.cpus[c].pc.Stopped? {
        assert SC.CpuClockOk(cfg, s, c);
        assert s.clock.devs[CpuDevice(s, c)].pc.Gone?;
      }
      assert s.clock.devs[LOADER_DEVICE].pc.Gone?;
    }
  }
}
