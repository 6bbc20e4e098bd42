/** The inductive invariant of the simulator about processes: where each one is, what it has
    run, and what the queues and CPUs hold.  Nothing here depends on the clock. */
module SimulatorInv {
  import Clock = Barrier
  import opened ProcQueue
  import opened Scheduler
  import opened Simulator

  function Min(a: int, b: int): int {
    if a <= b then a else b
  }

  // ---------------------------------------------------------------- the invariant

  /** Instructions 0 .. pc-1 ran, once each and in order. */
  ghost predicate RanInOrder(job: Job, size: nat) {
    && job.pc <= size && |job.log| == job.pc
    && forall k :: 0 <= k < |job.log| ==> job.log[k] == k
  }

  /** No completed process waits in a queue: it has code left, or was never dispatched. */
  predicate Unspent(job: Job, size: nat) {
    job.pc < size || job.dispatches == 0
  }

  /** The slices of a process start at multiples of the time slot, each before the end. */
  predicate SlicesOk(ts: int, job: Job, size: nat) {
    ts >= 1 && job.dispatches >= 1 ==>
      && job.sliceStart == (job.dispatches - 1) * ts
      && Unspent(Job(job.sliceStart, job.place, job.dispatches - 1, 0, []), size)
  }

  /** With `left` slots of the current slice unused, this much has run. */
  predicate Progress(ts: int, job: Job, size: nat, left: int) {
    ts >= 1 ==> job.pc == Min(size, job.dispatches * ts - left)
  }

  ghost predicate JobOk(cfg: Config, s: Sys, j: nat)
    requires j < |s.jobs| == |cfg.procs| && WellFormed(s.ready)
  {
    var job, p := s.jobs[j], cfg.procs[j];
    && RanInOrder(job, p.size)
    && SlicesOk(cfg.timeSlot, job, p.size)
    && (job.place.Unloaded? <==> s.ld.i <= j)
    && (job.dispatches == 0 ==> job.pc == 0)
    && match job.place
       case Unloaded => job.dispatches == 0
       case Ready =>
         p.prio < MAX_PRIO && p in s.ready.levels[p.prio]
         && Unspent(job, p.size) && Progress(cfg.timeSlot, job, p.size, 0)
       case OnCpu(c) =>
         c < |s.cpus| && s.cpus[c].proc == Some(p)
         && Progress(cfg.timeSlot, job, p.size, s.cpus[c].timeLeft)
       case Finished =>
         job.pc == p.size && job.dispatches >= 1
         && (cfg.timeSlot >= 1 ==> p.size <= job.dispatches * cfg.timeSlot)
       case Lost => true
  }

  /** Every queued process is known, on its own level, recorded as ready, and queued once. */
  ghost predicate QueueOk(cfg: Config, jobs: seq<Job>, q: seq<Pcb>, l: nat)
    requires |jobs| == |cfg.procs|
  {
    && (forall k :: 0 <= k < |q| ==>
          q[k].prio == l && q[k].id < |cfg.procs| && q[k] == cfg.procs[q[k].id] && jobs[q[k].id].place == Ready)
    && (forall k, k' :: 0 <= k < k' < |q| ==> q[k] != q[k'])
  }

  ghost predicate CpuOk(cfg: Config, s: Sys, c: nat)
    requires c < |s.cpus| && |s.jobs| == |cfg.procs|
  {
    var cpu := s.cpus[c];
    match cpu.proc
    case None => cpu.timeLeft == 0 && !cpu.pc.Run?
    case Some(p) =>
      && !cpu.pc.GetAgain? && !cpu.pc.Stopped?
      && p.id < |cfg.procs| && p == cfg.procs[p.id] && s.jobs[p.id].place == OnCpu(c)
      && (cfg.timeSlot >= 1 ==> 0 <= cpu.timeLeft <= cfg.timeSlot && (cpu.pc.Run? ==> cpu.timeLeft >= 1))
      && (cpu.pc.Top? || cpu.pc.Run? || cpu.timeLeft != 0 ==> s.jobs[p.id].dispatches >= 1)
      && (cpu.pc.Check? && cpu.timeLeft == 0 ==> Unspent(s.jobs[p.id], p.size))
  }

  ghost predicate Inv(cfg: Config, s: Sys) {
    && ValidConfig(cfg)
    && WellFormed(s.ready) && s.ready.currentPrio == 0
    && |s.jobs| == |cfg.procs| && |s.cpus| == cfg.numCpus && s.ld.i <= |cfg.procs|
    && (s.ld.pc.AddProc? ==> s.ld.i < |cfg.procs|)
    && (forall j :: 0 <= j < |s.jobs| ==> JobOk(cfg, s, j))
    && (forall l :: 0 <= l < MAX_PRIO ==> QueueOk(cfg, s.jobs, s.ready.levels[l], l))
    && (forall c :: 0 <= c < |s.cpus| ==> CpuOk(cfg, s, c))
  }

  lemma InitialInv(cfg: Config)
    requires ValidConfig(cfg)
    ensures Inv(cfg, Initial(cfg))
  {
  }

  // ---------------------------------------------------------------- frames

  /** Steps that leave queues and jobs alone and change CPU c's record only. */
  lemma CpuRecordStep(cfg: Config, s: Sys, t: Sys, c: nat)
    requires Inv(cfg, s) && c < |s.cpus|
    requires t.ready == s.ready && t.jobs == s.jobs && t.ld == s.ld
    requires |t.cpus| == |s.cpus| && t.cpus == s.cpus[c := t.cpus[c]]
    requires t.cpus[c].proc == s.cpus[c].proc && t.cpus[c].timeLeft == s.cpus[c].timeLeft
    requires CpuOk(cfg, t, c)
    ensures Inv(cfg, t)
  {
    forall j | 0 <= j < |t.jobs| ensures JobOk(cfg, t, j) {
      assert JobOk(cfg, s, j);
    }
    forall d | 0 <= d < |t.cpus| ensures CpuOk(cfg, t, d) {
      assert CpuOk(cfg, s, d);
    }
  }

  /** Steps in which one process p moves or advances, and only CPU c's record and p's level
      may change. */
  ghost predicate MovesOne(cfg: Config, s: Sys, t: Sys, c: nat, p: Pcb)
    requires WellFormed(s.ready) && WellFormed(t.ready)
  {
    && p.id < |s.jobs| == |t.jobs| && |s.cpus| == |t.cpus|
    && s.ld.i <= t.ld.i
    && (forall j :: 0 <= j < |s.jobs| && j != p.id ==> t.jobs[j] == s.jobs[j] && (t.ld.i <= j <==> s.ld.i <= j))
    && (forall d :: 0 <= d < |s.cpus| && d != c ==> t.cpus[d] == s.cpus[d])
    && (forall l, q :: 0 <= l < MAX_PRIO && q != p ==> (q in t.ready.levels[l] <==> q in s.ready.levels[l]))
    && t.ready.currentPrio == 0
  }

  lemma OtherJob(cfg: Config, s: Sys, t: Sys, c: nat, p: Pcb, j: nat)
    requires Inv(cfg, s) && WellFormed(t.ready) && MovesOne(cfg, s, t, c, p)
    requires p.id < |cfg.procs| && p == cfg.procs[p.id]
    requires c < |s.cpus| ==> s.cpus[c].proc.None? || s.cpus[c].proc == Some(p)
    requires j < |s.jobs| && j != p.id
    ensures JobOk(cfg, t, j)
  {
    assert JobOk(cfg, s, j);
  }

  lemma OtherCpu(cfg: Config, s: Sys, t: Sys, c: nat, p: Pcb, d: nat)
    requires Inv(cfg, s) && WellFormed(t.ready) && MovesOne(cfg, s, t, c, p)
    requires d < |s.cpus| && d != c && s.jobs[p.id].place != OnCpu(d)
    ensures CpuOk(cfg, t, d)
  {
    assert CpuOk(cfg, s, d);
  }

  /** Once the one process and the one CPU are checked, so is the whole invariant. */
  lemma MovesOneInv(cfg: Config, s: Sys, t: Sys, c: nat, p: Pcb)
    requires Inv(cfg, s) && WellFormed(t.ready) && MovesOne(cfg, s, t, c, p)
    requires p.id < |cfg.procs| && p == cfg.procs[p.id]
    requires t.ld.i <= |cfg.procs| && (t.ld.pc.AddProc? ==> t.ld.i < |cfg.procs|)
    requires c < |s.cpus| ==> s.cpus[c].proc.None? || s.cpus[c].proc == Some(p)
    requires forall d :: 0 <= d < |s.cpus| && d != c ==> s.jobs[p.id].place != OnCpu(d)
    requires JobOk(cfg, t, p.id)
    requires c < |t.cpus| ==> CpuOk(cfg, t, c)
    requires forall l :: 0 <= l < MAX_PRIO ==> QueueOk(cfg, t.jobs, t.ready.levels[l], l)
    ensures Inv(cfg, t)
  {
    forall j | 0 <= j < |t.jobs| ensures JobOk(cfg, t, j) {
      if j != p.id { OtherJob(cfg, s, t, c, p, j); }
    }
    forall d | 0 <= d < |t.cpus| ensures CpuOk(cfg, t, d) {
      if d != c { OtherCpu(cfg, s, t, c, p, d); }
    }
  }

  // ---------------------------------------------------------------- queue steps

  lemma WithoutKeeps(q: seq<Pcb>, i: nat, p: Pcb)
    requires i < |q| && forall k, k' :: 0 <= k < k' < |q| ==> q[k] != q[k']
    ensures p in Without(q, i) <==> p in q && p != q[i]
    ensures forall k, k' :: 0 <= k < k' < |q| - 1 ==> Without(q, i)[k] != Without(q, i)[k']
  {
    assert q == q[..i] + [q[i]] + q[i + 1..];
    if p in q && p != q[i] {
      var k :| 0 <= k < |q| && q[k] == p;
      assert Without(q, i)[if k < i then k else k - 1] == p;
    }
  }

  /** What a successful `get_proc` takes. */
  lemma GetTakesOne(cfg: Config, s: Sys)
    requires Inv(cfg, s) && GetMlq(s.ready).0.Some?
    ensures var (r, ready) := GetMlq(s.ready); var p := r.value;
      && p.id < |cfg.procs| && p == cfg.procs[p.id] && s.jobs[p.id].place == Ready
      && ready.currentPrio == 0
      && (forall l :: 0 <= l < MAX_PRIO ==> QueueOk(cfg, Move(s.jobs, p, Unloaded), ready.levels[l], l))
      && (forall l, q :: 0 <= l < MAX_PRIO ==> (q in ready.levels[l] <==> q in s.ready.levels[l] && q != p))
  {
    ScanIsStrictPriority(s.ready);
    var l0 := FirstHit(s.ready, 0);
    var q0 := s.ready.levels[l0];
    assert QueueOk(cfg, s.jobs, q0, l0);
    var i := StableMax(q0);
    var (r, ready) := GetMlq(s.ready);
    var p := r.value;
    assert p == q0[i];
    forall q ensures q in Without(q0, i) <==> q in q0 && q != p {
      WithoutKeeps(q0, i, q);
    }
    forall l, q | 0 <= l < MAX_PRIO ensures q in ready.levels[l] <==> q in s.ready.levels[l] && q != p {
      assert QueueOk(cfg, s.jobs, s.ready.levels[l], l);
    }
    forall l | 0 <= l < MAX_PRIO ensures QueueOk(cfg, Move(s.jobs, p, Unloaded), ready.levels[l], l) {
      assert QueueOk(cfg, s.jobs, s.ready.levels[l], l);
      WithoutKeeps(q0, i, p);
      assert forall k :: 0 <= k < |ready.levels[l]| ==> ready.levels[l][k] in ready.levels[l];
    }
  }

  lemma TakenIsReady(cfg: Config, s: Sys)
    requires Inv(cfg, s)
    ensures WellFormed(s.ready)
    ensures var r := GetMlq(s.ready).0; r.Some? ==> r.value.id < |s.jobs| && s.jobs[r.value.id].place.Ready?
  {
    hide JobOk, CpuOk, QueueOk;
    if GetMlq(s.ready).0.Some? { GetTakesOne(cfg, s); }
  }

  /** CPU c takes the process that `get_proc` found. */
  lemma TakesInv(cfg: Config, s: Sys, c: nat, t: Sys)
    requires Inv(cfg, s) && c < |s.cpus| && s.cpus[c].proc.None? && GetMlq(s.ready).0.Some?
    requires var (r, ready) := GetMlq(s.ready);
      t.ready == ready && t.jobs == Move(s.jobs, r.value, OnCpu(c)) && t.ld == s.ld
      && |t.cpus| == |s.cpus| && t.cpus == s.cpus[c := s.cpus[c].(proc := r, sawAll := t.cpus[c].sawAll, pc := Check)]
    ensures Inv(cfg, t)
  {
    var (r, ready) := GetMlq(s.ready);
    var p := r.value;
    assert CpuOk(cfg, s, c);
    GetTakesOne(cfg, s);
    assert JobOk(cfg, s, p.id);
    forall l | 0 <= l < MAX_PRIO ensures QueueOk(cfg, t.jobs, t.ready.levels[l], l) {
      assert QueueOk(cfg, Move(s.jobs, p, Unloaded), ready.levels[l], l);
    }
    MovesOneInv(cfg, s, t, c, p);
  }

  lemma GetsInv(cfg: Config, s: Sys, c: nat)
    requires Inv(cfg, s) && CpuCanMove(s, c) && s.cpus[c].proc.None? && !s.cpus[c].pc.Run?
    ensures Inv(cfg, CpuGets(cfg, s, c))
  {
    var t := CpuGets(cfg, s, c);
    ScanIsStrictPriority(s.ready);
    assert CpuOk(cfg, s, c);
    if GetMlq(s.ready).0.None? { CpuRecordStep(cfg, s, t, c); } else { TakesInv(cfg, s, c, t); }
  }

  /** A process that is on a CPU, finished or not yet loaded is in no queue. */
  lemma NotQueued(cfg: Config, s: Sys, p: Pcb, l: nat)
    requires Inv(cfg, s) && l < MAX_PRIO && p.id < |cfg.procs| && !s.jobs[p.id].place.Ready?
    ensures p !in s.ready.levels[l]
  {
    assert QueueOk(cfg, s.jobs, s.ready.levels[l], l);
  }

  /** Changing the record of a process that is not queued disturbs no queue. */
  lemma QueuesUndisturbed(cfg: Config, s: Sys, p: Pcb, job: Job)
    requires Inv(cfg, s) && p.id < |cfg.procs| && p == cfg.procs[p.id] && !s.jobs[p.id].place.Ready?
    ensures forall l :: 0 <= l < MAX_PRIO ==> QueueOk(cfg, Put(s.jobs, p, job), s.ready.levels[l], l)
  {
    forall l | 0 <= l < MAX_PRIO ensures QueueOk(cfg, Put(s.jobs, p, job), s.ready.levels[l], l) {
      NotQueued(cfg, s, p, l);
      assert QueueOk(cfg, s.jobs, s.ready.levels[l], l);
    }
  }

  /** `enqueue` of a process that is in no queue: it ends up ready, or lost on a full level. */
  lemma PutKeepsQueues(cfg: Config, s: Sys, p: Pcb)
    requires Inv(cfg, s) && p.id < |cfg.procs| && p == cfg.procs[p.id] && !s.jobs[p.id].place.Ready?
    requires p.prio < MAX_PRIO
    ensures var ready, jobs := PutMlq(s.ready, p), Move(s.jobs, p, PlaceAfterPut(s.ready, p));
      && (forall l :: 0 <= l < MAX_PRIO ==> QueueOk(cfg, jobs, ready.levels[l], l))
      && (forall l, q :: 0 <= l < MAX_PRIO && q != p ==> (q in ready.levels[l] <==> q in s.ready.levels[l]))
      && (jobs[p.id].place.Ready? ==> p in ready.levels[p.prio])
  {
    var ready, jobs := PutMlq(s.ready, p), Move(s.jobs, p, PlaceAfterPut(s.ready, p));
    forall l | 0 <= l < MAX_PRIO ensures QueueOk(cfg, jobs, ready.levels[l], l) {
      NotQueued(cfg, s, p, l);
      assert QueueOk(cfg, s.jobs, s.ready.levels[l], l);
    }
  }

  // ---------------------------------------------------------------- the steps

  lemma FreesInv(cfg: Config, s: Sys, c: nat, p: Pcb)
    requires Inv(cfg, s) && CpuCanMove(s, c) && s.cpus[c].proc == Some(p) && s.cpus[c].pc.Top?
    requires JobOf(s.jobs, p).pc == p.size
    ensures Inv(cfg, CpuFrees(s, c, p))
  {
    assert CpuOk(cfg, s, c);
    assert JobOk(cfg, s, p.id);
    QueuesUndisturbed(cfg, s, p, JobOf(s.jobs, p).(place := Finished));
    MovesOneInv(cfg, s, CpuFrees(s, c, p), c, p);
  }

  lemma PutsBackInv(cfg: Config, s: Sys, c: nat, p: Pcb)
    requires Inv(cfg, s) && CpuCanMove(s, c) && s.cpus[c].proc == Some(p) && s.cpus[c].pc.Top?
    requires JobOf(s.jobs, p).pc != p.size && s.cpus[c].timeLeft == 0
    ensures Inv(cfg, CpuPutsBack(s, c, p))
  {
    assert CpuOk(cfg, s, c);
    assert JobOk(cfg, s, p.id);
    PutKeepsQueues(cfg, s, p);
    MovesOneInv(cfg, s, CpuPutsBack(s, c, p), c, p);
  }

  lemma DispatchArithmetic(n: int, ts: int)
    ensures (n + 1) * ts - ts == n * ts
  {
  }

  lemma RechecksInv(cfg: Config, s: Sys, c: nat)
    requires Inv(cfg, s) && CpuCanMove(s, c) && s.cpus[c].pc.Check?
    ensures Inv(cfg, CpuRechecks(cfg, s, c))
  {
    var t := CpuRechecks(cfg, s, c);
    assert CpuOk(cfg, s, c);
    match s.cpus[c].proc
    case None => CpuRecordStep(cfg, s, t, c);
    case Some(p) =>
      assert JobOk(cfg, s, p.id);
      if s.cpus[c].timeLeft == 0 {
        DispatchArithmetic(s.jobs[p.id].dispatches, cfg.timeSlot);
        QueuesUndisturbed(cfg, s, p, t.jobs[p.id]);
        MovesOneInv(cfg, s, t, c, p);
      } else {
        CpuRecordStep(cfg, s, t, c);
      }
  }

  lemma RunsInv(cfg: Config, s: Sys, c: nat, p: Pcb)
    requires Inv(cfg, s) && CpuCanMove(s, c) && s.cpus[c].pc.Run? && s.cpus[c].proc == Some(p)
    ensures Inv(cfg, CpuRuns(s, c, p))
  {
    var t := CpuRuns(s, c, p);
    assert CpuOk(cfg, s, c);
    assert JobOk(cfg, s, p.id);
    QueuesUndisturbed(cfg, s, p, t.jobs[p.id]);
    MovesOneInv(cfg, s, t, c, p);
  }

  lemma CpuStepInv(cfg: Config, s: Sys, c: nat)
    requires Inv(cfg, s) && CpuCanMove(s, c)
    ensures Inv(cfg, CpuStep(cfg, s, c))
  {
    assert CpuOk(cfg, s, c);
    var cpu := s.cpus[c];
    match cpu.pc
    case Top =>
      if cpu.proc.None? { GetsInv(cfg, s, c); }
      else if JobOf(s.jobs, cpu.proc.value).pc == cpu.proc.value.size { FreesInv(cfg, s, c, cpu.proc.value); }
      else if cpu.timeLeft == 0 { PutsBackInv(cfg, s, c, cpu.proc.value); }
      else { CpuRecordStep(cfg, s, CpuStep(cfg, s, c), c); }
    case GetAgain => GetsInv(cfg, s, c);
    case Check => RechecksInv(cfg, s, c);
    case Run => RunsInv(cfg, s, c, cpu.proc.value);
  }

  lemma LoaderStepInv(cfg: Config, s: Sys)
    requires Inv(cfg, s) && LoaderCanMove(cfg, s)
    ensures Inv(cfg, LoaderStep(cfg, s))
  {
    hide Clock.Apply, Clock.Enabled, QueueOk, JobOk, CpuOk, PutMlq;
    if s.ld.pc.AddProc? {
      AddsInv(cfg, s);
    } else {
      SamePicture(cfg, s, LoaderStep(cfg, s));
    }
  }

  lemma AddsInv(cfg: Config, s: Sys)
    requires Inv(cfg, s) && LoaderCanMove(cfg, s) && s.ld.pc.AddProc?
    ensures Inv(cfg, LoaderStep(cfg, s))
  {
    hide Clock.Apply, Clock.Enabled, QueueOk, CpuOk, Enqueued;
    var p := cfg.procs[s.ld.i];
    assert JobOk(cfg, s, p.id);
    PutKeepsQueues(cfg, s, p);
    MovesOneInv(cfg, s, LoaderStep(cfg, s), |s.cpus|, p);
  }

  /** Steps that touch neither queues nor jobs nor CPUs. */
  lemma SamePicture(cfg: Config, s: Sys, t: Sys)
    requires Inv(cfg, s)
    requires t.ready == s.ready && t.jobs == s.jobs && t.cpus == s.cpus && t.ld.i == s.ld.i
    requires t.ld.pc.AddProc? ==> t.ld.i < |cfg.procs|
    ensures Inv(cfg, t)
  {
    forall j | 0 <= j < |t.jobs| ensures JobOk(cfg, t, j) {
      assert JobOk(cfg, s, j);
    }
    forall c | 0 <= c < |t.cpus| ensures CpuOk(cfg, t, c) {
      assert CpuOk(cfg, s, c);
    }
  }

  lemma StepInv(cfg: Config, s: Sys, e: Event)
    requires Inv(cfg, s) && Enabled(cfg, s, e)
    ensures Inv(cfg, Apply(cfg, s, e))
  {
    match e
    case CpuMoves(c) => CpuStepInv(cfg, s, c);
    case LoaderMoves => LoaderStepInv(cfg, s);
    case ClockMoves(a) => SamePicture(cfg, s, Apply(cfg, s, e));
  }
}
