/** The whole simulator as one transition system: the loader thread (`ld_routine`), the CPU
    threads (`cpu_routine`), the ready queues and the clock, with one step for each critical
    section under the queue lock, each access to the shared `done`, and each clock step. */
module Simulator {
  import Clock = Barrier
  import opened ProcQueue
  import opened Scheduler

  /** What the configuration file fixes.  Process i starts at `startTime[i]`. */
  datatype Config = Config(timeSlot: int, numCpus: nat, procs: seq<Pcb>, startTime: seq<nat>)

  ghost predicate ValidConfig(cfg: Config) {
    && |cfg.startTime| == |cfg.procs|
    && forall i :: 0 <= i < |cfg.procs| ==> cfg.procs[i].id == i && cfg.procs[i].prio < MAX_PRIO
  }

  datatype Place = Unloaded | Ready | OnCpu(c: nat) | Finished | Lost

  /** Per process: the program counter, and history — where the process is, how often it was
      dispatched, where its latest slice began, and which instructions ran. */
  datatype Job = Job(pc: nat, place: Place, dispatches: nat, sliceStart: nat, log: seq<nat>)

  /** Where a CPU thread continues.  While its device is inside `next_slot` this is the
      continuation; a CPU steps only when its device is busy. */
  datatype CpuPc =
    | Top       // head of the loop
    | GetAgain  // the get_proc after a process was freed or put back
    | Check     // the recheck that may read `done`
    | Run
    | Stopped

  /** `sawAll` is history: every configured process had been added at the latest get_proc. */
  datatype Cpu = Cpu(pc: CpuPc, proc: Option<Pcb>, timeLeft: int, sawAll: bool)

  datatype LoaderPc = Await | AddProc | Ended

  datatype Loader = Loader(pc: LoaderPc, i: nat)

  /** `addSlot` is history: the clock at each `add_proc`. */
  datatype Sys = Sys(
    clock: Clock.State, ready: Mlq, cpus: seq<Cpu>, ld: Loader, done: bool,
    jobs: seq<Job>, addSlot: seq<nat>)

  // `attach_event` puts new devices in front of the list and the loader attaches last.
  const LOADER_DEVICE: nat := 0

  function CpuDevice(s: Sys, c: nat): nat
    requires c < |s.cpus|
  {
    |s.cpus| - c
  }

  predicate Shaped(s: Sys) {
    && |s.clock.devs| == |s.cpus| + 1
    && Clock.TimerInRange(s.clock)
    && WellFormed(s.ready)
  }

  function CallNextSlot(clock: Clock.State, d: nat): Clock.State
    requires Clock.Enabled(clock, Clock.Enter(d))
  {
    Clock.Apply(clock, Clock.Enter(d))
  }

  function CallDetach(clock: Clock.State, d: nat): Clock.State
    requires Clock.Enabled(clock, Clock.Detach(d))
  {
    Clock.Apply(clock, Clock.Detach(d))
  }

  /** History update for one process; ids are always in range in a reachable state. */
  function Put(jobs: seq<Job>, p: Pcb, job: Job): seq<Job> {
    if p.id < |jobs| then jobs[p.id := job] else jobs
  }

  function JobOf(jobs: seq<Job>, p: Pcb): Job {
    if p.id < |jobs| then jobs[p.id] else Job(0, Unloaded, 0, 0, [])
  }

  function Move(jobs: seq<Job>, p: Pcb, place: Place): seq<Job> {
    Put(jobs, p, JobOf(jobs, p).(place := place))
  }

  /** Where `enqueue` leaves a process: nowhere, if its level is full. */
  function PlaceAfterPut(ready: Mlq, p: Pcb): Place
    requires WellFormed(ready) && p.prio < MAX_PRIO
  {
    if |ready.levels[p.prio]| < MAX_QUEUE_SIZE then Ready else Lost
  }

  // ---------------------------------------------------------------- a CPU thread

  predicate CpuCanMove(s: Sys, c: nat) {
    && Shaped(s) && c < |s.cpus|
    && s.clock.devs[CpuDevice(s, c)].pc.Busy?
    && !s.cpus[c].pc.Stopped?
    && (s.cpus[c].pc.Run? ==> s.cpus[c].proc.Some?)
    && (s.cpus[c].proc.Some? ==> s.cpus[c].proc.value.prio < MAX_PRIO)
  }

  /** `get_proc`; the first one in the loop goes straight to the next slot on failure. */
  function CpuGets(cfg: Config, s: Sys, c: nat): Sys
    requires CpuCanMove(s, c)
  {
    var (r, ready) := GetMlq(s.ready);
    var cpu := s.cpus[c].(proc := r, sawAll := s.ld.i == |cfg.procs|);
    if r.None? && s.cpus[c].pc.Top? then
      s.(ready := ready, cpus := s.cpus[c := cpu],
         clock := CallNextSlot(s.clock, CpuDevice(s, c)))
    else
      s.(ready := ready, cpus := s.cpus[c := cpu.(pc := Check)],
         jobs := if r.Some? then Move(s.jobs, r.value, OnCpu(c)) else s.jobs)
  }

  /** The process has run its last instruction and is freed. */
  function CpuFrees(s: Sys, c: nat, p: Pcb): Sys
    requires CpuCanMove(s, c)
  {
    s.(cpus := s.cpus[c := s.cpus[c].(pc := GetAgain, proc := None, timeLeft := 0)],
       jobs := Move(s.jobs, p, Finished))
  }

  /** `put_proc` */
  function CpuPutsBack(s: Sys, c: nat, p: Pcb): Sys
    requires CpuCanMove(s, c) && p.prio < MAX_PRIO
  {
    s.(ready := PutMlq(s.ready, p),
       cpus := s.cpus[c := s.cpus[c].(pc := GetAgain, proc := None)],
       jobs := Move(s.jobs, p, PlaceAfterPut(s.ready, p)))
  }

  function CpuRechecks(cfg: Config, s: Sys, c: nat): Sys
    requires CpuCanMove(s, c)
  {
    var cpu := s.cpus[c];
    match cpu.proc
    case None =>
      if s.done then
        s.(cpus := s.cpus[c := cpu.(pc := Stopped)], clock := CallDetach(s.clock, CpuDevice(s, c)))
      else
        s.(cpus := s.cpus[c := cpu.(pc := Top)], clock := CallNextSlot(s.clock, CpuDevice(s, c)))
    case Some(p) =>
      if cpu.timeLeft == 0 then
        var job := JobOf(s.jobs, p);
        s.(cpus := s.cpus[c := cpu.(pc := Run, timeLeft := cfg.timeSlot)],
           jobs := Put(s.jobs, p, job.(dispatches := job.dispatches + 1, sliceStart := job.pc)))
      else
        s.(cpus := s.cpus[c := cpu.(pc := Run)])
  }

  /** `run` fetches the instruction at pc and steps pc, or does nothing past the end. */
  function Ran(job: Job, size: nat): Job {
    if job.pc >= size then job else job.(pc := job.pc + 1, log := job.log + [job.pc])
  }

  function CpuRuns(s: Sys, c: nat, p: Pcb): Sys
    requires CpuCanMove(s, c)
  {
    s.(cpus := s.cpus[c := s.cpus[c].(pc := Top, timeLeft := s.cpus[c].timeLeft - 1)],
       jobs := Put(s.jobs, p, Ran(JobOf(s.jobs, p), p.size)),
       clock := CallNextSlot(s.clock, CpuDevice(s, c)))
  }

  function CpuStep(cfg: Config, s: Sys, c: nat): Sys
    requires CpuCanMove(s, c)
  {
    var cpu := s.cpus[c];
    match cpu.pc
    case Top =>
      (match cpu.proc
       case None => CpuGets(cfg, s, c)
       case Some(p) =>
         if JobOf(s.jobs, p).pc == p.size then CpuFrees(s, c, p)
         else if cpu.timeLeft == 0 then CpuPutsBack(s, c, p)
         else s.(cpus := s.cpus[c := cpu.(pc := Check)]))
    case GetAgain => CpuGets(cfg, s, c)
    case Check => CpuRechecks(cfg, s, c)
    case Run => CpuRuns(s, c, cpu.proc.value)
  }

  // ---------------------------------------------------------------- the loader thread

  predicate LoaderCanMove(cfg: Config, s: Sys) {
    && Shaped(s)
    && s.clock.devs[LOADER_DEVICE].pc.Busy?
    && !s.ld.pc.Ended?
    && s.ld.i <= |cfg.procs| == |cfg.startTime|
    && (s.ld.pc.AddProc? ==> s.ld.i < |cfg.procs| && cfg.procs[s.ld.i].prio < MAX_PRIO)
  }

  function LoaderStep(cfg: Config, s: Sys): Sys
    requires LoaderCanMove(cfg, s)
  {
    var i := s.ld.i;
    match s.ld.pc
    case Await =>
      if i == |cfg.procs| then
        s.(done := true, ld := Loader(Ended, i), clock := CallDetach(s.clock, LOADER_DEVICE))
      else if s.clock.time < cfg.startTime[i] then
        s.(clock := CallNextSlot(s.clock, LOADER_DEVICE))
      else
        s.(ld := Loader(AddProc, i))
    case AddProc =>
      var p := cfg.procs[i];
      s.(ready := PutMlq(s.ready, p), ld := Loader(Await, i + 1),
         jobs := Move(s.jobs, p, PlaceAfterPut(s.ready, p)),
         addSlot := s.addSlot + [s.clock.time],
         clock := CallNextSlot(s.clock, LOADER_DEVICE))
  }

  // ---------------------------------------------------------------- runs

  datatype Event = CpuMoves(c: nat) | LoaderMoves | ClockMoves(a: Clock.Action)

  predicate Enabled(cfg: Config, s: Sys, e: Event) {
    match e
    case CpuMoves(c) => CpuCanMove(s, c)
    case LoaderMoves => LoaderCanMove(cfg, s)
    case ClockMoves(a) => Shaped(s) && Clock.Enabled(s.clock, a) && !a.Enter? && !a.Detach?
  }

  function Apply(cfg: Config, s: Sys, e: Event): Sys
    requires Enabled(cfg, s, e)
  {
    match e
    case CpuMoves(c) => CpuStep(cfg, s, c)
    case LoaderMoves => LoaderStep(cfg, s)
    case ClockMoves(a) => s.(clock := Clock.Apply(s.clock, a))
  }

  function Initial(cfg: Config): Sys {
    Sys(Clock.Initial(cfg.numCpus + 1), EmptyMlq(),
        seq(cfg.numCpus, i => Cpu(Top, None, 0, false)), Loader(Await, 0), false,
        seq(|cfg.procs|, i => Job(0, Unloaded, 0, 0, [])), [])
  }

  ghost predicate Next(cfg: Config, s: Sys, t: Sys) {
    exists e :: Enabled(cfg, s, e) && t == Apply(cfg, s, e)
  }

  /** A run: any interleaving of the threads from the start of the simulator. */
  ghost predicate IsRun(cfg: Config, run: seq<Sys>) {
    && ValidConfig(cfg)
    && |run| > 0 && run[0] == Initial(cfg)
    && forall i :: 0 <= i < |run| - 1 ==> Next(cfg, run[i], run[i + 1])
  }
}
