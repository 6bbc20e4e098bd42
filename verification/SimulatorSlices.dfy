/** Preemption: a process starts each slice after its first from the ready queue, so a CPU never
    gives a process two slices in a row without putting it back. */
module SimulatorSlices {
  import Clock = Barrier
  import opened ProcQueue
  import opened Scheduler
  import opened Simulator
  import SI = SimulatorInv
  import SC = SimulatorClock
  import ST = SimulatorTheorems

  /** Process j is on a CPU that has begun its slice and not given the process up since. */
  ghost predicate InSlice(s: Sys, j: nat) {
    && j < |s.jobs| && s.jobs[j].place.OnCpu?
    && var c := s.jobs[j].place.c;
      c < |s.cpus| && s.cpus[c].proc.Some? && s.cpus[c].proc.value.id == j
      && (s.cpus[c].pc.Run? || s.cpus[c].pc.Top? || (s.cpus[c].pc.Check? && s.cpus[c].timeLeft != 0))
  }

  /** Process j is over: it is in no queue and on no CPU, and will not be again. */
  ghost predicate Done(s: Sys, j: nat) {
    j < |s.jobs| && (s.jobs[j].place.Finished? || s.jobs[j].place.Lost?)
  }

  ghost predicate IsReady(s: Sys, j: nat) {
    j < |s.jobs| && s.jobs[j].place.Ready?
  }

  function Dispatches(s: Sys, j: nat): nat {
    if j < |s.jobs| then s.jobs[j].dispatches else 0
  }

  /** The step of CPU c touches the process it holds, or the one it takes from a queue, only. */
  lemma OtherJobs(cfg: Config, s: Sys, c: nat, j: nat)
    requires SI.Inv(cfg, s) && CpuCanMove(s, c) && j < |s.jobs|
    requires s.cpus[c].proc.Some? ==> s.cpus[c].proc.value.id != j
    requires !s.jobs[j].place.Ready?
    ensures |CpuStep(cfg, s, c).jobs| == |s.jobs| && CpuStep(cfg, s, c).jobs[j] == s.jobs[j]
  {
    hide GetMlq, PutMlq, Clock.Apply, Clock.Enabled, Ran;
    SI.TakenIsReady(cfg, s);
  }

  /** A process in its slice stays in it, without another dispatch, until it is put back or over. */
  lemma InSliceStep(cfg: Config, s: Sys, e: Event, j: nat)
    requires SI.Inv(cfg, s) && Enabled(cfg, s, e) && InSlice(s, j)
    ensures var t := Apply(cfg, s, e);
      IsReady(t, j) || Done(t, j) || (InSlice(t, j) && Dispatches(t, j) == Dispatches(s, j))
  {
    hide GetMlq, PutMlq, Clock.Apply, Clock.Enabled, SI.JobOk;
    match e
    case CpuMoves(c) =>
      assert SI.CpuOk(cfg, s, c);
      assert SI.CpuOk(cfg, s, s.jobs[j].place.c);
      if c != s.jobs[j].place.c {
        OtherJobs(cfg, s, c, j);
        OthersKeep(cfg, s, c, s.jobs[j].place.c);
      }
    case LoaderMoves => LoadedIsNew(cfg, s, j);
    case ClockMoves(a) =>
  }

  lemma OthersKeep(cfg: Config, s: Sys, c: nat, d: nat)
    requires CpuCanMove(s, c) && d < |s.cpus| && c != d
    ensures |CpuStep(cfg, s, c).cpus| == |s.cpus| && CpuStep(cfg, s, c).cpus[d] == s.cpus[d]
  {
    hide GetMlq, PutMlq, Clock.Apply, Clock.Enabled, JobOf;
  }

  lemma LoadedIsNew(cfg: Config, s: Sys, j: nat)
    requires SI.Inv(cfg, s) && LoaderCanMove(cfg, s) && j < |s.jobs| && !s.jobs[j].place.Unloaded?
    ensures var t := LoaderStep(cfg, s); |t.jobs| == |s.jobs| && t.jobs[j] == s.jobs[j] && t.cpus == s.cpus
  {
    hide PutMlq, Clock.Apply, Clock.Enabled;
    assert SI.JobOk(cfg, s, j);
  }

  lemma DoneStays(cfg: Config, s: Sys, e: Event, j: nat)
    requires SI.Inv(cfg, s) && Enabled(cfg, s, e) && Done(s, j)
    ensures var t := Apply(cfg, s, e); Done(t, j) && Dispatches(t, j) == Dispatches(s, j)
  {
    hide GetMlq, PutMlq, Clock.Apply, Clock.Enabled, SI.JobOk;
    match e
    case CpuMoves(c) =>
      assert SI.CpuOk(cfg, s, c);
      OtherJobs(cfg, s, c, j);
    case LoaderMoves => LoadedIsNew(cfg, s, j);
    case ClockMoves(a) =>
  }

  /** The step that dispatches a process puts it into its slice, and the process was not in one. */
  lemma DispatchStep(cfg: Config, s: Sys, e: Event, j: nat)
    requires SI.Inv(cfg, s) && Enabled(cfg, s, e) && Dispatches(Apply(cfg, s, e), j) > Dispatches(s, j)
    ensures InSlice(Apply(cfg, s, e), j) && !InSlice(s, j) && !Done(s, j)
  {
    hide GetMlq, PutMlq, Clock.Apply, Clock.Enabled, SI.JobOk, SI.QueueOk;
    match e
    case CpuMoves(c) => assert SI.CpuOk(cfg, s, c);
    case LoaderMoves =>
    case ClockMoves(a) =>
  }

  /** From a slice on: as long as the process has not been back in the queue, it is still in that
      slice or over, with no further dispatch. */
  lemma {:induction false} SameSlice(cfg: Config, run: seq<Sys>, i: nat, j: nat, p: nat)
    requires IsRun(cfg, run) && i <= j < |run| && (InSlice(run[i], p) || Done(run[i], p))
    requires forall k :: i <= k <= j ==> !IsReady(run[k], p)
    ensures InSlice(run[j], p) || Done(run[j], p)
    ensures Done(run[i], p) ==> Done(run[j], p)
    ensures Done(run[j], p) || Dispatches(run[j], p) == Dispatches(run[i], p)
    decreases j - i
  {
    hide Apply, Enabled, SI.Inv, SC.Inv, InSlice, Done, IsReady;
    if i < j {
      ST.RunInv(cfg, run, i);
      assert Next(cfg, run[i], run[i + 1]);
      var e :| Enabled(cfg, run[i], e) && run[i + 1] == Apply(cfg, run[i], e);
      if Done(run[i], p) { DoneStays(cfg, run[i], e, p); } else { InSliceStep(cfg, run[i], e, p); }
      SameSlice(cfg, run, i + 1, j, p);
    }
  }

  /** Process p is dispatched by the step from state i. */
  ghost predicate DispatchedAt(run: seq<Sys>, i: nat, p: nat) {
    i + 1 < |run| && Dispatches(run[i + 1], p) > Dispatches(run[i], p)
  }

  lemma DispatchAt(cfg: Config, run: seq<Sys>, i: nat, p: nat)
    requires IsRun(cfg, run) && DispatchedAt(run, i, p)
    ensures InSlice(run[i + 1], p) && !InSlice(run[i], p) && !Done(run[i], p)
  {
    hide Apply, Enabled, SI.Inv, SC.Inv, InSlice, Done;
    ST.RunInv(cfg, run, i);
    assert Next(cfg, run[i], run[i + 1]);
    var e :| Enabled(cfg, run[i], e) && run[i + 1] == Apply(cfg, run[i], e);
    DispatchStep(cfg, run[i], e, p);
  }

  /** Between two dispatches of a process, on whatever CPUs, it was back in the ready queue. */
  lemma SlicesStartFromQueue(cfg: Config, run: seq<Sys>, i: nat, j: nat, p: nat)
    requires IsRun(cfg, run) && i < j && DispatchedAt(run, i, p) && DispatchedAt(run, j, p)
    ensures exists k :: i < k <= j && IsReady(run[k], p)
  {
    hide Apply, Enabled, InSlice, Done, IsReady;
    DispatchAt(cfg, run, i, p);
    DispatchAt(cfg, run, j, p);
    if forall k :: i < k <= j ==> !IsReady(run[k], p) {
      SameSlice(cfg, run, i + 1, j, p);
    }
  }
}
