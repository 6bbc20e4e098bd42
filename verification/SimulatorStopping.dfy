/** Which CPUs stop once every process is over: exactly those that are not idle at the head of
    their loop, where `done` is not tested. */
module SimulatorStopping {
  import Clock = Barrier
  import opened ProcQueue
  import opened Scheduler
  import opened Simulator
  import SI = SimulatorInv
  import SC = SimulatorClock
  import ST = SimulatorTheorems

  /** Nothing is left to run. */
  ghost predicate AllOver(s: Sys) {
    forall j :: 0 <= j < |s.jobs| ==> s.jobs[j].place == Finished || s.jobs[j].place == Lost
  }

  predicate IdleAtTop(s: Sys, c: nat) {
    c < |s.cpus| && s.cpus[c].pc.Top? && s.cpus[c].proc.None?
  }

  lemma QueuedMeansReady(cfg: Config, s: Sys, q: seq<Pcb>, l: nat)
    requires |s.jobs| == |cfg.procs| && SI.QueueOk(cfg, s.jobs, q, l)
    ensures q != [] ==> exists j :: 0 <= j < |s.jobs| && s.jobs[j].place == Ready
  {
    if q != [] { assert s.jobs[q[0].id].place == Ready; }
  }

  lemma NothingToGet(cfg: Config, s: Sys)
    requires SI.Inv(cfg, s) && AllOver(s)
    ensures WellFormed(s.ready) && GetMlq(s.ready).0.None? && s.ld.i == |cfg.procs|
    ensures forall c :: 0 <= c < |s.cpus| ==> s.cpus[c].proc.None?
  {
    hide GetMlq;
    ScanIsStrictPriority(s.ready);
    forall l | 0 <= l < MAX_PRIO ensures s.ready.levels[l] == [] {
      assert SI.QueueOk(cfg, s.jobs, s.ready.levels[l], l);
      QueuedMeansReady(cfg, s, s.ready.levels[l], l);
    }
    forall c | 0 <= c < |s.cpus| ensures s.cpus[c].proc.None? {
      assert SI.CpuOk(cfg, s, c);
    }
    assert s.ld.i < |cfg.procs| ==> SI.JobOk(cfg, s, s.ld.i);
  }

  lemma IdleStep(cfg: Config, s: Sys, e: Event, c: nat)
    requires SI.Inv(cfg, s) && AllOver(s) && IdleAtTop(s, c) && Enabled(cfg, s, e)
    ensures AllOver(Apply(cfg, s, e)) && IdleAtTop(Apply(cfg, s, e), c)
  {
    hide GetMlq, PutMlq, SI.Inv, Clock.Apply, Clock.DeviceCanMove, Clock.TimerCanMove, Ran;
    NothingToGet(cfg, s);
  }

  /** A CPU on its way out: `done` is set and the CPU is past the head of its loop. */
  predicate Ending(s: Sys, c: nat) {
    c < |s.cpus| && s.done && !IdleAtTop(s, c)
  }

  /** How many steps of its own a CPU without a process is away from having stopped. */
  function ToStop(cpu: Cpu): nat {
    match cpu.pc
    case GetAgain => 2
    case Check => 1
    case _ => 0
  }

  lemma EndingMoves(cfg: Config, s: Sys, c: nat)
    requires SI.Inv(cfg, s) && SC.Inv(cfg, s) && AllOver(s) && Ending(s, c)
    ensures ToStop(s.cpus[c]) == 0 <==> s.cpus[c].pc.Stopped?
    ensures s.cpus[c].pc.Stopped? || Enabled(cfg, s, CpuMoves(c))
  {
    hide GetMlq, Clock.Inv;
    NothingToGet(cfg, s);
    assert SI.CpuOk(cfg, s, c);
    assert SC.CpuClockOk(cfg, s, c);
  }

  lemma EndingStep(cfg: Config, s: Sys, e: Event, c: nat)
    requires SI.Inv(cfg, s) && AllOver(s) && Ending(s, c) && Enabled(cfg, s, e)
    ensures AllOver(Apply(cfg, s, e)) && Ending(Apply(cfg, s, e), c)
    ensures ToStop(Apply(cfg, s, e).cpus[c]) + (if e == CpuMoves(c) then 1 else 0) == ToStop(s.cpus[c])
  {
    hide GetMlq, PutMlq, SI.Inv, Clock.Apply, Clock.DeviceCanMove, Clock.TimerCanMove, Ran;
    assert SI.CpuOk(cfg, s, c) by { CpuFact(cfg, s, c); }
    NothingToGet(cfg, s);
  }

  lemma CpuFact(cfg: Config, s: Sys, c: nat)
    requires SI.Inv(cfg, s) && c < |s.cpus|
    ensures |s.jobs| == |cfg.procs| && SI.CpuOk(cfg, s, c)
  {
    hide SI.CpuOk;
  }

  // ---------------------------------------------------------------- continuations

  /** The events can happen one after the other, from state s on. */
  predicate CanPlay(cfg: Config, s: Sys, es: seq<Event>)
    decreases |es|
  {
    es == [] || (Enabled(cfg, s, es[0]) && CanPlay(cfg, Apply(cfg, s, es[0]), es[1..]))
  }

  function Play(cfg: Config, s: Sys, es: seq<Event>): Sys
    requires CanPlay(cfg, s, es)
    decreases |es|
  {
    if es == [] then s else Play(cfg, Apply(cfg, s, es[0]), es[1..])
  }

  function OwnSteps(es: seq<Event>, c: nat): nat {
    if es == [] then 0 else (if es[0] == CpuMoves(c) then 1 else 0) + OwnSteps(es[1..], c)
  }

  lemma {:induction false} IdlePlay(cfg: Config, s: Sys, es: seq<Event>, c: nat)
    requires SI.Inv(cfg, s) && AllOver(s) && IdleAtTop(s, c) && CanPlay(cfg, s, es)
    ensures IdleAtTop(Play(cfg, s, es), c)
    decreases |es|
  {
    hide Apply, Enabled, SI.Inv, AllOver, IdleAtTop;
    if es != [] {
      IdleStep(cfg, s, es[0], c);
      SI.StepInv(cfg, s, es[0]);
      IdlePlay(cfg, Apply(cfg, s, es[0]), es[1..], c);
    }
  }

  lemma {:induction false} EndingPlay(cfg: Config, s: Sys, es: seq<Event>, c: nat)
    requires SI.Inv(cfg, s) && SC.Inv(cfg, s) && AllOver(s) && Ending(s, c) && CanPlay(cfg, s, es)
    ensures var t := Play(cfg, s, es);
      && c < |t.cpus| && OwnSteps(es, c) + ToStop(t.cpus[c]) == ToStop(s.cpus[c])
      && (ToStop(t.cpus[c]) == 0 <==> t.cpus[c].pc.Stopped?)
      && (t.cpus[c].pc.Stopped? || Enabled(cfg, t, CpuMoves(c)))
    decreases |es|
  {
    hide Apply, Enabled, SI.Inv, SC.Inv, AllOver, IdleAtTop, ToStop;
    if es == [] {
      EndingMoves(cfg, s, c);
    } else {
      EndingStep(cfg, s, es[0], c);
      SI.StepInv(cfg, s, es[0]);
      SC.StepInv(cfg, s, es[0]);
      EndingPlay(cfg, Apply(cfg, s, es[0]), es[1..], c);
    }
  }

  /** Its own steps alone take an ending CPU out. */
  lemma {:induction false} OwnWayOut(cfg: Config, s: Sys, c: nat) returns (es: seq<Event>)
    requires SI.Inv(cfg, s) && SC.Inv(cfg, s) && AllOver(s) && Ending(s, c)
    ensures CanPlay(cfg, s, es) && OwnSteps(es, c) == ToStop(s.cpus[c])
    decreases ToStop(s.cpus[c])
  {
    hide Apply, Enabled, SI.Inv, SC.Inv, AllOver, IdleAtTop, ToStop;
    EndingMoves(cfg, s, c);
    if ToStop(s.cpus[c]) == 0 {
      es := [];
    } else {
      EndingStep(cfg, s, CpuMoves(c), c);
      SI.StepInv(cfg, s, CpuMoves(c));
      SC.StepInv(cfg, s, CpuMoves(c));
      var rest := OwnWayOut(cfg, Apply(cfg, s, CpuMoves(c)), c);
      es := [CpuMoves(c)] + rest;
      assert es[1..] == rest;
    }
  }

  // ---------------------------------------------------------------- which CPUs stop

  ghost predicate CanStop(cfg: Config, s: Sys, c: nat) {
    exists es :: CanPlay(cfg, s, es) && c < |Play(cfg, s, es).cpus| && Play(cfg, s, es).cpus[c].pc.Stopped?
  }

  /** However the threads go on, the CPU is at any time stopped or able to move, and has stopped
      as soon as it has taken two steps of its own, which is all it ever takes. */
  ghost predicate MustStop(cfg: Config, s: Sys, c: nat) {
    forall es :: CanPlay(cfg, s, es) ==>
      var t := Play(cfg, s, es);
      && c < |t.cpus| && OwnSteps(es, c) <= 2
      && (t.cpus[c].pc.Stopped? || Enabled(cfg, t, CpuMoves(c)))
      && (OwnSteps(es, c) == 2 ==> t.cpus[c].pc.Stopped?)
  }

  lemma IdleStays(cfg: Config, s: Sys, c: nat)
    requires SI.Inv(cfg, s) && AllOver(s) && IdleAtTop(s, c)
    ensures !CanStop(cfg, s, c)
  {
    hide Apply, Enabled, SI.Inv, AllOver, CanPlay, Play;
    forall es | CanPlay(cfg, s, es) ensures !(c < |Play(cfg, s, es).cpus| && Play(cfg, s, es).cpus[c].pc.Stopped?) {
      IdlePlay(cfg, s, es, c);
    }
  }

  lemma EndingStops(cfg: Config, s: Sys, c: nat)
    requires SI.Inv(cfg, s) && SC.Inv(cfg, s) && AllOver(s) && Ending(s, c)
    ensures CanStop(cfg, s, c) && MustStop(cfg, s, c)
  {
    hide Apply, Enabled, SI.Inv, SC.Inv, AllOver, CanPlay, Play, OwnSteps, IdleAtTop;
    forall es | CanPlay(cfg, s, es)
      ensures var t := Play(cfg, s, es);
        && c < |t.cpus| && OwnSteps(es, c) <= 2
        && (t.cpus[c].pc.Stopped? || Enabled(cfg, t, CpuMoves(c)))
        && (OwnSteps(es, c) == 2 ==> t.cpus[c].pc.Stopped?)
    {
      EndingPlay(cfg, s, es, c);
    }
    var es := OwnWayOut(cfg, s, c);
    EndingPlay(cfg, s, es, c);
  }

  /** In every reachable state with every process over and `done` set: a CPU idle at the head of
      its loop stops in no continuation, and any other stops in all of them. */
  lemma CpuStopsIff(cfg: Config, run: seq<Sys>, i: nat, c: nat)
    requires IsRun(cfg, run) && i < |run| && AllOver(run[i]) && run[i].done && c < |run[i].cpus|
    ensures CanStop(cfg, run[i], c) <==> !IdleAtTop(run[i], c)
    ensures !IdleAtTop(run[i], c) ==> MustStop(cfg, run[i], c)
  {
    hide Apply, Enabled, SI.Inv, SC.Inv, AllOver, CanPlay, Play, OwnSteps;
    ST.RunInv(cfg, run, i);
    var s := run[i];
    if IdleAtTop(s, c) {
      IdleStays(cfg, s, c);
    } else {
      EndingStops(cfg, s, c);
    }
  }

  /** With no process configured the loader sets `done` at once: a run of one step after which
      CPU 0 is idle at the head of its loop, so the program never ends. */
  lemma NeverEndingRun(cfg: Config)
    requires ValidConfig(cfg) && cfg.procs == [] && cfg.numCpus >= 1
    ensures Enabled(cfg, Initial(cfg), LoaderMoves)
    ensures var t := Apply(cfg, Initial(cfg), LoaderMoves);
      && IsRun(cfg, [Initial(cfg), t]) && AllOver(t) && t.done && IdleAtTop(t, 0)
      && !CanStop(cfg, t, 0)
  {
    hide GetMlq, Clock.Apply, CanStop, MustStop;
    var s := Initial(cfg);
    assert Enabled(cfg, s, LoaderMoves);
    var t := Apply(cfg, s, LoaderMoves);
    assert Next(cfg, s, t);
    CpuStopsIff(cfg, [s, t], 1, 0);
  }
}
