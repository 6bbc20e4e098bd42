/** The 140 array queues with their cyclic scan refine one list in arrival order from which
    the best process is taken: lowest `prio`, then highest `priority`, then earliest arrival. */
module SelectionOrder {
  import opened ProcQueue
  import opened Scheduler

  /** One critical section under the queue lock. */
  datatype Op = Add(p: Pcb) | Take

  ghost predicate ValidOps(ops: seq<Op>) {
    forall i :: 0 <= i < |ops| && ops[i].Add? ==> ops[i].p.prio < MAX_PRIO
  }

  // ---------------------------------------------------------------- the reference scheduler

  predicate Before(a: Pcb, b: Pcb) {
    a.prio < b.prio || (a.prio == b.prio && a.priority > b.priority)
  }

  ghost predicate IsBest(pool: seq<Pcb>, i: nat) {
    && i < |pool|
    && (forall j :: 0 <= j < |pool| ==> !Before(pool[j], pool[i]))
    && (forall j :: 0 <= j < i ==> Before(pool[i], pool[j]))
  }

  function Best(pool: seq<Pcb>): (i: nat)
    requires pool != []
    ensures IsBest(pool, i)
  {
    if |pool| == 1 then 0
    else
      var best := Best(pool[..|pool| - 1]);
      assert pool[..|pool| - 1][best] == pool[best];
      assert forall j :: 0 <= j < |pool| - 1 ==> pool[..|pool| - 1][j] == pool[j];
      if Before(pool[|pool| - 1], pool[best]) then |pool| - 1 else best
  }

  /** The members of one level, in arrival order. */
  function OfLevel(pool: seq<Pcb>, level: nat): seq<Pcb> {
    if pool == [] then []
    else OfLevel(pool[..|pool| - 1], level) +
         (if pool[|pool| - 1].prio == level then [pool[|pool| - 1]] else [])
  }

  function PoolAdd(pool: seq<Pcb>, p: Pcb): seq<Pcb> {
    if |OfLevel(pool, p.prio)| < MAX_QUEUE_SIZE then pool + [p] else pool
  }

  function PoolTake(pool: seq<Pcb>): (Option<Pcb>, seq<Pcb>) {
    if pool == [] then (None, []) else (Some(pool[Best(pool)]), Without(pool, Best(pool)))
  }

  /** What the `Take`s of a run hand out, and the pool it leaves. */
  function RunPool(ops: seq<Op>): (seq<Option<Pcb>>, seq<Pcb>) {
    if ops == [] then ([], [])
    else
      var (outs, pool) := RunPool(ops[..|ops| - 1]);
      match ops[|ops| - 1]
      case Add(p) => (outs, PoolAdd(pool, p))
      case Take => var (r, rest) := PoolTake(pool); (outs + [r], rest)
  }

  /** The same run on the queues of the source, from `init_scheduler`. */
  ghost function RunMlq(ops: seq<Op>): (r: (seq<Option<Pcb>>, Mlq))
    requires ValidOps(ops)
    ensures WellFormed(r.1)
  {
    if ops == [] then ([], EmptyMlq())
    else
      var (outs, m) := RunMlq(ops[..|ops| - 1]);
      match ops[|ops| - 1]
      case Add(p) => (outs, PutMlq(m, p))
      case Take => var (r, m') := GetMlq(m); (outs + [r], m')
  }

  // ---------------------------------------------------------------- refinement

  lemma {:induction false} OfLevelConcat(a: seq<Pcb>, b: seq<Pcb>, level: nat)
    ensures OfLevel(a + b, level) == OfLevel(a, level) + OfLevel(b, level)
  {
    if b == [] {
      assert a + b == a;
    } else {
      assert (a + b)[..|a + b| - 1] == a + b[..|b| - 1];
      OfLevelConcat(a, b[..|b| - 1], level);
    }
  }

  lemma {:induction false} OfLevelMembers(pool: seq<Pcb>, level: nat)
    ensures forall k :: 0 <= k < |OfLevel(pool, level)| ==>
      OfLevel(pool, level)[k].prio == level && OfLevel(pool, level)[k] in pool
  {
    if pool != [] {
      OfLevelMembers(pool[..|pool| - 1], level);
    }
  }

  lemma {:induction false} OfLevelEmpty(pool: seq<Pcb>, level: nat)
    requires forall j :: 0 <= j < |pool| ==> pool[j].prio != level
    ensures OfLevel(pool, level) == []
  {
    if pool != [] { OfLevelEmpty(pool[..|pool| - 1], level); }
  }

  /** Every level splits at a pool position. */
  lemma OfLevelAround(pool: seq<Pcb>, i: nat, level: nat)
    requires i < |pool|
    ensures OfLevel(pool, level) ==
      OfLevel(pool[..i], level) + (if pool[i].prio == level then [pool[i]] else []) + OfLevel(pool[i + 1..], level)
    ensures OfLevel(Without(pool, i), level) == OfLevel(pool[..i], level) + OfLevel(pool[i + 1..], level)
  {
    assert pool == pool[..i] + [pool[i]] + pool[i + 1..];
    OfLevelConcat(pool[..i] + [pool[i]], pool[i + 1..], level);
    OfLevelConcat(pool[..i], [pool[i]], level);
    assert [pool[i]][..0] == [];
    OfLevelConcat(pool[..i], pool[i + 1..], level);
  }

  ghost predicate Refines(m: Mlq, pool: seq<Pcb>) {
    && WellFormed(m) && m.currentPrio == 0
    && (forall l :: 0 <= l < MAX_PRIO ==> m.levels[l] == OfLevel(pool, l))
    && (forall j :: 0 <= j < |pool| ==> pool[j].prio < MAX_PRIO)
  }

  /** The pool's best process sits in the lowest non-empty level, at that level's stable maximum. */
  lemma BestInItsLevel(m: Mlq, pool: seq<Pcb>)
    requires Refines(m, pool) && pool != []
    ensures var i := Best(pool); var level, k := pool[i].prio, |OfLevel(pool[..i], pool[i].prio)|;
      && LowestLevel(m.levels, level)
      && IsStableMax(m.levels[level], k) && m.levels[level][k] == pool[i]
  {
    var i := Best(pool);
    var level, k := pool[i].prio, |OfLevel(pool[..i], pool[i].prio)|;
    OfLevelAround(pool, i, level);
    OfLevelMembers(pool, level);
    OfLevelMembers(pool[..i], level);
    forall l: nat | l < level ensures m.levels[l] == [] {
      OfLevelEmpty(pool, l);
    }
    forall j: nat | j < k ensures m.levels[level][j].priority < pool[i].priority {
      assert m.levels[level][j] == OfLevel(pool[..i], level)[j];
    }
  }

  /** Taking the best from the pool takes the stable maximum from its level and nothing else. */
  lemma TakeByLevel(pool: seq<Pcb>, l: nat)
    requires pool != []
    ensures var i := Best(pool); var k := |OfLevel(pool[..i], pool[i].prio)|;
      && k < |OfLevel(pool, pool[i].prio)|
      && OfLevel(Without(pool, i), l) ==
         if l == pool[i].prio then Without(OfLevel(pool, l), k) else OfLevel(pool, l)
  {
    var i := Best(pool);
    OfLevelAround(pool, i, l);
    OfLevelAround(pool, i, pool[i].prio);
  }

  lemma TakeRefines(m: Mlq, pool: seq<Pcb>)
    requires Refines(m, pool)
    ensures GetMlq(m).0 == PoolTake(pool).0 && Refines(GetMlq(m).1, PoolTake(pool).1)
  {
    ScanIsStrictPriority(m);
    if pool != [] {
      var i := Best(pool);
      var level, k := pool[i].prio, |OfLevel(pool[..i], pool[i].prio)|;
      BestInItsLevel(m, pool);
      StableMaxUnique(m.levels[level], k);
      forall l: nat | l < MAX_PRIO ensures GetMlq(m).1.levels[l] == OfLevel(PoolTake(pool).1, l) {
        TakeByLevel(pool, l);
      }
    }
  }

  lemma {:induction false} AddRefines(m: Mlq, pool: seq<Pcb>, p: Pcb)
    requires Refines(m, pool) && p.prio < MAX_PRIO
    ensures Refines(PutMlq(m, p), PoolAdd(pool, p))
  {
    assert (pool + [p])[..|pool|] == pool;
  }

  /** Over every run of additions and removals the queues hand out exactly what the
      arrival-ordered list hands out, and hold the same processes level by level. */
  lemma {:induction false} QueuesRefineArrivalOrder(ops: seq<Op>)
    requires ValidOps(ops)
    ensures RunMlq(ops).0 == RunPool(ops).0
    ensures Refines(RunMlq(ops).1, RunPool(ops).1)
  {
    if ops != [] {
      var init := ops[..|ops| - 1];
      QueuesRefineArrivalOrder(init);
      match ops[|ops| - 1]
      case Add(p) => AddRefines(RunMlq(init).1, RunPool(init).1, p);
      case Take => TakeRefines(RunMlq(init).1, RunPool(init).1);
    }
  }

  // ---------------------------------------------------------------- when nothing is dropped

  predicate OnlyAdds(ops: seq<Op>) {
    forall i :: 0 <= i < |ops| ==> ops[i].Add?
  }

  function Added(ops: seq<Op>): seq<Pcb>
    requires OnlyAdds(ops)
  {
    if ops == [] then [] else Added(ops[..|ops| - 1]) + [ops[|ops| - 1].p]
  }

  lemma {:induction false} AtMostTen(ops: seq<Op>, level: nat)
    requires OnlyAdds(ops)
    ensures |OfLevel(RunPool(ops).1, level)| <= MAX_QUEUE_SIZE
  {
    if ops != [] {
      AtMostTen(ops[..|ops| - 1], level);
      var pool, p := RunPool(ops[..|ops| - 1]).1, ops[|ops| - 1].p;
      assert (pool + [p])[..|pool|] == pool;
    }
  }

  /** Additions alone are all kept, in order, exactly when no level is given more than ten. */
  lemma {:induction false} AddsKeptIff(ops: seq<Op>)
    requires OnlyAdds(ops)
    ensures RunPool(ops).1 == Added(ops) <==>
      forall level: nat :: |OfLevel(Added(ops), level)| <= MAX_QUEUE_SIZE
  {
    if RunPool(ops).1 == Added(ops) {
      forall level: nat ensures |OfLevel(Added(ops), level)| <= MAX_QUEUE_SIZE { AtMostTen(ops, level); }
    } else {
      LastDropped(ops);
    }
  }

  /** If something was dropped, some level was given more than ten. */
  lemma {:induction false} LastDropped(ops: seq<Op>)
    requires OnlyAdds(ops) && RunPool(ops).1 != Added(ops)
    ensures exists level: nat :: |OfLevel(Added(ops), level)| > MAX_QUEUE_SIZE
  {
    var init, p := ops[..|ops| - 1], ops[|ops| - 1].p;
    assert (Added(init) + [p])[..|Added(init)|] == Added(init);
    if RunPool(init).1 == Added(init) {
      assert |OfLevel(Added(ops), p.prio)| > MAX_QUEUE_SIZE;
    } else {
      LastDropped(init);
      var level: nat :| |OfLevel(Added(init), level)| > MAX_QUEUE_SIZE;
      assert |OfLevel(Added(ops), level)| > MAX_QUEUE_SIZE;
    }
  }
}
