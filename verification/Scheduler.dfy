/** The multi-level ready queue: 140 bounded queues and the stateful cyclic scan
    (`init_scheduler`, `get_mlq_proc`, `put_mlq_proc`, `add_mlq_proc`). */
module Scheduler {
  import opened ProcQueue

  const MAX_PRIO: nat := 140

  /** `currentPrio` is the static variable inside `get_mlq_proc`. */
  datatype Mlq = Mlq(levels: seq<seq<Pcb>>, currentPrio: nat)

  predicate WellFormed(m: Mlq) {
    |m.levels| == MAX_PRIO && m.currentPrio < MAX_PRIO
  }

  function EmptyMlq(): Mlq {
    Mlq(seq(MAX_PRIO, i => []), 0)
  }

  /** The level an attempt looks at: the scan goes round from `currentPrio`. */
  function LevelAt(m: Mlq, attempt: nat): (prio: nat)
    requires WellFormed(m) && attempt < MAX_PRIO
    ensures prio == if m.currentPrio + attempt < MAX_PRIO then m.currentPrio + attempt
                    else m.currentPrio + attempt - MAX_PRIO
  {
    (m.currentPrio + attempt) % MAX_PRIO
  }

  predicate EmptyAt(m: Mlq, attempt: nat)
    requires WellFormed(m) && attempt < MAX_PRIO
  {
    m.levels[LevelAt(m, attempt)] == []
  }

  /** The first attempt, from `attempt` on, whose level is not empty; MAX_PRIO if there is none. */
  function FirstHit(m: Mlq, attempt: nat): (hit: nat)
    requires WellFormed(m) && attempt <= MAX_PRIO
    ensures attempt <= hit <= MAX_PRIO
    ensures hit < MAX_PRIO ==> !EmptyAt(m, hit)
    ensures forall a: nat :: attempt <= a < hit ==> EmptyAt(m, a)
    decreases MAX_PRIO - attempt
  {
    if attempt == MAX_PRIO || !EmptyAt(m, attempt) then attempt else FirstHit(m, attempt + 1)
  }

  /** One call of `get_mlq_proc`: the slot budget is recomputed from `currentPrio` each time,
      and a level out of budget only moves `currentPrio` on. */
  function GetMlq(m: Mlq): (r: (Option<Pcb>, Mlq))
    requires WellFormed(m)
    ensures WellFormed(r.1)
  {
    var hit := FirstHit(m, 0);
    if hit == MAX_PRIO then (None, m)
    else
      var prio := LevelAt(m, hit);
      if MAX_PRIO - m.currentPrio - hit > 0 then
        (Dequeued(m.levels[prio]).0, m.(levels := m.levels[prio := Dequeued(m.levels[prio]).1]))
      else (None, m.(currentPrio := (prio + 1) % MAX_PRIO))
  }

  /** `put_mlq_proc` and `add_mlq_proc` do the same thing. */
  function PutMlq(m: Mlq, p: Pcb): (r: Mlq)
    requires WellFormed(m) && p.prio < MAX_PRIO
    ensures WellFormed(r)
  {
    m.(levels := m.levels[p.prio := Enqueued(m.levels[p.prio], p)])
  }

  lemma FirstHitIs(m: Mlq, hit: nat)
    requires WellFormed(m) && hit <= MAX_PRIO
    requires forall a: nat :: a < hit ==> EmptyAt(m, a)
    requires hit < MAX_PRIO ==> !EmptyAt(m, hit)
    ensures FirstHit(m, 0) == hit
  {
  }

  lemma LevelOfAttempt(m: Mlq, attempt: nat)
    requires WellFormed(m) && attempt < MAX_PRIO
    ensures EmptyAt(m, attempt) <==> m.levels[(m.currentPrio + attempt) % MAX_PRIO] == []
  {
  }

  // ---------------------------------------------------------------- what the scan achieves

  predicate LowestLevel(levels: seq<seq<Pcb>>, prio: nat) {
    && prio < |levels| && levels[prio] != []
    && forall l :: 0 <= l < prio ==> levels[l] == []
  }

  predicate NoneReady(m: Mlq) {
    forall l :: 0 <= l < |m.levels| ==> m.levels[l] == []
  }

  /** The scan meets every level, and meets level l at its own attempt. */
  lemma PassedLevelIsEmpty(m: Mlq, l: nat)
    requires WellFormed(m) && l < MAX_PRIO
    requires (if l >= m.currentPrio then l - m.currentPrio else l + MAX_PRIO - m.currentPrio) < FirstHit(m, 0)
    ensures m.levels[l] == []
  {
    var a := if l >= m.currentPrio then l - m.currentPrio else l + MAX_PRIO - m.currentPrio;
    assert EmptyAt(m, a);
  }

  /** From `currentPrio == 0` the scan serves the lowest-numbered non-empty level, returns
      nothing only when every level is empty, touches no other level, and leaves
      `currentPrio` at 0: the wrap branch is never taken. */
  lemma ScanIsStrictPriority(m: Mlq)
    requires WellFormed(m) && m.currentPrio == 0
    ensures GetMlq(m).1.currentPrio == 0
    ensures GetMlq(m).0.None? <==> NoneReady(m)
    ensures NoneReady(m) ==> GetMlq(m).1 == m
    ensures forall prio: nat :: LowestLevel(m.levels, prio) ==>
      GetMlq(m) == (Dequeued(m.levels[prio]).0, m.(levels := m.levels[prio := Dequeued(m.levels[prio]).1]))
  {
    var hit := FirstHit(m, 0);
    forall l: nat | l < hit ensures m.levels[l] == [] {
      PassedLevelIsEmpty(m, l);
    }
    if hit < MAX_PRIO {
      assert LowestLevel(m.levels, hit);
      assert forall prio: nat :: LowestLevel(m.levels, prio) ==> prio == hit;
    }
  }

  /** For any scan position: a process comes back exactly when some level at or after
      `currentPrio` holds one.  When only earlier levels hold one the call returns nothing,
      although the scheduler is not empty, and moves past the first of them. */
  lemma ScanServesIff(m: Mlq)
    requires WellFormed(m)
    ensures GetMlq(m).0.Some? <==> exists l :: m.currentPrio <= l < MAX_PRIO && m.levels[l] != []
    ensures GetMlq(m).0.None? ==> GetMlq(m).1.levels == m.levels
    ensures forall prio: nat :: GetMlq(m).0.None? && LowestLevel(m.levels, prio) ==>
      prio < m.currentPrio && GetMlq(m).1.currentPrio == prio + 1
  {
    var cur, hit := m.currentPrio, FirstHit(m, 0);
    forall l: nat | cur <= l < MAX_PRIO && l - cur < hit ensures m.levels[l] == [] {
      PassedLevelIsEmpty(m, l);
    }
    if MAX_PRIO - cur <= hit {
      forall l: nat | l < cur && l + MAX_PRIO - cur < hit ensures m.levels[l] == [] {
        PassedLevelIsEmpty(m, l);
      }
      if hit < MAX_PRIO {
        assert LowestLevel(m.levels, LevelAt(m, hit));
      }
    } else {
      assert m.levels[LevelAt(m, hit)] != [];
    }
  }

  // ---------------------------------------------------------------- the scheduler object

  class ReadyQueues {
    const levels: seq<Queue>
    var currentPrio: nat
    ghost var contents: seq<seq<Pcb>>
    ghost const footprint: set<object>

    ghost predicate Valid()
      reads this, footprint
    {
      && this !in footprint
      && |levels| == |contents| == MAX_PRIO && currentPrio < MAX_PRIO
      && (forall i :: 0 <= i < MAX_PRIO ==> levels[i] in footprint && levels[i].proc in footprint)
      && (forall i :: 0 <= i < MAX_PRIO ==> levels[i].Valid() && levels[i].Contents() == contents[i])
      && (forall i, j :: 0 <= i < j < MAX_PRIO ==>
            levels[i] != levels[j] && levels[i].proc != levels[j].proc)
    }

    ghost function Model(): Mlq
      reads this
    {
      Mlq(contents, currentPrio)
    }

    /** `init_scheduler` */
    constructor ()
      ensures Valid() && Model() == EmptyMlq() && fresh(footprint)
    {
      var queues: seq<Queue> := [];
      ghost var objects: set<object> := {};
      while |queues| < MAX_PRIO
        invariant |queues| <= MAX_PRIO && fresh(objects)
        invariant forall i :: 0 <= i < |queues| ==>
          queues[i] in objects && queues[i].proc in objects && queues[i].Valid() && queues[i].Contents() == []
        invariant forall i, j :: 0 <= i < j < |queues| ==>
          queues[i] != queues[j] && queues[i].proc != queues[j].proc
      {
        var q := new Queue();
        queues := queues + [q];
        objects := objects + {q, q.proc};
      }
      levels := queues;
      currentPrio := 0;
      contents := seq(MAX_PRIO, i => []);
      footprint := objects;
    }

    method PutMlqProc(p: Pcb)
      requires Valid() && p.prio < MAX_PRIO
      modifies this, footprint
      ensures Valid() && Model() == PutMlq(old(Model()), p)
    {
      levels[p.prio].Enqueue(p);
      contents := contents[p.prio := Enqueued(contents[p.prio], p)];
    }

    /** `empty` on one level. */
    method LevelEmpty(prio: nat) returns (r: bool)
      requires Valid() && prio < MAX_PRIO
      ensures r <==> contents[prio] == []
    {
      r := levels[prio].Empty();
    }

    /** `dequeue` on one level, with the bookkeeping of the abstract contents. */
    method ServeLevel(prio: nat) returns (r: Option<Pcb>)
      requires Valid() && prio < MAX_PRIO
      modifies this, footprint
      ensures Valid() && currentPrio == old(currentPrio)
      ensures (r, contents) ==
        (Dequeued(old(contents)[prio]).0, old(contents)[prio := Dequeued(old(contents)[prio]).1])
    {
      r := levels[prio].Dequeue();
      contents := contents[prio := Dequeued(contents[prio]).1];
    }

    /** The wrap branch: the level found is out of budget. */
    method WrapTo(prio: nat)
      requires Valid() && prio < MAX_PRIO
      modifies this
      ensures Valid() && contents == old(contents) && currentPrio == prio
    {
      currentPrio := prio;
    }

    lemma InRange()
      requires Valid()
      ensures WellFormed(Model())
    {
    }

    method GetMlqProc() returns (r: Option<Pcb>)
      requires Valid()
      modifies this, footprint
      ensures Valid() && (r, Model()) == GetMlq(old(Model()))
    {
      hide Valid, EmptyAt;
      ghost var m := Model();
      InRange();
      r := None;
      var slot: int := MAX_PRIO - currentPrio;
      var attempt := 0;
      while attempt < MAX_PRIO
        invariant attempt <= MAX_PRIO && r.None? && slot == MAX_PRIO - currentPrio
        invariant Valid() && Model() == m && WellFormed(m)
        invariant forall a: nat :: a < attempt ==> EmptyAt(m, a)
      {
        var prio := (currentPrio + attempt) % MAX_PRIO;
        assert prio == LevelAt(m, attempt);
        var isEmpty := LevelEmpty(prio);
        LevelOfAttempt(m, attempt);
        if !isEmpty {
          FirstHitIs(m, attempt);
          slot := slot - attempt;
          if slot > 0 {
            r := ServeLevel(prio);
            slot := slot - 1;
          } else {
            WrapTo((prio + 1) % MAX_PRIO);
            slot := MAX_PRIO - currentPrio;
          }
          return;
        }
        attempt := attempt + 1;
      }
      FirstHitIs(m, attempt);
    }
  }
}
