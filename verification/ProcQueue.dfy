/** One ready queue: a ten-slot array filled from the left (`enqueue`, `dequeue`, `empty`). */
module ProcQueue {

  datatype Option<+T> = None | Some(value: T)

  const MAX_QUEUE_SIZE: nat := 10

  /** The fixed part of a process control block.  `id` counts loads from 0, so the pid is
      `id + 1`; `size` is the number of instructions.  The program counter, which changes,
      is kept with the running system. */
  datatype Pcb = Pcb(id: nat, priority: nat, prio: nat, size: nat)

  // ---------------------------------------------------------------- what the operations mean

  /** `enqueue` appends, and does nothing when the array is full. */
  function Enqueued(q: seq<Pcb>, p: Pcb): seq<Pcb> {
    if |q| < MAX_QUEUE_SIZE then q + [p] else q
  }

  /** Index i holds the largest `priority`, and nothing before it is as large. */
  ghost predicate IsStableMax(q: seq<Pcb>, i: nat) {
    && i < |q|
    && (forall j :: 0 <= j < |q| ==> q[j].priority <= q[i].priority)
    && (forall j :: 0 <= j < i ==> q[j].priority < q[i].priority)
  }

  function StableMax(q: seq<Pcb>): (i: nat)
    requires q != []
    ensures IsStableMax(q, i)
  {
    if |q| == 1 then 0
    else
      var best := StableMax(q[..|q| - 1]);
      assert q[..|q| - 1][best] == q[best];
      assert forall j :: 0 <= j < |q| - 1 ==> q[..|q| - 1][j] == q[j];
      if q[|q| - 1].priority > q[best].priority then |q| - 1 else best
  }

  /** The selection rule leaves no choice. */
  lemma StableMaxUnique(q: seq<Pcb>, i: nat)
    requires IsStableMax(q, i)
    ensures i == StableMax(q)
  {
    var j := StableMax(q);
    assert q[i].priority == q[j].priority;
  }

  function Without<T>(q: seq<T>, i: nat): seq<T>
    requires i < |q|
  {
    q[..i] + q[i + 1..]
  }

  function Dequeued(q: seq<Pcb>): (Option<Pcb>, seq<Pcb>) {
    if q == [] then (None, []) else (Some(q[StableMax(q)]), Without(q, StableMax(q)))
  }

  /** `dequeue` hands out the earliest of the largest and keeps the rest in order: nothing is
      duplicated or lost by the shift. */
  lemma DequeuedIsRemoval(q: seq<Pcb>, i: nat)
    requires IsStableMax(q, i)
    ensures Dequeued(q).0 == Some(q[i])
    ensures |Dequeued(q).1| == |q| - 1
    ensures forall j :: 0 <= j < |q| - 1 ==> Dequeued(q).1[j] == q[if j < i then j else j + 1]
    ensures multiset(Dequeued(q).1) + multiset{q[i]} == multiset(q)
  {
    StableMaxUnique(q, i);
    assert q == q[..i] + [q[i]] + q[i + 1..];
  }

  /** `enqueue` keeps the process exactly when a slot is free; otherwise the queue is as before. */
  lemma EnqueueKeepsIff(q: seq<Pcb>, p: Pcb)
    ensures multiset(Enqueued(q, p)) == multiset(q) + multiset{p} <==> |q| < MAX_QUEUE_SIZE
    ensures |q| >= MAX_QUEUE_SIZE ==> Enqueued(q, p) == q
  {
    assert p in multiset(q) + multiset{p} && (multiset(q) + multiset{p})[p] == multiset(q)[p] + 1;
  }

  // ---------------------------------------------------------------- the array

  class Queue {
    const proc: array<Pcb>
    var size: int

    ghost predicate Valid()
      reads this
    {
      proc.Length == MAX_QUEUE_SIZE && 0 <= size <= MAX_QUEUE_SIZE
    }

    ghost function Contents(): seq<Pcb>
      requires Valid()
      reads this, proc
    {
      proc[..size]
    }

    constructor ()
      ensures Valid() && Contents() == [] && fresh(proc)
    {
      proc := new Pcb[MAX_QUEUE_SIZE];
      size := 0;
    }

    method Empty() returns (r: bool)
      requires Valid()
      ensures r <==> Contents() == []
    {
      r := size == 0;
    }

    method Enqueue(p: Pcb)
      requires Valid()
      modifies this, proc
      ensures Valid() && Contents() == Enqueued(old(Contents()), p)
    {
      if size < MAX_QUEUE_SIZE && size >= 0 {
        proc[size] := p;
        size := size + 1;
      }
    }

    /** The first loop of `dequeue`. */
    method HighestIndex() returns (highest: nat)
      requires Valid() && Contents() != []
      ensures highest == StableMax(Contents())
    {
      ghost var q := Contents();
      highest := 0;
      for i := 0 to size
        invariant 0 <= highest < size
        invariant i == 0 ==> highest == 0
        invariant forall j :: 0 <= j < i ==> q[j].priority <= q[highest].priority
        invariant forall j :: 0 <= j < highest ==> q[j].priority < q[highest].priority
      {
        if proc[i].priority > proc[highest].priority {
          highest := i;
        }
      }
      StableMaxUnique(q, highest);
    }

    /** The second loop of `dequeue` and the decrement after it. */
    method CloseGap(at: nat)
      requires Valid() && at < |Contents()|
      modifies this, proc
      ensures Valid() && Contents() == Without(old(Contents()), at)
    {
      ghost var q := Contents();
      for i := at + 1 to size
        invariant size == |q|
        invariant forall j :: 0 <= j < at ==> proc[j] == q[j]
        invariant forall j :: at <= j < i - 1 ==> proc[j] == q[j + 1]
        invariant forall j :: i <= j < size ==> proc[j] == q[j]
      {
        proc[i - 1] := proc[i];
      }
      size := size - 1;
    }

    method Dequeue() returns (r: Option<Pcb>)
      requires Valid()
      modifies this, proc
      ensures Valid() && (r, Contents()) == Dequeued(old(Contents()))
    {
      if size == 0 { return None; }
      var highest := HighestIndex();
      r := Some(proc[highest]);
      CloseGap(highest);
    }
  }
}
