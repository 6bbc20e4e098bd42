/** Resident pages over whole runs: pages leave memory in the order they came in. */
module Residency {
  import opened PageEntry
  import opened Paging

  /** One call for a process: `alloc_pages_range` with the frames then free in RAM, or an access
      to a page with the frames then free on the swap device. */
  datatype PageOp = MapRange(req: nat, free: seq<nat>) | Touch(pgn: nat, swapFree: seq<nat>)

  /** The space, with the pages that became resident and the pages evicted so far, in order. */
  datatype Track = Track(sp: Space, arrivals: seq<nat>, victims: seq<nat>)

  /** The pages `alloc_pages_range` maps, in order. */
  function Mapped(sp: Space, free: seq<nat>, i: nat, req: nat): seq<nat>
    requires HasTable(sp) && req <= MAX_PGN
    decreases req - i
  {
    if i >= req then []
    else if Present(sp.pgd[i]) then Mapped(sp, free, i + 1, req)
    else if free == [] then []
    else [i] + Mapped(MapPage(sp, i, free[0]), free[1..], i + 1, req)
  }

  ghost predicate CanApply(t: Track, op: PageOp) {
    && HasTable(t.sp) && FifoInTable(t.sp)
    && match op
       case MapRange(req, _) => req <= MAX_PGN
       case Touch(pgn, swapFree) => pgn < MAX_PGN && GetPage(t.sp, pgn, swapFree).ok
  }

  ghost function Apply(t: Track, op: PageOp): Track
    requires CanApply(t, op)
  {
    match op
    case MapRange(req, free) =>
      Track(AllocFrom(t.sp, free, [], 0, req).sp, t.arrivals + Mapped(t.sp, free, 0, req), t.victims)
    case Touch(pgn, swapFree) =>
      var sp := GetPage(t.sp, pgn, swapFree).sp;
      if Present(t.sp.pgd[pgn]) then Track(sp, t.arrivals, t.victims)
      else Track(sp, t.arrivals + [pgn], t.victims + [Last(t.sp.fifo)])
  }

  /** A run of mapping calls and successful accesses, from an empty space. */
  ghost predicate IsRun(run: seq<Track>) {
    && |run| > 0 && run[0] == Track(EmptySpace(), [], [])
    && forall i :: 0 <= i < |run| - 1 ==> Step(run[i], run[i + 1])
  }

  ghost predicate Step(t: Track, u: Track) {
    exists op :: CanApply(t, op) && u == Apply(t, op)
  }

  /** Each mapped page is pushed in front. */
  lemma {:induction false} AllocPushes(sp: Space, free: seq<nat>, frames: seq<nat>, i: nat, req: nat)
    requires HasTable(sp) && req <= MAX_PGN
    ensures AllocFrom(sp, free, frames, i, req).sp.fifo == Reverse(Mapped(sp, free, i, req)) + sp.fifo
    decreases req - i
  {
    hide Present, PteSetFpn;
    if i < req {
      if Present(sp.pgd[i]) {
        AllocPushes(sp, free, frames, i + 1, req);
      } else if free != [] {
        AllocPushes(MapPage(sp, i, free[0]), free[1..], [free[0]] + frames, i + 1, req);
      }
    }
  }

  /** Arrivals, oldest first, are the victims followed by the residents. */
  ghost predicate InOrder(t: Track) {
    FifoOk(t.sp) && t.arrivals == t.victims + Reverse(t.sp.fifo)
  }

  lemma MapInOrder(t: Track, req: nat, free: seq<nat>)
    requires InOrder(t) && CanApply(t, MapRange(req, free))
    ensures InOrder(Apply(t, MapRange(req, free)))
  {
    hide Present, FifoOk, PteSetFpn;
    AllocFifoOk(t.sp, free, [], 0, req);
    AllocPushes(t.sp, free, [], 0, req);
    ReverseConcat(Reverse(Mapped(t.sp, free, 0, req)), t.sp.fifo);
    ReverseTwice(Mapped(t.sp, free, 0, req));
  }

  lemma TouchInOrder(t: Track, pgn: nat, swapFree: seq<nat>)
    requires InOrder(t) && CanApply(t, Touch(pgn, swapFree))
    ensures InOrder(Apply(t, Touch(pgn, swapFree)))
  {
    hide Present, FifoOk, FaultedPgd;
    FaultFifoOk(t.sp, pgn, swapFree);
    if !Present(t.sp.pgd[pgn]) {
      ReverseMoved(t.sp.fifo, pgn);
      assert t.arrivals + [pgn] == t.victims + (Reverse(t.sp.fifo) + [pgn]);
    }
  }

  /** Removing the last element and pushing one in front, seen from the other end. */
  lemma ReverseMoved(fifo: seq<nat>, pgn: nat)
    requires fifo != []
    ensures Reverse(fifo) + [pgn] == [Last(fifo)] + Reverse([pgn] + DropLast(fifo))
  {
    var rest := DropLast(fifo);
    assert fifo == rest + [Last(fifo)];
    ReverseConcat(rest, [Last(fifo)]);
    ReverseConcat([pgn], rest);
    assert Reverse([pgn]) == [pgn] && Reverse([Last(fifo)]) == [Last(fifo)];
  }

  lemma StepInOrder(t: Track, op: PageOp)
    requires InOrder(t) && CanApply(t, op)
    ensures InOrder(Apply(t, op))
  {
    hide InOrder, CanApply, Apply;
    match op
    case MapRange(req, free) => MapInOrder(t, req, free);
    case Touch(pgn, swapFree) => TouchInOrder(t, pgn, swapFree);
  }

  /** Over every run the FIFO holds exactly the online pages, and the victims so far are the
      oldest arrivals, in arrival order: first in, first out. */
  lemma {:induction false} FirstInFirstOut(run: seq<Track>, i: nat)
    requires IsRun(run) && i < |run|
    ensures FifoOk(run[i].sp)
    ensures run[i].arrivals == run[i].victims + Reverse(run[i].sp.fifo)
  {
    hide FifoOk, Apply, CanApply;
    if i == 0 {
      EmptyFifoOk();
    } else {
      FirstInFirstOut(run, i - 1);
      assert Step(run[i - 1], run[i]);
      var op :| CanApply(run[i - 1], op) && run[i] == Apply(run[i - 1], op);
      StepInOrder(run[i - 1], op);
    }
  }
}
