/** Page faults among processes that share one RAM.  As coded, the page that faults gets the
    victim's page number as its frame; this module says exactly when that does no harm. */
module Faults {
  import opened PageEntry
  import opened Paging
  import opened Frames

  /** Every page of the FIFO is online, and none is there twice.  This half of the FIFO's
      invariant survives failed accesses too. */
  ghost predicate FifoSound(sp: Space) {
    && HasTable(sp) && FifoInTable(sp)
    && (forall j, k :: 0 <= j < k < |sp.fifo| ==> sp.fifo[j] != sp.fifo[k])
    && (forall k :: 0 <= k < |sp.fifo| ==> Online(sp.pgd[sp.fifo[k]]))
  }

  /** The access has to evict a page and can. */
  predicate Evicts(sp: Space, pgn: nat, swapFree: seq<nat>)
    requires HasTable(sp) && pgn < MAX_PGN
  {
    !Present(sp.pgd[pgn]) && sp.fifo != [] && swapFree != []
  }

  lemma {:induction false} AllocFifoSound(sp: Space, free: seq<nat>, frames: seq<nat>, i: nat, req: nat)
    requires FifoSound(sp) && req <= MAX_PGN
    ensures FifoSound(AllocFrom(sp, free, frames, i, req).sp)
    decreases req - i
  {
    hide Present, Swapped, PteSetFpn;
    if i < req {
      if Present(sp.pgd[i]) {
        AllocFifoSound(sp, free, frames, i + 1, req);
      } else if free != [] {
        MappedEntry(sp.pgd[i], free[0]);
        AllocFifoSound(MapPage(sp, i, free[0]), free[1..], [free[0]] + frames, i + 1, req);
      }
    }
  }

  lemma TouchFifoSound(sp: Space, pgn: nat, swapFree: seq<nat>)
    requires FifoSound(sp) && pgn < MAX_PGN
    ensures FifoSound(GetPage(sp, pgn, swapFree).sp)
  {
    hide Present, Swapped, PteSetFpn, PteSetSwap;
    if Evicts(sp, pgn, swapFree) {
      var v := Last(sp.fifo);
      assert v == sp.fifo[|sp.fifo| - 1];
      FaultedEntries(sp.pgd[v], v, SwapTypeArgument(), swapFree[0]);
      FaultedEntries(sp.pgd[pgn], v, SwapTypeArgument(), swapFree[0]);
    }
  }

  /** Process p accesses page pgn. */
  function Touched(m: Machine, p: nat, pgn: nat, swapFree: seq<nat>): Machine
    requires Tables(m) && p < |m.spaces| && FifoInTable(m.spaces[p]) && pgn < MAX_PGN
  {
    m.(spaces := m.spaces[p := GetPage(m.spaces[p], pgn, swapFree).sp])
  }

  /** Process p's page pgn faults, and there is a victim and a swap frame for it. */
  ghost predicate Faulting(m: Machine, p: nat, pgn: nat, swapFree: seq<nat>) {
    && Tables(m) && p < |m.spaces| && FifoSound(m.spaces[p]) && pgn < MAX_PGN
    && Evicts(m.spaces[p], pgn, swapFree)
  }

  function Victim(m: Machine, p: nat): nat
    requires p < |m.spaces| && m.spaces[p].fifo != []
  {
    Last(m.spaces[p].fifo)
  }

  /** Who backs what after a fault: the victim is offline, the new page sits in the frame
      numbered like the victim, and all else is as before. */
  lemma FaultBacks(m: Machine, p: nat, pgn: nat, swapFree: seq<nat>, q: nat, j: nat, f: nat)
    requires Faulting(m, p, pgn, swapFree)
    ensures var v, t := Victim(m, p), Touched(m, p, pgn, swapFree);
      && Tables(t) && v < MAX_PGN && v != pgn && Backs(m, p, v, Fpn(m.spaces[p].pgd[v]))
      && (Backs(t, q, j, f) <==>
          if q == p && j == pgn then f == v % 8192 else Backs(m, q, j, f) && !(q == p && j == v))
  {
    hide Present, Swapped, Fpn, PteSetFpn, PteSetSwap;
    var sp, v := m.spaces[p], Victim(m, p);
    assert Online(sp.pgd[sp.fifo[|sp.fifo| - 1]]);
    FaultedEntries(sp.pgd[v], v, SwapTypeArgument(), swapFree[0]);
    FaultedEntries(sp.pgd[pgn], v, SwapTypeArgument(), swapFree[0]);
  }

  /** The page table after an access, entry by entry.  A fault records the swap frame in the
      victim's entry, with type 0, and touches no third entry; any other access changes none. */
  lemma AccessEntries(sp: Space, pgn: nat, swapFree: seq<nat>, i: nat)
    requires FifoSound(sp) && pgn < MAX_PGN && i < MAX_PGN
    ensures var r := GetPage(sp, pgn, swapFree);
      if !Evicts(sp, pgn, swapFree) then r.sp.pgd[i] == sp.pgd[i]
      else if i == pgn then Online(r.sp.pgd[i]) && Fpn(r.sp.pgd[i]) == Last(sp.fifo) % 8192
      else if i == Last(sp.fifo) then
        && Present(r.sp.pgd[i]) && Swapped(r.sp.pgd[i])
        && SwpOff(r.sp.pgd[i]) == swapFree[0] % 0x20_0000 && SwpTyp(r.sp.pgd[i]) == 0
      else r.sp.pgd[i] == sp.pgd[i]
  {
    hide Present, Swapped, Fpn, SwpOff, SwpTyp, PteSetFpn, PteSetSwap;
    if Evicts(sp, pgn, swapFree) {
      var v := Last(sp.fifo);
      assert v == sp.fifo[|sp.fifo| - 1];
      SetSwapMeaning(sp.pgd[v], SwapTypeArgument(), swapFree[0]);
      FaultedEntries(sp.pgd[pgn], v, SwapTypeArgument(), swapFree[0]);
    }
  }

  /** An access succeeds exactly when the page is present, or there are a victim and a swap frame;
      it takes the first free swap frame exactly when it evicts. */
  lemma AccessOutcome(sp: Space, pgn: nat, swapFree: seq<nat>)
    requires FifoSound(sp) && pgn < MAX_PGN
    ensures var r := GetPage(sp, pgn, swapFree);
      && (r.ok <==> Present(sp.pgd[pgn]) || (sp.fifo != [] && swapFree != []))
      && r.swapFree == (if Evicts(sp, pgn, swapFree) then swapFree[1..] else swapFree)
      && (r.ok ==> Present(r.sp.pgd[pgn]))
  {
    hide Present, Swapped, Fpn, SwpOff, SwpTyp, FaultedPgd;
    AccessEntries(sp, pgn, swapFree, pgn);
  }

  /** Frame f backs no page but the victim's. */
  ghost predicate NobodyElse(m: Machine, p: nat, v: nat, f: nat)
    requires Tables(m)
  {
    forall q: nat, j: nat :: Backs(m, q, j, f) ==> q == p && j == v
  }

  lemma AllFaultBacks(m: Machine, p: nat, pgn: nat, swapFree: seq<nat>)
    requires Faulting(m, p, pgn, swapFree)
    ensures var v, t := Victim(m, p), Touched(m, p, pgn, swapFree);
      && Tables(t) && v != pgn && Backs(m, p, v, Fpn(m.spaces[p].pgd[v])) && Backs(t, p, pgn, v % 8192)
      && forall q: nat, j: nat, f: nat :: Backs(t, q, j, f) <==>
          if q == p && j == pgn then f == v % 8192 else Backs(m, q, j, f) && !(q == p && j == v)
  {
    hide Backs, Touched, Online, Present, Fpn;
    FaultBacks(m, p, pgn, swapFree, p, pgn, Victim(m, p) % 8192);
    var v, t := Victim(m, p), Touched(m, p, pgn, swapFree);
    forall q: nat, j: nat, f: nat
      ensures Backs(t, q, j, f) <==>
        if q == p && j == pgn then f == v % 8192 else Backs(m, q, j, f) && !(q == p && j == v)
    {
      FaultBacks(m, p, pgn, swapFree, q, j, f);
    }
  }

  // ---------------------------------------------------------------- when a fault does no harm

  /** A fault shares a frame exactly when another page sits in the frame numbered like the
      victim. */
  lemma FaultSharesIff(m: Machine, p: nat, pgn: nat, swapFree: seq<nat>)
    requires Faulting(m, p, pgn, swapFree) && NoSharing(m)
    ensures var v, t := Victim(m, p), Touched(m, p, pgn, swapFree);
      Tables(t) && (NoSharing(t) <==> NobodyElse(m, p, v, v % 8192))
  {
    hide Backs, Touched, Online, Present;
    AllFaultBacks(m, p, pgn, swapFree);
    var v, t := Victim(m, p), Touched(m, p, pgn, swapFree);
    if NoSharing(t) {
      forall q: nat, j: nat | Backs(m, q, j, v % 8192) ensures q == p && j == v {
        NotOnline(m, p, pgn, swapFree, v % 8192);
      }
    }
  }

  /** The page that faults backs nothing before. */
  lemma NotOnline(m: Machine, p: nat, pgn: nat, swapFree: seq<nat>, f: nat)
    requires Faulting(m, p, pgn, swapFree)
    ensures !Backs(m, p, pgn, f)
  {
    hide Present, Swapped, Fpn;
  }

  /** The frame numbered like the victim exists, is not listed free, and backs no other page. */
  ghost predicate Harmless(m: Machine, p: nat, v: nat)
    requires Tables(m)
  {
    v % 8192 < m.numfp && v % 8192 !in m.free && NobodyElse(m, p, v, v % 8192)
  }

  /** Over a sound machine a fault leaves a sound machine exactly when it is harmless. */
  lemma FaultUsableIff(m: Machine, p: nat, pgn: nat, swapFree: seq<nat>)
    requires Faulting(m, p, pgn, swapFree) && Usable(m)
    ensures Usable(Touched(m, p, pgn, swapFree)) <==> Harmless(m, p, Victim(m, p))
  {
    hide Backs, Touched, Online, Present;
    AllFaultBacks(m, p, pgn, swapFree);
    FaultSharesIff(m, p, pgn, swapFree);
    SameDevice(m, p, pgn, swapFree);
  }

  lemma SameDevice(m: Machine, p: nat, pgn: nat, swapFree: seq<nat>)
    requires Faulting(m, p, pgn, swapFree)
    ensures Touched(m, p, pgn, swapFree).numfp == m.numfp && Touched(m, p, pgn, swapFree).free == m.free
  {
  }

  /** From a machine that has lost no frame, a fault keeps every frame accounted for and unshared
      exactly when the victim sits in the frame numbered like itself; the new page then takes
      over the victim's own frame. */
  lemma FaultConservesIff(m: Machine, p: nat, pgn: nat, swapFree: seq<nat>)
    requires Faulting(m, p, pgn, swapFree) && FramesOk(m)
    ensures var v := Victim(m, p);
      v < MAX_PGN && (FramesOk(Touched(m, p, pgn, swapFree)) <==> Fpn(m.spaces[p].pgd[v]) == v % 8192)
  {
    hide Backs, Touched, Online, Present, Fpn;
    var v, t := Victim(m, p), Touched(m, p, pgn, swapFree);
    FaultBacks(m, p, pgn, swapFree, p, v, 0);
    var own := Fpn(m.spaces[p].pgd[v]);
    AllFaultBacks(m, p, pgn, swapFree);
    FaultUsableIff(m, p, pgn, swapFree);
    SameDevice(m, p, pgn, swapFree);
    if own == v % 8192 {
      forall f: nat | f < t.numfp && f !in t.free ensures exists q: nat, j: nat :: Backs(t, q, j, f) {
        KeptOrTaken(m, p, pgn, swapFree, f);
      }
    }
  }

  /** A frame in use before the fault is in use after it, if the victim leaves its own to the
      new page. */
  lemma KeptOrTaken(m: Machine, p: nat, pgn: nat, swapFree: seq<nat>, f: nat)
    requires Faulting(m, p, pgn, swapFree) && FramesOk(m) && f < m.numfp && f !in m.free
    requires Fpn(m.spaces[p].pgd[Victim(m, p)]) == Victim(m, p) % 8192
    ensures var t := Touched(m, p, pgn, swapFree);
      Tables(t) && exists q: nat, j: nat :: Backs(t, q, j, f)
  {
    hide Touched, Online, Present, Fpn;
    var v, t := Victim(m, p), Touched(m, p, pgn, swapFree);
    AllFaultBacks(m, p, pgn, swapFree);
    var q: nat, j: nat :| Backs(m, q, j, f);
    NotOnline(m, p, pgn, swapFree, f);
    if q == p && j == v {
      assert Backs(t, p, pgn, f);
    } else {
      assert Backs(t, q, j, f);
    }
  }

  // ---------------------------------------------------------------- a fault that does harm

  /** One process's page 0 mapped by a call for one page. */
  lemma OnePage(m: Machine, p: nat)
    requires Tables(m) && p < |m.spaces| && m.spaces[p] == EmptySpace() && m.free != []
    ensures AllocRange(m, p, 1) == Given(m, p, 0)
  {
    hide PteSetFpn, Present;
    ZeroEntry();
  }

  lemma TwoCalls(numfp: nat)
    requires numfp >= 2
    ensures var m := Run(numfp, 2, [AllocCall(0, 1), AllocCall(1, 1)]);
      m.spaces == [MapPage(EmptySpace(), 0, 0), MapPage(EmptySpace(), 0, 1)]
  {
    hide PteSetFpn, AllocRange;
    var calls := [AllocCall(0, 1), AllocCall(1, 1)];
    assert DropLast(calls) == [AllocCall(0, 1)] && DropLast([AllocCall(0, 1)]) == [];
    var m := Formatted(numfp, 2);
    assert Run(numfp, 2, []) == m;
    OnePage(m, 0);
    OnePage(Given(m, 0, 0), 1);
  }

  /** Two processes with one page each: when the second one touches its page 1, its victim is
      its page 0, and the new page gets frame 0, in which the first process's page sits. */
  lemma SharedFrameExample(numfp: nat)
    requires 2 <= numfp <= 8192
    ensures var m := Run(numfp, 2, [AllocCall(0, 1), AllocCall(1, 1)]);
      && FramesOk(m) && Faulting(m, 1, 1, [0])
      && Tables(Touched(m, 1, 1, [0])) && !NoSharing(Touched(m, 1, 1, [0]))
  {
    hide PteSetFpn, Present, Swapped, Fpn, AllocRange, Usable, Complete, NoSharing, Touched;
    var calls := [AllocCall(0, 1), AllocCall(1, 1)];
    var m := Run(numfp, 2, calls);
    FramesConserved(numfp, 2, calls);
    UsableIsInjective(m);
    TwoCalls(numfp);
    ZeroEntry();
    MappedEntry(0, 0);
    MappedEntry(0, 1);
    assert Backs(m, 0, 0, 0);
    FaultSharesIff(m, 1, 1, [0]);
  }
}
