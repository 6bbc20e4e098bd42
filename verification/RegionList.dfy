/** The free-region lists as linked nodes edited in place, and the symbol table. */
module RegionList {
  import opened Lists
  import opened Regions
  import opened RegionRuns

  /** The free list of one area. */
  class FreeList {
    var freerg: Node?<Region>
    ghost var chain: seq<Node<Region>>

    ghost predicate Valid()
      reads this, chain
    {
      IsChain(freerg, chain)
    }

    /** One empty region of area 0, which `init_mm` puts into the list of either area. */
    constructor ()
      ensures Valid() && Values(chain) == [Region(0, 0, 0)] && fresh(set n | n in chain)
    {
      var first := new Node(Region(0, 0, 0), null);
      freerg := first;
      chain := [first];
    }

    /** Change the region in one node. */
    method SetRegion(rgit: Node<Region>, rg: Region, ghost i: nat)
      requires Valid() && i < |chain| && rgit == chain[i]
      modifies rgit
      ensures Valid() && rgit.next == old(rgit.next)
      ensures Values(chain) == old(Values(chain))[i := rg]
    {
      rgit.value := rg;
    }

    /** Cut the piece off the front of a region with more room. */
    method Cut(rgit: Node<Region>, size: nat, ghost i: nat)
      requires Valid() && size > 0 && i < |chain| && rgit == chain[i]
      requires rgit.value.start + size < rgit.value.end
      modifies rgit
      ensures Valid()
      ensures var was := old(Values(chain)); Values(chain) == was[..i] + AfterHit(was[i..], size)
    {
      hide IsChain;
      ghost var was := Values(chain);
      var rg := rgit.value.(start := rgit.value.start + size);
      SetRegion(rgit, rg, i);
      assert AfterHit(was[i..], size) == [rg] + was[i + 1..];
    }

    /** Take the node behind this one out of the list. */
    method Unlink(rgit: Node<Region>, nextrg: Node<Region>, ghost i: nat)
      requires Valid() && i < |chain| && rgit == chain[i] && rgit.next == nextrg
      modifies this`chain, rgit
      ensures Valid() && i + 1 < old(|chain|) && chain == Skipped(old(chain), i)
      ensures Values(chain) == Skipped(old(Values(chain)), i)
    {
      NextOf(freerg, chain, i);
      NextOf(freerg, chain, i + 1);
      ghost var nodes := chain;
      chain := Skipped(nodes, i);
      rgit.next := nextrg.next;
      ChainSkipped(freerg, nodes, i);
    }

    /** Copy the next node into this one and unlink it. */
    method CloneNext(rgit: Node<Region>, nextrg: Node<Region>, size: nat, ghost i: nat)
      requires Valid() && size > 0 && i < |chain| && rgit == chain[i] && rgit.next == nextrg
      requires rgit.value.start + size == rgit.value.end
      modifies this`chain, rgit
      ensures Valid() && i + 1 < old(|chain|) && chain == Skipped(old(chain), i)
      ensures var was := old(Values(chain)); Values(chain) == was[..i] + AfterHit(was[i..], size)
    {
      hide IsChain;
      NextOf(freerg, chain, i);
      ghost var was := Values(chain);
      SetRegion(rgit, rgit.value.(start := nextrg.value.start, end := nextrg.value.end), i);
      Unlink(rgit, nextrg, i);
      UsedUp(was, size, i);
    }

    /** Leave the last node as an empty dummy. */
    method Empty(rgit: Node<Region>, size: nat, ghost i: nat)
      requires Valid() && size > 0 && i < |chain| && rgit == chain[i] && rgit.next == null
      requires rgit.value.start + size == rgit.value.end
      modifies rgit
      ensures Valid()
      ensures var was := old(Values(chain)); Values(chain) == was[..i] + AfterHit(was[i..], size)
    {
      ghost var was := Values(chain);
      NextOf(freerg, chain, i);
      var rg := rgit.value.(start := rgit.value.end);
      SetRegion(rgit, rg, i);
      rgit.next := null;
      assert AfterHit(was[i..], size) == [rg];
    }

    /** What a hit does to the list. */
    method Hit(rgit: Node<Region>, size: nat, ghost i: nat)
      requires Valid() && size > 0 && i < |chain| && rgit == chain[i] && Fits(rgit.value, size)
      modifies this, rgit
      ensures Valid() && i < |chain| && rgit == chain[i] && freerg == old(freerg)
      ensures forall k :: 0 <= k < |chain| ==> chain[k] in old(chain)
      ensures var was := old(Values(chain)); Values(chain) == was[..i] + AfterHit(was[i..], size)
    {
      hide AfterHit;
      if rgit.value.start + size < rgit.value.end {
        Cut(rgit, size, i);
      } else {
        var nextrg := rgit.next;
        if nextrg != null {
          CloneNext(rgit, nextrg, size, i);
        } else {
          Empty(rgit, size, i);
        }
      }
    }

    /** `get_free_vmrg_area` */
    method GetFreeVmrgArea(vmaid: int, size: nat) returns (r: int, newrg: Slot)
      requires Valid() && size > 0
      modifies this, chain
      ensures Valid() && forall n :: n in chain ==> n in old(chain)
      ensures (Values(chain), newrg) == Search(old(Values(chain)), vmaid, size, NoSlot)
      ensures r == if newrg == NoSlot then -1 else 0
    {
      hide AfterHit, Search, IsChain;
      ChainHead(freerg, chain);
      newrg := NoSlot;
      ghost var i := 0;
      ghost var nodes := chain;
      ghost var whole := Search(Values(chain), vmaid, size, NoSlot);
      var rgit := freerg;
      assert Values(chain)[0..] == Values(chain) && Values(chain)[..0] + whole.0 == whole.0;
      while rgit != null && rgit.value.vmaid == vmaid
        invariant Valid() && i <= |chain| && rgit == if i < |chain| then chain[i] else null
        invariant forall k :: 0 <= k < |chain| ==> chain[k] in nodes
        invariant var rest := Search(Values(chain)[i..], vmaid, size, newrg);
          whole == (Values(chain)[..i] + rest.0, rest.1)
        decreases FreeBytes(Values(chain)[i..]), |chain| - i
      {
        ghost var vals := Values(chain);
        if rgit.value.start + size <= rgit.value.end {
          SearchHit(vals, i, vmaid, size, newrg);
          newrg := Slot(rgit.value.start, rgit.value.start + size);
          Hit(rgit, size, i);
          assert Values(chain)[i..] == AfterHit(vals[i..], size) && Values(chain)[..i] == vals[..i];
        } else {
          SearchPast(vals, i, vmaid, size, newrg);
          NextOf(freerg, chain, i);
          rgit := rgit.next;
          i := i + 1;
        }
      }
      SearchDone(Values(chain), i, vmaid, size, newrg);
      r := if newrg == NoSlot then -1 else 0;
    }

    /** `enlist_vm_freerg_list` */
    method Enlist(rg: Region)
      requires Valid()
      modifies this
      ensures Valid() && Values(chain) == Enlisted(old(Values(chain)), rg)
      ensures forall n :: n in chain ==> n in old(chain) || fresh(n)
    {
      if rg.start >= rg.end { return; }
      var node := new Node(rg, freerg);
      Pushed(node, chain);
      freerg := node;
      chain := [node] + chain;
    }
  }

  /** The two areas of one process and its symbol table. */
  class RegionMap {
    const data: FreeList
    const heap: FreeList
    const symrgtbl: array<Region>

    ghost predicate Valid()
      reads this, data, data.chain, heap, heap.chain
    {
      && data != heap && data.Valid() && heap.Valid() && symrgtbl.Length == MAX_SYMTBL
      && forall i, j :: 0 <= i < |data.chain| && 0 <= j < |heap.chain| ==> data.chain[i] != heap.chain[j]
    }

    ghost function Model(): Regs
      reads this, data, data.chain, heap, heap.chain, symrgtbl
    {
      Regs(Values(data.chain), Values(heap.chain), symrgtbl[..])
    }

    /** What `init_mm` leaves, with a symbol table of empty regions. */
    constructor ()
      ensures Valid() && SymbolsOk(Model()) && PairwiseApart(Model()) && HeapUnserved(Model())
      ensures fresh(data) && fresh(heap) && fresh(symrgtbl)
      ensures fresh(set n | n in data.chain) && fresh(set n | n in heap.chain)
    {
      data := new FreeList();
      heap := new FreeList();
      symrgtbl := new Region[MAX_SYMTBL](_ => Region(0, 0, 0));
    }

    /** The search in the area's list leaves the other area's list alone. */
    method SearchArea(vmaid: AreaId, size: nat) returns (r: int, rgnode: Slot)
      requires Valid() && size > 0
      modifies data, data.chain, heap, heap.chain
      ensures Valid() && r == if rgnode == NoSlot then -1 else 0
      ensures var was := old(Model());
        var (left, slot) := Search(if vmaid == 0 then was.data else was.heap, vmaid, size, NoSlot);
        && rgnode == slot
        && Model() == if vmaid == 0 then was.(data := left) else was.(heap := left)
    {
      hide Search;
      ghost var dc, hc := data.chain, heap.chain;
      if vmaid == 0 {
        r, rgnode := data.GetFreeVmrgArea(vmaid, size);
        assert forall i :: 0 <= i < |data.chain| ==> data.chain[i] in dc;
        assert forall k :: 0 <= k < |hc| ==> hc[k].value == old(hc[k].value);
      } else {
        r, rgnode := heap.GetFreeVmrgArea(vmaid, size);
        assert forall i :: 0 <= i < |heap.chain| ==> heap.chain[i] in hc;
        assert forall k :: 0 <= k < |dc| ==> dc[k].value == old(dc[k].value);
      }
    }

    /** `__alloc` as far as the free list of the area can serve it; when it cannot, the source
        goes on to enlarge the area. */
    method AllocFromFree(vmaid: AreaId, rgid: SymId, size: int) returns (found: bool, allocAddr: nat)
      requires Valid()
      modifies data, data.chain, heap, heap.chain, symrgtbl
      ensures Valid()
      ensures (found, Model()) == Alloc(old(Model()), vmaid, rgid, size)
      ensures found ==> allocAddr == symrgtbl[rgid].start && symrgtbl[rgid].end == allocAddr + size
    {
      hide Search;
      allocAddr := 0;
      if size <= 0 { return false, 0; }
      SlotSize(if vmaid == 0 then Model().data else Model().heap, vmaid, size, NoSlot);
      var r, rgnode := SearchArea(vmaid, size);
      if r != 0 { return false, 0; }
      symrgtbl[rgid] := Region(vmaid, rgnode.start, rgnode.end);
      return true, rgnode.start;
    }

    /** `__free` */
    method Free(rgid: int) returns (r: int)
      requires Valid()
      modifies data, symrgtbl
      ensures Valid()
      ensures (r == 0, Model()) == Release(old(Model()), rgid) && (r == 0 || r == -1)
    {
      if rgid < 0 || rgid >= MAX_SYMTBL { return -1; }
      var rgnode := symrgtbl[rgid];
      if rgnode.vmaid < 0 || rgnode.vmaid > 1 { return -1; }
      data.Enlist(rgnode);
      assert forall i :: 0 <= i < |data.chain| ==> data.chain[i] in data.chain;
      symrgtbl[rgid] := GONE;
      r := 0;
    }
  }

  // ---------------------------------------------------------------- one round of the search

  lemma UsedUp(vals: seq<Region>, size: nat, i: nat)
    requires size > 0 && i + 1 < |vals| && vals[i].start + size == vals[i].end
    ensures var rg := vals[i].(start := vals[i + 1].start, end := vals[i + 1].end);
      Skipped(vals[i := rg], i) == vals[..i] + AfterHit(vals[i..], size)
  {
    var rg := vals[i].(start := vals[i + 1].start, end := vals[i + 1].end);
    assert AfterHit(vals[i..], size) == [rg] + vals[i + 2..];
  }

  lemma SearchHit(vals: seq<Region>, i: nat, vmaid: int, size: nat, found: Slot)
    requires size > 0 && i < |vals| && vals[i].vmaid == vmaid && Fits(vals[i], size)
    ensures Search(vals[i..], vmaid, size, found) ==
      Search(AfterHit(vals[i..], size), vmaid, size, Slot(vals[i].start, vals[i].start + size))
    ensures FreeBytes(AfterHit(vals[i..], size)) < FreeBytes(vals[i..])
  {
  }

  lemma SearchPast(vals: seq<Region>, i: nat, vmaid: int, size: nat, found: Slot)
    requires size > 0 && i < |vals| && vals[i].vmaid == vmaid && !Fits(vals[i], size)
    ensures var here, past := Search(vals[i..], vmaid, size, found), Search(vals[i + 1..], vmaid, size, found);
      vals[..i] + here.0 == vals[..i + 1] + past.0 && here.1 == past.1
    ensures FreeBytes(vals[i + 1..]) <= FreeBytes(vals[i..])
  {
    assert vals[i..][1..] == vals[i + 1..];
    assert vals[..i + 1] == vals[..i] + [vals[i]];
  }

  lemma SearchDone(vals: seq<Region>, i: nat, vmaid: int, size: nat, found: Slot)
    requires size > 0 && i <= |vals| && (i < |vals| ==> vals[i].vmaid != vmaid)
    ensures var rest := Search(vals[i..], vmaid, size, found);
      vals[..i] + rest.0 == vals && rest.1 == found
  {
  }
}
