/** The free-region list of a memory area and the symbol table: what `get_free_vmrg_area`,
    `__alloc` on its free-list path, and `__free` do, and why regions never overlap. */
module Regions {
  import opened Arithmetic

  /** Bytes start .. end-1; a region with start >= end is empty. */
  datatype Region = Region(vmaid: int, start: nat, end: nat)

  /** The region found, or nothing (the source's -1). */
  datatype Slot = NoSlot | Slot(start: nat, end: nat)

  predicate Fits(r: Region, size: nat) {
    r.start + size <= r.end
  }

  function Length(r: Region): nat {
    if r.start < r.end then r.end - r.start else 0
  }

  function FreeBytes(l: seq<Region>): nat {
    if l == [] then 0 else Length(l[0]) + FreeBytes(l[1..])
  }

  // ---------------------------------------------------------------- the search as coded

  /** The list after a hit on its first node.  A node used up takes over the bounds of the next
      node, which is freed; the last node becomes an empty dummy. */
  function AfterHit(l: seq<Region>, size: nat): (r: seq<Region>)
    requires size > 0 && l != [] && Fits(l[0], size)
    ensures FreeBytes(l) == FreeBytes(r) + size
  {
    if l[0].start + size < l[0].end then
      var cut := [l[0].(start := l[0].start + size)] + l[1..];
      assert cut[1..] == l[1..];
      cut
    else if |l| > 1 then
      var next := [l[0].(start := l[1].start, end := l[1].end)] + l[2..];
      assert next[1..] == l[2..] == l[1..][1..];
      assert FreeBytes(l[1..]) == Length(l[1]) + FreeBytes(l[1..][1..]);
      next
    else
      var dummy := [l[0].(start := l[0].end)];
      assert dummy[1..] == [] == l[1..];
      dummy
  }

  /** The loop of `get_free_vmrg_area`.  A hit does not end it: the same node is tried again,
      and each later hit overwrites the result.  The loop ends at the first node of another
      area. */
  function Search(l: seq<Region>, vmaid: int, size: nat, found: Slot): (seq<Region>, Slot)
    requires size > 0
    decreases FreeBytes(l), |l|
  {
    if l == [] || l[0].vmaid != vmaid then (l, found)
    else if Fits(l[0], size) then
      Search(AfterHit(l, size), vmaid, size, Slot(l[0].start, l[0].start + size))
    else
      var (rest, slot) := Search(l[1..], vmaid, size, found);
      ([l[0]] + rest, slot)
  }

  // ---------------------------------------------------------------- what it amounts to

  /** The list is the list of one area only. */
  predicate OneArea(l: seq<Region>, vmaid: int) {
    forall i :: 0 <= i < |l| ==> l[i].vmaid == vmaid
  }

  /** Where the part of a region that is left over begins. */
  function LeftStart(r: Region, size: nat): (s: nat)
    requires size > 0
    ensures r.start < r.end ==> r.start <= s <= r.end
  {
    if r.start < r.end then r.end - (r.end - r.start) % size else r.start
  }

  /** Each region of length L is left with its last L mod size bytes; a region used up is
      unlinked, or left as an empty dummy at the end of the list. */
  function Leftovers(l: seq<Region>, size: nat): seq<Region>
    requires size > 0
  {
    if l == [] then []
    else
      var s := LeftStart(l[0], size);
      if Fits(l[0], size) && s == l[0].end then
        if |l| > 1 then Leftovers(l[1..], size) else [l[0].(start := l[0].end)]
      else [l[0].(start := s)] + Leftovers(l[1..], size)
  }

  /** The last piece cut from the last region that fits. */
  function LastPiece(l: seq<Region>, size: nat, found: Slot): Slot
    requires size > 0
  {
    if l == [] then found
    else
      var s := LeftStart(l[0], size);
      LastPiece(l[1..], size, if Fits(l[0], size) && s >= size then Slot(s - size, s) else found)
  }

  predicate SomeFits(l: seq<Region>, size: nat) {
    exists i :: 0 <= i < |l| && Fits(l[i], size)
  }

  /** Cutting one piece off the front changes neither the leftovers nor the last piece. */
  lemma CutFront(r: Region, size: nat)
    requires size > 0 && Fits(r, size)
    ensures LeftStart(r, size) >= r.start + size
    ensures r.start + size < r.end ==>
      var r' := r.(start := r.start + size); LeftStart(r', size) == LeftStart(r, size)
    ensures r.start + size == r.end ==> LeftStart(r, size) == r.end
    ensures r.start + size < r.end && !Fits(r.(start := r.start + size), size) ==>
      LeftStart(r, size) == r.start + size
  {
    var len := r.end - r.start;
    ModStep(len, size);
    if len - size < size { ModSmall(len - size, size); }
    assert (len - size) % size <= len - size;
  }

  lemma NoCut(r: Region, size: nat)
    requires size > 0 && !Fits(r, size)
    ensures LeftStart(r, size) == r.start
  {
    if r.start < r.end { ModSmall(r.end - r.start, size); }
  }

  /** A hit changes neither what is left over in the end nor the piece returned in the end. */
  lemma HitChangesNothing(l: seq<Region>, vmaid: int, size: nat, found: Slot)
    requires size > 0 && OneArea(l, vmaid) && l != [] && Fits(l[0], size)
    ensures var next, slot := AfterHit(l, size), Slot(l[0].start, l[0].start + size);
      Leftovers(next, size) == Leftovers(l, size) && LastPiece(next, size, slot) == LastPiece(l, size, found)
  {
    hide LeftStart;
    if l[0].start + size < l[0].end {
      CutKeeps(l, size, found);
    } else if |l| > 1 {
      UsedUpKeeps(l, size, found);
    } else {
      CutFront(l[0], size);
      DummyStays(AfterHit(l, size), size, Slot(l[0].start, l[0].start + size));
      assert l[1..] == [];
    }
  }

  lemma CutKeeps(l: seq<Region>, size: nat, found: Slot)
    requires size > 0 && l != [] && Fits(l[0], size) && l[0].start + size < l[0].end
    ensures var next, slot := AfterHit(l, size), Slot(l[0].start, l[0].start + size);
      Leftovers(next, size) == Leftovers(l, size) && LastPiece(next, size, slot) == LastPiece(l, size, found)
  {
    hide LeftStart;
    CutFront(l[0], size);
    assert AfterHit(l, size)[1..] == l[1..];
  }

  lemma UsedUpKeeps(l: seq<Region>, size: nat, found: Slot)
    requires size > 0 && |l| > 1 && l[0].vmaid == l[1].vmaid && Fits(l[0], size) && l[0].start + size == l[0].end
    ensures var next, slot := AfterHit(l, size), Slot(l[0].start, l[0].start + size);
      Leftovers(next, size) == Leftovers(l[1..], size) == Leftovers(l, size)
      && LastPiece(next, size, slot) == LastPiece(l, size, found)
  {
    hide LeftStart;
    CutFront(l[0], size);
    assert AfterHit(l, size) == l[1..];
  }

  /** On the list of one area the coded loop computes exactly the leftovers and the last piece. */
  lemma {:induction false} SearchMeaning(l: seq<Region>, vmaid: int, size: nat, found: Slot)
    requires size > 0 && OneArea(l, vmaid)
    ensures Search(l, vmaid, size, found) == (Leftovers(l, size), LastPiece(l, size, found))
    decreases FreeBytes(l), |l|
  {
    hide LeftStart, AfterHit;
    if l != [] {
      if Fits(l[0], size) {
        HitChangesNothing(l, vmaid, size, found);
        HitOneArea(l, vmaid, size);
        SearchMeaning(AfterHit(l, size), vmaid, size, Slot(l[0].start, l[0].start + size));
      } else {
        NoCut(l[0], size);
        SearchMeaning(l[1..], vmaid, size, found);
      }
    }
  }

  lemma HitOneArea(l: seq<Region>, vmaid: int, size: nat)
    requires size > 0 && OneArea(l, vmaid) && l != [] && Fits(l[0], size)
    ensures OneArea(AfterHit(l, size), vmaid)
  {
  }

  lemma DummyStays(l: seq<Region>, size: nat, found: Slot)
    requires size > 0 && |l| == 1 && l[0].start == l[0].end
    ensures Leftovers(l, size) == l && LastPiece(l, size, found) == found
  {
    assert l == [l[0].(start := l[0].start)] + l[1..];
  }

  // ---------------------------------------------------------------- what a search gives and takes

  lemma {:induction false} LastPieceKept(l: seq<Region>, size: nat, found: Slot)
    requires size > 0 && !SomeFits(l, size)
    ensures LastPiece(l, size, found) == found && Leftovers(l, size) == l
  {
    hide LeftStart;
    if l != [] {
      NoCut(l[0], size);
      assert forall i :: 0 <= i < |l[1..]| ==> l[1..][i] == l[i + 1];
      LastPieceKept(l[1..], size, found);
      assert l == [l[0].(start := l[0].start)] + l[1..];
    }
  }

  lemma {:induction false} LastPieceFound(l: seq<Region>, size: nat, found: Slot)
    requires size > 0 && (SomeFits(l, size) || found.Slot?)
    ensures LastPiece(l, size, found).Slot?
  {
    hide LeftStart;
    if l != [] {
      var now := Fits(l[0], size);
      if now { CutFront(l[0], size); }
      if !now && !found.Slot? {
        var i :| 0 <= i < |l| && Fits(l[i], size);
        assert Fits(l[1..][i - 1], size);
      }
      var s := LeftStart(l[0], size);
      LastPieceFound(l[1..], size, if now && s >= size then Slot(s - size, s) else found);
    }
  }

  /** The search fails exactly when no region of the list fits, and then leaves it as it was. */
  lemma SearchFailsIff(l: seq<Region>, vmaid: int, size: nat)
    requires size > 0 && OneArea(l, vmaid)
    ensures var (left, slot) := Search(l, vmaid, size, NoSlot);
      && (slot == NoSlot <==> !SomeFits(l, size))
      && (slot == NoSlot ==> left == l)
  {
    SearchMeaning(l, vmaid, size, NoSlot);
    if SomeFits(l, size) {
      LastPieceFound(l, size, NoSlot);
    } else {
      LastPieceKept(l, size, NoSlot);
    }
  }

  predicate Inside(slot: Slot, r: Region) {
    slot.Slot? && r.start <= slot.start <= slot.end <= r.end
  }

  lemma {:induction false} LastPieceInside(l: seq<Region>, size: nat, found: Slot)
    requires size > 0
    ensures var slot := LastPiece(l, size, found);
      slot == found || (slot.Slot? && slot.end == slot.start + size && exists i :: 0 <= i < |l| && Inside(slot, l[i]))
  {
    hide LeftStart;
    if l != [] {
      var s := LeftStart(l[0], size);
      if Fits(l[0], size) { CutFront(l[0], size); LeftStartBound(l[0], size); }
      var here := if Fits(l[0], size) && s >= size then Slot(s - size, s) else found;
      var slot := LastPiece(l[1..], size, here);
      LastPieceInside(l[1..], size, here);
      if slot != here {
        var i :| 0 <= i < |l[1..]| && Inside(slot, l[1..][i]);
        assert Inside(slot, l[i + 1]);
      } else if here != found {
        assert Inside(slot, l[0]);
      }
    }
  }

  lemma LeftStartBound(r: Region, size: nat)
    requires size > 0
    ensures r.start <= r.end ==> LeftStart(r, size) <= r.end
    ensures r.start <= r.end ==> r.end - LeftStart(r, size) == (r.end - r.start) % size
  {
  }

  /** A region that is found has the asked size and lies inside one region of the list. */
  lemma FoundInside(l: seq<Region>, vmaid: int, size: nat)
    requires size > 0 && OneArea(l, vmaid) && SomeFits(l, size)
    ensures var slot := Search(l, vmaid, size, NoSlot).1;
      slot.Slot? && slot.end == slot.start + size && exists i :: 0 <= i < |l| && Inside(slot, l[i])
  {
    SearchMeaning(l, vmaid, size, NoSlot);
    SearchFailsIff(l, vmaid, size);
    LastPieceInside(l, size, NoSlot);
  }

  /** A region returned has the asked size, whatever areas the list's nodes belong to. */
  lemma {:induction false} SlotSize(l: seq<Region>, vmaid: int, size: nat, found: Slot)
    requires size > 0 && (found.Slot? ==> found.end == found.start + size)
    ensures var slot := Search(l, vmaid, size, found).1; slot.Slot? ==> slot.end == slot.start + size
    decreases FreeBytes(l), |l|
  {
    hide AfterHit;
    if l != [] && l[0].vmaid == vmaid {
      if Fits(l[0], size) {
        SlotSize(AfterHit(l, size), vmaid, size, Slot(l[0].start, l[0].start + size));
      } else {
        SlotSize(l[1..], vmaid, size, found);
      }
    }
  }

  // ---------------------------------------------------------------- bytes taken

  /** How many pieces of that size the regions of the list can be cut into. */
  function Pieces(l: seq<Region>, size: nat): nat
    requires size > 0
  {
    if l == [] then 0 else Length(l[0]) / size + Pieces(l[1..], size)
  }

  /** The bytes of a region that make up whole pieces. */
  function Whole(r: Region, size: nat): nat
    requires size > 0
  {
    size * (Length(r) / size)
  }

  function WholeBytes(l: seq<Region>, size: nat): nat
    requires size > 0
  {
    if l == [] then 0 else Whole(l[0], size) + WholeBytes(l[1..], size)
  }

  lemma {:induction false} WholePieces(l: seq<Region>, size: nat)
    requires size > 0
    ensures WholeBytes(l, size) == size * Pieces(l, size)
  {
    if l != [] {
      WholePieces(l[1..], size);
      Distribute(size, Length(l[0]) / size, Pieces(l[1..], size));
    }
  }

  lemma LeftoverBytes(r: Region, size: nat)
    requires size > 0
    ensures Length(r) == Whole(r, size) + Length(r.(start := LeftStart(r, size)))
  {
    Quotient(Length(r), size);
  }

  lemma {:induction false} LeftoversBytes(l: seq<Region>, size: nat)
    requires size > 0
    ensures FreeBytes(l) == FreeBytes(Leftovers(l, size)) + WholeBytes(l, size)
  {
    hide LeftStart, Whole;
    if l != [] {
      var r := l[0];
      var s := LeftStart(r, size);
      LeftoverBytes(r, size);
      LeftoversBytes(l[1..], size);
      var kept := [r.(start := s)] + Leftovers(l[1..], size);
      assert kept[1..] == Leftovers(l[1..], size);
      if |l| == 1 {
        assert l[1..] == [];
        assert [r.(start := r.end)][1..] == [];
      }
    }
  }

  /** A search takes every whole piece from every region, although the caller gets only one. */
  lemma SearchBytes(l: seq<Region>, vmaid: int, size: nat)
    requires size > 0 && OneArea(l, vmaid)
    ensures FreeBytes(l) == FreeBytes(Search(l, vmaid, size, NoSlot).0) + size * Pieces(l, size)
  {
    SearchMeaning(l, vmaid, size, NoSlot);
    LeftoversBytes(l, size);
    WholePieces(l, size);
  }

  lemma {:induction false} PiecesIff(l: seq<Region>, size: nat)
    requires size > 0
    ensures Pieces(l, size) == 0 <==> !SomeFits(l, size)
  {
    if l != [] {
      Quotient(Length(l[0]), size);
      PiecesIff(l[1..], size);
      if SomeFits(l[1..], size) {
        var i :| 0 <= i < |l[1..]| && Fits(l[1..][i], size);
        assert Fits(l[i + 1], size);
      }
      if SomeFits(l, size) && !Fits(l[0], size) {
        var i :| 0 <= i < |l| && Fits(l[i], size);
        assert Fits(l[1..][i - 1], size);
      }
    }
  }

  /** The free total drops by exactly the asked size, as it would if the first hit ended the
      loop, if and only if the list had room for exactly one such piece. */
  lemma TakesExactlySizeIff(l: seq<Region>, vmaid: int, size: nat)
    requires size > 0 && OneArea(l, vmaid)
    ensures FreeBytes(l) == FreeBytes(Search(l, vmaid, size, NoSlot).0) + size <==> Pieces(l, size) == 1
  {
    SearchBytes(l, vmaid, size);
    var p := Pieces(l, size);
    Distribute(size, p, 0);
    MulMono(p, 0, size); MulMono(2, p, size);
    MulCommutes(p, size);
  }

  /** The search as it would be if the first hit ended the loop. */
  function FirstFit(l: seq<Region>, size: nat): seq<Region>
    requires size > 0
  {
    if l == [] then []
    else if !Fits(l[0], size) then [l[0]] + FirstFit(l[1..], size)
    else if l[0].start + size < l[0].end || |l| == 1 then [l[0].(start := l[0].start + size)] + l[1..]
    else l[1..]
  }

  lemma {:induction false} FirstFitBytes(l: seq<Region>, size: nat)
    requires size > 0 && SomeFits(l, size)
    ensures FreeBytes(l) == FreeBytes(FirstFit(l, size)) + size
  {
    if Fits(l[0], size) {
      var cut := [l[0].(start := l[0].start + size)] + l[1..];
      assert cut[1..] == l[1..];
    } else {
      var i :| 0 <= i < |l| && Fits(l[i], size);
      assert Fits(l[1..][i - 1], size);
      FirstFitBytes(l[1..], size);
      var kept := [l[0]] + FirstFit(l[1..], size);
      assert kept[1..] == FirstFit(l[1..], size);
    }
  }

  /** Thirty free bytes, one request for ten: the caller gets the last ten and none are left. */
  lemma LostBytesExample()
    ensures Search([Region(0, 0, 30)], 0, 10, NoSlot) == ([Region(0, 30, 30)], Slot(20, 30))
  {
    SearchMeaning([Region(0, 0, 30)], 0, 10, NoSlot);
    assert LeftStart(Region(0, 0, 30), 10) == 30;
  }

  /** A node used up keeps its own area when it takes over the bounds of the next one: a region of
      area 1 behind it is then searched, and cut up, as area 0's. */
  lemma ForeignExample()
    ensures Search([Region(0, 0, 10), Region(1, 20, 45)], 0, 10, NoSlot) == ([Region(0, 40, 45)], Slot(30, 40))
  {
    var l := [Region(0, 0, 10), Region(1, 20, 45)];
    assert AfterHit(l, 10) == [Region(0, 20, 45)];
    SearchMeaning([Region(0, 20, 45)], 0, 10, Slot(0, 10));
    assert LeftStart(Region(0, 20, 45), 10) == 40;
    assert [Region(0, 20, 45)][1..] == [];
    assert Leftovers([Region(0, 20, 45)], 10) == [Region(0, 40, 45)];
    assert LastPiece([Region(0, 20, 45)], 10, Slot(0, 10)) == Slot(30, 40);
  }
}
