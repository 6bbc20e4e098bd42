/** What the paging operations do to a page table, its FIFO of resident pages and the lists of
    free frames: `alloc_pages_range`, `find_victim_page` and `pg_getpage`. */
module Paging {
  import opened Bits
  import opened PageEntry

  /** Present and not swapped: the entry's frame number is in use. */
  predicate Online(pte: Word) {
    Present(pte) && !Swapped(pte)
  }

  /** One process: its page table and `fifo_pgn`, newest page first. */
  datatype Space = Space(pgd: seq<Word>, fifo: seq<nat>)

  predicate HasTable(sp: Space) {
    |sp.pgd| == MAX_PGN
  }

  /** Every entry zero and no resident page, as `init_mm` leaves a process. */
  function EmptySpace(): Space {
    Space(seq(MAX_PGN, i => 0), [])
  }

  datatype AllocResult = AllocResult(ok: bool, sp: Space, free: seq<nat>, frames: seq<nat>)

  /** Page i takes the first free frame. */
  function MapPage(sp: Space, i: nat, fpn: nat): Space
    requires HasTable(sp) && i < MAX_PGN
  {
    Space(sp.pgd[i := PteSetFpn(sp.pgd[i], fpn)], [i] + sp.fifo)
  }

  /** The loop of `alloc_pages_range` from page i on: pages already present are skipped, and the
      first page without a free frame ends the loop with failure. */
  function AllocFrom(sp: Space, free: seq<nat>, frames: seq<nat>, i: nat, req: nat): (r: AllocResult)
    requires HasTable(sp) && req <= MAX_PGN
    ensures HasTable(r.sp)
    decreases req - i
  {
    if i >= req then AllocResult(true, sp, free, frames)
    else if Present(sp.pgd[i]) then AllocFrom(sp, free, frames, i + 1, req)
    else if free == [] then AllocResult(false, sp, free, frames)
    else AllocFrom(MapPage(sp, i, free[0]), free[1..], [free[0]] + frames, i + 1, req)
  }

  // ---------------------------------------------------------------- faults

  function DropLast<T>(s: seq<T>): seq<T>
    requires s != []
  {
    s[..|s| - 1]
  }

  function Last<T>(s: seq<T>): T
    requires s != []
  {
    s[|s| - 1]
  }

  /** The swap type the source passes is the mask of bit 30, not a device number. */
  function SwapTypeArgument(): Word {
    SWAPPED_MASK
  }

  /** A page fault on pgn with victim v and swap frame swpfpn, as coded: the new entry gets the
      victim's page number as its frame number. */
  function FaultedPgd(pgd: seq<Word>, pgn: nat, v: nat, swpfpn: nat): seq<Word>
    requires |pgd| == MAX_PGN && pgn < MAX_PGN && v < MAX_PGN
  {
    var out := pgd[v := PteSetSwap(pgd[v], SwapTypeArgument(), swpfpn)];
    out[pgn := SetBit(PteSetFpn(out[pgn], v), PRESENT_MASK)]
  }

  datatype PageResult = PageResult(ok: bool, sp: Space, swapFree: seq<nat>)

  predicate FifoInTable(sp: Space) {
    forall k :: 0 <= k < |sp.fifo| ==> sp.fifo[k] < MAX_PGN
  }

  /** `pg_getpage` on the table, the FIFO and the swap device's free frames.  When the swap is
      full the victim has already left the FIFO. */
  function GetPage(sp: Space, pgn: nat, swapFree: seq<nat>): (r: PageResult)
    requires HasTable(sp) && FifoInTable(sp) && pgn < MAX_PGN
    ensures HasTable(r.sp)
  {
    if Present(sp.pgd[pgn]) then PageResult(true, sp, swapFree)
    else if sp.fifo == [] then PageResult(false, sp, swapFree)
    else if swapFree == [] then PageResult(false, sp.(fifo := DropLast(sp.fifo)), swapFree)
    else
      PageResult(true,
        Space(FaultedPgd(sp.pgd, pgn, Last(sp.fifo), swapFree[0]), [pgn] + DropLast(sp.fifo)),
        swapFree[1..])
  }

  // ---------------------------------------------------------------- what mapping amounts to

  function Reverse(s: seq<nat>): seq<nat> {
    if s == [] then [] else Reverse(s[1..]) + [s[0]]
  }

  lemma {:induction false} ReverseConcat(a: seq<nat>, b: seq<nat>)
    ensures Reverse(a + b) == Reverse(b) + Reverse(a)
  {
    if a == [] {
      assert a + b == b;
    } else {
      assert (a + b)[1..] == a[1..] + b;
      ReverseConcat(a[1..], b);
    }
  }

  lemma {:induction false} ReverseTwice(a: seq<nat>)
    ensures Reverse(Reverse(a)) == a
  {
    if a != [] {
      ReverseTwice(a[1..]);
      ReverseConcat(Reverse(a[1..]), [a[0]]);
      assert Reverse([a[0]]) == [a[0]];
    }
  }

  /** How many of the pages i .. req-1 are not present. */
  function Absent(sp: Space, i: nat, req: nat): nat
    requires HasTable(sp) && req <= MAX_PGN
    decreases req - i
  {
    if i >= req then 0 else (if Present(sp.pgd[i]) then 0 else 1) + Absent(sp, i + 1, req)
  }

  lemma {:induction false} AbsentFrame(sp: Space, sp': Space, i: nat, req: nat)
    requires HasTable(sp) && HasTable(sp') && req <= MAX_PGN
    requires forall j :: i <= j < req ==> sp.pgd[j] == sp'.pgd[j]
    ensures Absent(sp, i, req) == Absent(sp', i, req)
    decreases req - i
  {
    hide Present;
    if i < req { AbsentFrame(sp, sp', i + 1, req); }
  }

  /** The entry of page j after a call for pages i .. req-1: the n-th page that is not present
      takes the n-th free frame, as far as they reach. */
  function EntryAfter(sp: Space, free: seq<nat>, i: nat, req: nat, j: nat): Word
    requires HasTable(sp) && req <= MAX_PGN && j < MAX_PGN
  {
    if i <= j < req && !Present(sp.pgd[j]) && Absent(sp, i, j) < |free|
    then PteSetFpn(sp.pgd[j], free[Absent(sp, i, j)]) else sp.pgd[j]
  }

  lemma EntryAfterOne(sp: Space, free: seq<nat>, i: nat, req: nat, j: nat)
    requires HasTable(sp) && i < req <= MAX_PGN && j < MAX_PGN
    ensures Present(sp.pgd[i]) ==> EntryAfter(sp, free, i, req, j) == EntryAfter(sp, free, i + 1, req, j)
    ensures !Present(sp.pgd[i]) && free != [] ==>
      EntryAfter(sp, free, i, req, j) == EntryAfter(MapPage(sp, i, free[0]), free[1..], i + 1, req, j)
  {
    hide Present, PteSetFpn;
    if !Present(sp.pgd[i]) && free != [] && i < j {
      AbsentFrame(sp, MapPage(sp, i, free[0]), i + 1, j);
    }
  }

  /** Entry by entry, what the loop leaves in the table. */
  lemma {:induction false} AllocEntries(sp: Space, free: seq<nat>, frames: seq<nat>, i: nat, req: nat, j: nat)
    requires HasTable(sp) && req <= MAX_PGN && j < MAX_PGN
    ensures AllocFrom(sp, free, frames, i, req).sp.pgd[j] == EntryAfter(sp, free, i, req, j)
    decreases req - i
  {
    hide Present, PteSetFpn, EntryAfter;
    if i < req {
      EntryAfterOne(sp, free, i, req, j);
      if Present(sp.pgd[i]) {
        AllocEntries(sp, free, frames, i + 1, req, j);
      } else if free != [] {
        AllocEntries(MapPage(sp, i, free[0]), free[1..], [free[0]] + frames, i + 1, req, j);
      } else {
        NothingFree(sp, free, i, req, j);
      }
    } else {
      NothingFree(sp, free, i, req, j);
    }
  }

  lemma NothingFree(sp: Space, free: seq<nat>, i: nat, req: nat, j: nat)
    requires HasTable(sp) && req <= MAX_PGN && j < MAX_PGN && (i >= req || free == [])
    ensures EntryAfter(sp, free, i, req, j) == sp.pgd[j]
  {
  }

  /** The call reports success exactly when the free frames suffice for the pages not present;
      a failed call has used them all up. */
  lemma {:induction false} AllocOkIff(sp: Space, free: seq<nat>, frames: seq<nat>, i: nat, req: nat)
    requires HasTable(sp) && req <= MAX_PGN
    ensures var r, n := AllocFrom(sp, free, frames, i, req), Absent(sp, i, req);
      (r.ok <==> n <= |free|) && r.free == if n <= |free| then free[n..] else []
    decreases req - i
  {
    hide Present, PteSetFpn;
    if i < req {
      if Present(sp.pgd[i]) {
        AllocOkIff(sp, free, frames, i + 1, req);
      } else if free != [] {
        var next := MapPage(sp, i, free[0]);
        AbsentFrame(sp, next, i + 1, req);
        AllocOkIff(next, free[1..], [free[0]] + frames, i + 1, req);
      }
    }
  }

  lemma ReversePush(x: nat, s: seq<nat>, t: seq<nat>)
    ensures Reverse([x] + s) + t == Reverse(s) + ([x] + t)
  {
    assert ([x] + s)[1..] == s;
  }

  /** The frames taken, latest first, and those still free are the frames that were free. */
  lemma {:induction false} FramesTaken(sp: Space, free: seq<nat>, frames: seq<nat>, i: nat, req: nat)
    requires HasTable(sp) && req <= MAX_PGN
    ensures var r := AllocFrom(sp, free, frames, i, req);
      Reverse(r.frames) + r.free == Reverse(frames) + free
    decreases req - i
  {
    hide Present, PteSetFpn, Reverse;
    if i < req {
      if Present(sp.pgd[i]) {
        FramesTaken(sp, free, frames, i + 1, req);
      } else if free != [] {
        FramesTaken(MapPage(sp, i, free[0]), free[1..], [free[0]] + frames, i + 1, req);
        ReversePush(free[0], frames, free[1..]);
        assert free == [free[0]] + free[1..];
      }
    }
  }

  lemma {:induction false} AbsentWitness(sp: Space, i: nat, req: nat, n: nat)
    requires HasTable(sp) && req <= MAX_PGN && n < Absent(sp, i, req)
    ensures exists j :: i <= j < req && !Present(sp.pgd[j]) && Absent(sp, i, j) == n
    decreases req - i
  {
    hide Present;
    if !Present(sp.pgd[i]) && n == 0 {
      assert Absent(sp, i, i) == 0;
    } else {
      var m := if Present(sp.pgd[i]) then n else n - 1;
      AbsentWitness(sp, i + 1, req, m);
      var j :| i + 1 <= j < req && !Present(sp.pgd[j]) && Absent(sp, i + 1, j) == m;
      assert Absent(sp, i, j) == n;
    }
  }

  lemma {:induction false} AbsentGrows(sp: Space, i: nat, j: nat, req: nat)
    requires HasTable(sp) && i <= j < req <= MAX_PGN && !Present(sp.pgd[j])
    ensures Absent(sp, i, j) < Absent(sp, i, req)
    decreases j - i
  {
    hide Present;
    if i < j { AbsentGrows(sp, i + 1, j, req); }
  }

  /** Success means that all pages below req are present, failure that some page is not. */
  lemma AllocPresentIff(sp: Space, free: seq<nat>, frames: seq<nat>, req: nat)
    requires HasTable(sp) && req <= MAX_PGN
    ensures var r := AllocFrom(sp, free, frames, 0, req);
      r.ok <==> forall j :: 0 <= j < req ==> Present(r.sp.pgd[j])
  {
    hide Present, PteSetFpn, AllocFrom;
    AllocOkIff(sp, free, frames, 0, req);
    var r, n := AllocFrom(sp, free, frames, 0, req), Absent(sp, 0, req);
    if r.ok {
      forall j | 0 <= j < req ensures Present(r.sp.pgd[j]) {
        AllocEntries(sp, free, frames, 0, req, j);
        if !Present(sp.pgd[j]) {
          AbsentGrows(sp, 0, j, req);
          MappedEntry(sp.pgd[j], free[Absent(sp, 0, j)]);
        }
      }
    } else {
      AbsentWitness(sp, 0, req, |free|);
      var j :| 0 <= j < req && !Present(sp.pgd[j]) && Absent(sp, 0, j) == |free|;
      AllocEntries(sp, free, frames, 0, req, j);
    }
  }

  // ---------------------------------------------------------------- entries

  lemma MappedEntry(pte: Word, fpn: nat)
    ensures Online(PteSetFpn(pte, fpn)) && Fpn(PteSetFpn(pte, fpn)) == fpn % 8192
  {
    hide Present, Swapped, Fpn, PteSetFpn;
    SetFpnMeaning(pte, fpn);
  }

  lemma FaultedEntries(pte: Word, fpn: nat, swptyp: nat, swpoff: nat)
    ensures Present(PteSetSwap(pte, swptyp, swpoff)) && Swapped(PteSetSwap(pte, swptyp, swpoff))
    ensures var r := SetBit(PteSetFpn(pte, fpn), PRESENT_MASK); Online(r) && Fpn(r) == fpn % 8192
  {
    hide PteSetFpn, PteSetSwap, Present, Swapped, Fpn, SetBit;
    SetSwapMeaning(pte, swptyp, swpoff);
    SetFpnMeaning(pte, fpn);
    SetPresentAgain(PteSetFpn(pte, fpn));
  }

  lemma SetPresentAgain(pte: Word)
    requires !Swapped(pte)
    ensures var r := SetBit(pte, PRESENT_MASK); Online(r) && Fpn(r) == Fpn(pte)
  {
    hide Present, Swapped, Fpn, SetBit, Bit, Field;
    var r := SetBit(pte, PRESENT_MASK);
    MaskValues();
    FlagMeaning(pte); FlagMeaning(r);
    FieldMeaning(pte); FieldMeaning(r);
    FlagField(pte, PRESENT_BIT, SWAPPED_BIT, SWAPPED_BIT);
    FlagField(pte, PRESENT_BIT, FPN_HIBIT, FPN_LOBIT);
  }

  lemma ZeroEntry()
    ensures !Present(0)
  {
  }

  // ---------------------------------------------------------------- the FIFO invariant

  /** The FIFO holds, without duplicates, exactly the pages that are present and not swapped. */
  ghost predicate FifoOk(sp: Space) {
    && HasTable(sp) && FifoInTable(sp)
    && (forall j, k :: 0 <= j < k < |sp.fifo| ==> sp.fifo[j] != sp.fifo[k])
    && (forall i :: 0 <= i < MAX_PGN ==> (Online(sp.pgd[i]) <==> i in sp.fifo))
  }

  lemma EmptyFifoOk()
    ensures FifoOk(EmptySpace())
  {
    ZeroEntry();
  }

  lemma MapPageFifoOk(sp: Space, i: nat, fpn: nat)
    requires FifoOk(sp) && i < MAX_PGN && !Present(sp.pgd[i])
    ensures FifoOk(MapPage(sp, i, fpn))
  {
    hide Present, Swapped, PteSetFpn, Fpn;
    MappedEntry(sp.pgd[i], fpn);
    assert i !in sp.fifo;
  }

  lemma {:induction false} AllocFifoOk(sp: Space, free: seq<nat>, frames: seq<nat>, i: nat, req: nat)
    requires FifoOk(sp) && req <= MAX_PGN
    ensures FifoOk(AllocFrom(sp, free, frames, i, req).sp)
    decreases req - i
  {
    hide Present, Swapped, PteSetFpn, Fpn, FifoOk;
    assert HasTable(sp) by { FifoOkHasTable(sp); }
    if i < req {
      if Present(sp.pgd[i]) {
        AllocFifoOk(sp, free, frames, i + 1, req);
      } else if free != [] {
        MapPageFifoOk(sp, i, free[0]);
        AllocFifoOk(MapPage(sp, i, free[0]), free[1..], [free[0]] + frames, i + 1, req);
      }
    }
  }

  lemma FifoOkHasTable(sp: Space)
    requires FifoOk(sp)
    ensures HasTable(sp) && FifoInTable(sp)
  {
    hide Present, Swapped;
  }

  lemma FaultFifoOk(sp: Space, pgn: nat, swapFree: seq<nat>)
    requires FifoOk(sp) && pgn < MAX_PGN && GetPage(sp, pgn, swapFree).ok
    ensures FifoOk(GetPage(sp, pgn, swapFree).sp)
  {
    hide Present, Swapped, PteSetFpn, PteSetSwap, Fpn, SetBit;
    if !Present(sp.pgd[pgn]) {
      var v := Last(sp.fifo);
      assert pgn !in sp.fifo && v in sp.fifo;
      FaultedEntries(sp.pgd[v], v, SwapTypeArgument(), swapFree[0]);
      FaultedEntries(sp.pgd[pgn], v, SwapTypeArgument(), swapFree[0]);
      assert sp.fifo == DropLast(sp.fifo) + [v];
    }
  }

  /** A fault that fails because the swap is full breaks the invariant, always: the victim is
      still online but no longer in the FIFO.  A fault with nobody to evict changes nothing. */
  lemma FailedFault(sp: Space, pgn: nat, swapFree: seq<nat>)
    requires FifoOk(sp) && pgn < MAX_PGN && !GetPage(sp, pgn, swapFree).ok
    ensures FifoOk(GetPage(sp, pgn, swapFree).sp) <==> sp.fifo == []
    ensures sp.fifo == [] ==> GetPage(sp, pgn, swapFree).sp == sp
  {
    hide Present, Swapped, PteSetFpn, PteSetSwap, Fpn;
    if sp.fifo != [] {
      var v := Last(sp.fifo);
      assert v in sp.fifo;
      assert v !in DropLast(sp.fifo);
    }
  }

  /** So an access keeps the invariant exactly when the page is present, or nobody can be
      evicted, or the swap has a free frame. */
  lemma AccessKeepsFifoIff(sp: Space, pgn: nat, swapFree: seq<nat>)
    requires FifoOk(sp) && pgn < MAX_PGN
    ensures FifoOk(GetPage(sp, pgn, swapFree).sp) <==> Present(sp.pgd[pgn]) || sp.fifo == [] || swapFree != []
  {
    hide Present, FifoOk, FaultedPgd;
    FifoOkHasTable(sp);
    if GetPage(sp, pgn, swapFree).ok {
      FaultFifoOk(sp, pgn, swapFree);
    } else {
      FailedFault(sp, pgn, swapFree);
    }
  }

  /** One resident page, a second one touched, and no room on the swap device. */
  lemma FullSwapExample()
    ensures var sp := MapPage(EmptySpace(), 0, 0);
      FifoOk(sp) && !FifoOk(GetPage(sp, 1, []).sp)
  {
    hide Present, Swapped, PteSetFpn;
    EmptyFifoOk();
    ZeroEntry();
    MapPageFifoOk(EmptySpace(), 0, 0);
    AccessKeepsFifoIff(MapPage(EmptySpace(), 0, 0), 1, []);
  }
}
