/** Allocation from the free list and `__free` over whole runs: which bytes are free, which
    belong to a symbol, and why no byte is ever in two regions. */
module RegionRuns {
  import opened Regions

  const MAX_SYMTBL: nat := 30

  type SymId = i: nat | i < MAX_SYMTBL

  /** Area 0 holds data, area 1 the heap. */
  type AreaId = i: nat | i < 2

  /** The free lists of the two areas and the symbol table of one process. */
  datatype Regs = Regs(data: seq<Region>, heap: seq<Region>, syms: seq<Region>)

  /** A symbol whose region was given back. */
  const GONE := Region(-1, 0, 0)

  predicate Shape(s: Regs) {
    |s.syms| == MAX_SYMTBL
  }

  /** `__alloc` as far as the free list of the area can serve it. */
  function Alloc(s: Regs, vmaid: AreaId, rgid: SymId, size: int): (r: (bool, Regs))
    requires Shape(s)
    ensures Shape(r.1)
  {
    if size <= 0 then (false, s)
    else
      var (left, slot) := Search(if vmaid == 0 then s.data else s.heap, vmaid, size, NoSlot);
      var t := if vmaid == 0 then s.(data := left) else s.(heap := left);
      match slot
      case NoSlot => (false, t)
      case Slot(a, b) => (true, t.(syms := s.syms[rgid := Region(vmaid, a, b)]))
  }

  /** `enlist_vm_freerg_list`, the new region in front; an empty one is not enlisted. */
  function Enlisted(free: seq<Region>, r: Region): seq<Region> {
    if r.start >= r.end then free else [r] + free
  }

  /** `__free`: whatever its area, the region goes to the list of area 0. */
  function Release(s: Regs, rgid: int): (r: (bool, Regs))
    requires Shape(s)
    ensures Shape(r.1)
  {
    if rgid < 0 || rgid >= MAX_SYMTBL then (false, s)
    else if s.syms[rgid].vmaid < 0 || s.syms[rgid].vmaid > 1 then (false, s)
    else (true, s.(data := Enlisted(s.data, s.syms[rgid]), syms := s.syms[rgid := GONE]))
  }

  datatype Op = DoAlloc(vmaid: AreaId, rgid: SymId, size: int) | DoFree(id: int)

  function Apply(s: Regs, op: Op): (r: (bool, Regs))
    requires Shape(s)
    ensures Shape(r.1)
  {
    match op
    case DoAlloc(vmaid, rgid, size) => Alloc(s, vmaid, rgid, size)
    case DoFree(id) => Release(s, id)
  }

  function Exec(s: Regs, ops: seq<Op>): (r: Regs)
    requires Shape(s)
    ensures Shape(r)
  {
    if ops == [] then s else Apply(Exec(s, ops[..|ops| - 1]), ops[|ops| - 1]).1
  }

  // ---------------------------------------------------------------- how often a byte is covered

  predicate Has(r: Region, b: nat) {
    r.start <= b < r.end
  }

  function Count(c: bool): nat {
    if c then 1 else 0
  }

  /** The number of regions of the list that contain byte b. */
  function Cover(l: seq<Region>, b: nat): nat {
    if l == [] then 0 else Count(Has(l[0], b)) + Cover(l[1..], b)
  }

  predicate SlotHas(slot: Slot, b: nat) {
    slot.Slot? && slot.start <= b < slot.end
  }

  lemma HitCover(l: seq<Region>, size: nat, b: nat)
    requires size > 0 && l != [] && Fits(l[0], size)
    ensures Cover(AfterHit(l, size), b) + Count(SlotHas(Slot(l[0].start, l[0].start + size), b)) == Cover(l, b)
  {
    var next := AfterHit(l, size);
    if l[0].start + size < l[0].end {
      assert next[1..] == l[1..];
    } else if |l| > 1 {
      assert next[1..] == l[1..][1..];
      assert Cover(l[1..], b) == Count(Has(l[1], b)) + Cover(l[1..][1..], b);
    } else {
      assert next[1..] == l[1..] == [];
    }
  }

  /** What a search leaves and the piece it returns cover no byte more often than the list did,
      whatever areas its nodes belong to. */
  lemma {:induction false} SearchCover(l: seq<Region>, vmaid: int, size: nat, found: Slot, b: nat)
    requires size > 0
    ensures var (left, slot) := Search(l, vmaid, size, found);
      Cover(left, b) + Count(SlotHas(slot, b)) <= Cover(l, b) + Count(SlotHas(found, b))
    decreases FreeBytes(l), |l|
  {
    hide AfterHit;
    if l != [] && l[0].vmaid == vmaid {
      if Fits(l[0], size) {
        HitCover(l, size, b);
        SearchCover(AfterHit(l, size), vmaid, size, Slot(l[0].start, l[0].start + size), b);
      } else {
        SearchCover(l[1..], vmaid, size, found, b);
        var rest := Search(l[1..], vmaid, size, found).0;
        assert ([l[0]] + rest)[1..] == rest;
      }
    }
  }

  lemma {:induction false} CoverUpdate(l: seq<Region>, i: nat, r: Region, b: nat)
    requires i < |l|
    ensures Cover(l[i := r], b) + Count(Has(l[i], b)) == Cover(l, b) + Count(Has(r, b))
  {
    if i == 0 {
      assert l[i := r][1..] == l[1..];
    } else {
      CoverUpdate(l[1..], i - 1, r, b);
      assert l[i := r][1..] == l[1..][i - 1 := r];
    }
  }

  lemma {:induction false} CoverOne(l: seq<Region>, i: nat, b: nat)
    requires i < |l| && Has(l[i], b)
    ensures Cover(l, b) >= 1
  {
    if i > 0 { CoverOne(l[1..], i - 1, b); }
  }

  lemma {:induction false} CoverTwo(l: seq<Region>, i: nat, j: nat, b: nat)
    requires i < j < |l| && Has(l[i], b) && Has(l[j], b)
    ensures Cover(l, b) >= 2
  {
    if i > 0 { CoverTwo(l[1..], i - 1, j - 1, b); } else { CoverOne(l[1..], j - 1, b); }
  }

  // ---------------------------------------------------------------- one operation

  /** How many regions, free or a symbol's, contain byte b. */
  function Covered(s: Regs, b: nat): nat {
    Cover(s.data, b) + Cover(s.heap, b) + Cover(s.syms, b)
  }

  lemma AllocCover(s: Regs, vmaid: AreaId, rgid: SymId, size: int, b: nat)
    requires Shape(s)
    ensures Covered(Alloc(s, vmaid, rgid, size).1, b) <= Covered(s, b)
  {
    hide Search;
    if size > 0 {
      var l := if vmaid == 0 then s.data else s.heap;
      SearchCover(l, vmaid, size, NoSlot, b);
      var slot := Search(l, vmaid, size, NoSlot).1;
      if slot.Slot? {
        CoverUpdate(s.syms, rgid, Region(vmaid, slot.start, slot.end), b);
      }
    }
  }

  lemma ReleaseCover(s: Regs, rgid: int, b: nat)
    requires Shape(s)
    ensures Covered(Release(s, rgid).1, b) <= Covered(s, b)
    ensures Release(s, rgid).0 ==> Covered(Release(s, rgid).1, b) == Covered(s, b)
  {
    if 0 <= rgid < MAX_SYMTBL {
      CoverUpdate(s.syms, rgid, GONE, b);
      var r := s.syms[rgid];
      assert ([r] + s.data)[1..] == s.data;
    }
  }

  // ---------------------------------------------------------------- runs

  /** No run covers a byte more often than it was covered at the start. */
  lemma {:induction false} RunCover(s: Regs, ops: seq<Op>, b: nat)
    requires Shape(s)
    ensures Covered(Exec(s, ops), b) <= Covered(s, b)
  {
    if ops != [] {
      hide Alloc, Release, Covered;
      var before, op := Exec(s, ops[..|ops| - 1]), ops[|ops| - 1];
      RunCover(s, ops[..|ops| - 1], b);
      match op
      case DoAlloc(vmaid, rgid, size) => AllocCover(before, vmaid, rgid, size, b);
      case DoFree(id) => ReleaseCover(before, id, b);
    }
  }

  ghost predicate Apart(r: Region, t: Region) {
    forall b: nat :: !(Has(r, b) && Has(t, b))
  }

  ghost predicate AllApart(l: seq<Region>) {
    forall i, j :: 0 <= i < j < |l| ==> Apart(l[i], l[j])
  }

  /** All free regions of both areas and all symbol regions are pairwise disjoint. */
  ghost predicate PairwiseApart(s: Regs) {
    AllApart(s.data + s.heap + s.syms)
  }

  lemma {:induction false} CoverConcat(k: seq<Region>, l: seq<Region>, b: nat)
    ensures Cover(k + l, b) == Cover(k, b) + Cover(l, b)
  {
    if k == [] {
      assert k + l == l;
    } else {
      assert (k + l)[1..] == k[1..] + l;
      CoverConcat(k[1..], l, b);
    }
  }

  lemma CoveredAll(s: Regs, b: nat)
    ensures Cover(s.data + s.heap + s.syms, b) == Covered(s, b)
  {
    CoverConcat(s.data, s.heap, b);
    CoverConcat(s.data + s.heap, s.syms, b);
  }

  lemma CoverApart(l: seq<Region>)
    requires forall b: nat :: Cover(l, b) <= 1
    ensures AllApart(l)
  {
    forall i, j | 0 <= i < j < |l| ensures Apart(l[i], l[j]) {
      forall b: nat ensures !(Has(l[i], b) && Has(l[j], b)) {
        assert Cover(l, b) <= 1;
        if Has(l[i], b) && Has(l[j], b) { CoverTwo(l, i, j, b); }
      }
    }
  }

  lemma {:induction false} ApartCover(l: seq<Region>, b: nat)
    requires AllApart(l)
    ensures Cover(l, b) <= 1
    ensures Cover(l, b) == 1 ==> exists i :: 0 <= i < |l| && Has(l[i], b)
  {
    if l != [] {
      forall i, j | 0 <= i < j < |l[1..]| ensures Apart(l[1..][i], l[1..][j]) {
        assert Apart(l[i + 1], l[j + 1]);
      }
      ApartCover(l[1..], b);
      if Cover(l[1..], b) == 1 {
        var i :| 0 <= i < |l[1..]| && Has(l[1..][i], b);
        assert Apart(l[0], l[i + 1]) && Has(l[i + 1], b);
      }
    }
  }

  /** Regions that start out pairwise disjoint stay so over every run of allocations and
      releases in both areas. */
  lemma RunDisjoint(s: Regs, ops: seq<Op>)
    requires Shape(s) && PairwiseApart(s)
    ensures PairwiseApart(Exec(s, ops))
  {
    hide AllApart, Covered, Exec;
    var t := Exec(s, ops);
    forall b: nat ensures Cover(t.data + t.heap + t.syms, b) <= 1 {
      RunCover(s, ops, b);
      CoveredAll(s, b);
      CoveredAll(t, b);
      ApartCover(s.data + s.heap + s.syms, b);
    }
    CoverApart(t.data + t.heap + t.syms);
  }

  lemma SymbolsApart(s: Regs, i: SymId, j: SymId)
    requires Shape(s) && PairwiseApart(s) && i != j
    ensures Apart(s.syms[i], s.syms[j])
  {
    var l, n := s.data + s.heap + s.syms, |s.data + s.heap|;
    assert l[n + i] == s.syms[i] && l[n + j] == s.syms[j];
    assert Apart(l[n + i], l[n + j]) || Apart(l[n + j], l[n + i]);
  }

  /** What `init_mm` leaves: an empty region of area 0 in both lists. */
  predicate HeapUnserved(s: Regs) {
    s.heap == [] || s.heap[0].vmaid != 1
  }

  /** The only region `init_mm` puts in area 1's list is marked as area 0's, and releases never
      reach that list: over every run no request for the heap is served from it. */
  lemma {:induction false} HeapNeverServed(s: Regs, ops: seq<Op>, rgid: SymId, size: int)
    requires Shape(s) && HeapUnserved(s)
    ensures Exec(s, ops).heap == s.heap
    ensures Alloc(Exec(s, ops), 1, rgid, size) == (false, Exec(s, ops))
  {
    if ops != [] {
      HeapNeverServed(s, ops[..|ops| - 1], rgid, size);
      var before, op := Exec(s, ops[..|ops| - 1]), ops[|ops| - 1];
      if op.DoAlloc? && op.vmaid == 1 {
        HeapNeverServed(s, ops[..|ops| - 1], op.rgid, op.size);
      }
    }
  }

  // ---------------------------------------------------------------- what is served

  /** The state `init_mm` leaves, with the symbol table taken as empty. */
  function InitRegs(): Regs {
    Regs([Region(0, 0, 0)], [Region(0, 0, 0)], seq(MAX_SYMTBL, i => Region(0, 0, 0)))
  }

  /** Area 0's list holds area 0's regions only, and so does every symbol not given back. */
  ghost predicate DataOnly(s: Regs) {
    && Shape(s) && OneArea(s.data, 0) && HeapUnserved(s)
    && forall i :: 0 <= i < MAX_SYMTBL ==> s.syms[i].vmaid == 0 || s.syms[i] == GONE
  }

  lemma {:induction false} LeftoversArea(l: seq<Region>, size: nat, vmaid: int)
    requires size > 0 && OneArea(l, vmaid)
    ensures OneArea(Leftovers(l, size), vmaid)
  {
    hide LeftStart;
    if l != [] { LeftoversArea(l[1..], size, vmaid); }
  }

  /** A request in area 0 is served exactly when some listed region is large enough; the symbol
      then holds that many bytes of one listed region, and no other symbol changes. */
  lemma AllocServedIff(s: Regs, rgid: SymId, size: nat)
    requires DataOnly(s) && size > 0
    ensures var (ok, t) := Alloc(s, 0, rgid, size);
      && (ok <==> SomeFits(s.data, size))
      && (if !ok then t == s
          else
            var a := t.syms[rgid].start;
            && t.syms == s.syms[rgid := Region(0, a, a + size)] && t.heap == s.heap
            && exists i :: 0 <= i < |s.data| && Inside(Slot(a, a + size), s.data[i]))
  {
    hide Search;
    SearchFailsIff(s.data, 0, size);
    if SomeFits(s.data, size) { FoundInside(s.data, 0, size); }
  }

  /** In either area, a request that is served marks its symbol with the area and the asked size,
      and touches no other symbol and not the other area's list. */
  lemma AllocMarks(s: Regs, vmaid: AreaId, rgid: SymId, size: int)
    requires Shape(s) && Alloc(s, vmaid, rgid, size).0
    ensures var t := Alloc(s, vmaid, rgid, size).1;
      && t.syms[rgid].vmaid == vmaid && size > 0 && t.syms[rgid].end == t.syms[rgid].start + size
      && (forall i: SymId :: i != rgid ==> t.syms[i] == s.syms[i])
      && (if vmaid == 0 then t.heap == s.heap else t.data == s.data)
  {
    hide Search;
    SlotSize(if vmaid == 0 then s.data else s.heap, vmaid, size, NoSlot);
  }

  /** A release that is not refused puts the region, area and bounds unchanged, in front of area
      0's list if it is not empty, marks the symbol and touches nothing else. */
  lemma ReleaseMoves(s: Regs, id: int)
    requires Shape(s) && Release(s, id).0
    ensures 0 <= id < MAX_SYMTBL
    ensures var t := Release(s, id).1;
      && t.syms[id] == GONE && (forall i: SymId :: i != id ==> t.syms[i] == s.syms[i]) && t.heap == s.heap
      && t.data == (if Length(s.syms[id]) > 0 then [s.syms[id]] else []) + s.data
  {
    assert [] + s.data == s.data;
  }

  lemma AllocDataOnly(s: Regs, vmaid: AreaId, rgid: SymId, size: int)
    requires DataOnly(s)
    ensures DataOnly(Alloc(s, vmaid, rgid, size).1)
  {
    hide Search, Leftovers, LastPiece;
    if size > 0 && vmaid == 0 {
      SearchMeaning(s.data, 0, size, NoSlot);
      LeftoversArea(s.data, size, 0);
    } else if size > 0 {
      HeapNeverServed(s, [], rgid, size);
    }
  }

  /** Over every run from the state `init_mm` leaves, or any other of that kind, area 0's list and
      the symbols stay area 0's. */
  lemma {:induction false} RunDataOnly(s: Regs, ops: seq<Op>)
    requires DataOnly(s)
    ensures DataOnly(Exec(s, ops))
  {
    hide Alloc, OneArea;
    if ops != [] {
      RunDataOnly(s, ops[..|ops| - 1]);
      var before, op := Exec(s, ops[..|ops| - 1]), ops[|ops| - 1];
      match op
      case DoAlloc(vmaid, rgid, size) => AllocDataOnly(before, vmaid, rgid, size);
      case DoFree(id) => ReleaseDataOnly(before, id);
    }
  }

  lemma ReleaseDataOnly(s: Regs, id: int)
    requires DataOnly(s)
    ensures DataOnly(Release(s, id).1)
  {
  }

  lemma InitDataOnly()
    ensures DataOnly(InitRegs()) && PairwiseApart(InitRegs())
  {
  }

  /** Round trip: after any run, a variable of n bytes can be given back, and then a request for
      n bytes is served at once, with n bytes inside one listed region. */
  lemma ReleaseThenAlloc(s: Regs, ops: seq<Op>, id: SymId, other: SymId)
    requires DataOnly(s) && Length(Exec(s, ops).syms[id]) > 0
    ensures var n := Length(Exec(s, ops).syms[id]);
      var (freed, after) := Release(Exec(s, ops), id);
      var (ok, t) := Alloc(after, 0, other, n);
      && freed && after.syms[id] == GONE && ok && Length(t.syms[other]) == n
      && exists i :: 0 <= i < |after.data| && Inside(Slot(t.syms[other].start, t.syms[other].end), after.data[i])
  {
    hide Alloc, Exec, OneArea;
    var before := Exec(s, ops);
    var n, after := Length(before.syms[id]), Release(before, id).1;
    RunDataOnly(s, ops);
    ReleaseDataOnly(before, id);
    assert Fits(after.data[0], n);
    AllocServedIff(after, other, n);
  }

  // ---------------------------------------------------------------- double release

  /** After that run, the last operation that did anything to the symbol gave it back (or none
      did and it was already gone at the start). */
  function GivenBack(s: Regs, ops: seq<Op>, id: SymId): bool
    requires Shape(s)
  {
    if ops == [] then s.syms[id] == GONE
    else
      var before, op := Exec(s, ops[..|ops| - 1]), ops[|ops| - 1];
      match op
      case DoFree(other) => other == id || GivenBack(s, ops[..|ops| - 1], id)
      case DoAlloc(vmaid, rgid, size) =>
        if rgid == id && Alloc(before, vmaid, rgid, size).0 then false else GivenBack(s, ops[..|ops| - 1], id)
  }

  /** Every symbol belongs to an area or was given back. */
  predicate SymbolsOk(s: Regs) {
    Shape(s) && forall i :: 0 <= i < MAX_SYMTBL ==> 0 <= s.syms[i].vmaid <= 1 || s.syms[i] == GONE
  }

  lemma {:induction false} GivenBackMeaning(s: Regs, ops: seq<Op>, id: SymId)
    requires SymbolsOk(s)
    ensures SymbolsOk(Exec(s, ops))
    ensures GivenBack(s, ops, id) <==> Exec(s, ops).syms[id] == GONE
  {
    hide Search;
    if ops != [] {
      GivenBackMeaning(s, ops[..|ops| - 1], id);
    }
  }

  /** Over every run, a release is refused, and changes nothing, exactly when the id is not a
      symbol or its region was already given back. */
  lemma {:induction false} ReleaseRefusedIff(s: Regs, ops: seq<Op>, id: int)
    requires SymbolsOk(s)
    ensures var before := Exec(s, ops); var (ok, after) := Release(before, id);
      && (!ok <==> !(0 <= id < MAX_SYMTBL) || GivenBack(s, ops, id))
      && (!ok ==> after == before)
  {
    hide Exec, GivenBack;
    if 0 <= id < MAX_SYMTBL { GivenBackMeaning(s, ops, id); }
  }
}
