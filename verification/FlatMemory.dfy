/** Byte access through page tables, frames and bit fields behaves like one flat byte map per
    process, for any number of processes sharing one RAM. */
module FlatMemory {
  import opened Bits
  import opened PageEntry
  import opened Paging
  import opened Frames
  import opened Faults
  import opened MemPhy
  import AddressSpace

  const SPACE: nat := 0x40_0000

  /** The cell an address names: the source uses its 22 low bits. */
  function Cell(addr: Word): Word {
    addr % SPACE
  }

  datatype Memory = Memory(m: Machine, ram: seq<Byte>)

  predicate OnlineAt(m: Machine, p: nat, addr: Word)
    requires Tables(m)
  {
    AddressSplit(addr);
    p < |m.spaces| && Online(m.spaces[p].pgd[Pgn(addr)])
  }

  /** The physical byte behind an address of process p. */
  function Place(m: Machine, p: nat, addr: Word): nat
    requires Tables(m) && p < |m.spaces|
  {
    AddressSpace.Translate(m.spaces[p].pgd, addr)
  }

  /** No frame is shared and every mapped frame lies in RAM.  Frames may have been lost. */
  ghost predicate Sound(mem: Memory) {
    && Injective(mem.m)
    && mem.m.numfp * PAGESZ <= |mem.ram|
  }

  // ---------------------------------------------------------------- addresses and frames

  lemma CellMeaning(addr: Word)
    ensures Pgn(Cell(addr)) == Pgn(addr) && Offst(Cell(addr)) == Offst(addr)
    ensures Cell(addr) == Pgn(addr) * PAGESZ + Offst(addr)
  {
    hide Pgn, Offst;
    AddressSplit(addr);
    PgnMeaning(addr); PgnMeaning(Cell(addr));
    OffstMeaning(addr); OffstMeaning(Cell(addr));
  }

  lemma PlaceMeaning(m: Machine, p: nat, addr: Word)
    requires Tables(m) && OnlineAt(m, p, addr)
    ensures p < |m.spaces| && Pgn(addr) < MAX_PGN && Offst(addr) < PAGESZ
    ensures var f := Fpn(m.spaces[p].pgd[Pgn(addr)]);
      Backs(m, p, Pgn(addr), f) && Place(m, p, addr) == f * PAGESZ + Offst(addr)
  {
    hide Pgn, Offst, PhyAddr, Present, Swapped, Fpn;
    AddressSplit(addr);
    var f := Fpn(m.spaces[p].pgd[Pgn(addr)]);
    FpnBound(m.spaces[p].pgd[Pgn(addr)]);
    PhyAddrMeaning(f, Offst(addr));
  }

  lemma TwoDigits(f: nat, o: nat, f': nat, o': nat)
    requires o < PAGESZ && o' < PAGESZ && f * PAGESZ + o == f' * PAGESZ + o'
    ensures f == f' && o == o'
  {
  }

  /** Online addresses share a RAM byte only if they are the same cell of the same process. */
  lemma PlaceInjective(m: Machine, p: nat, a: Word, q: nat, b: Word)
    requires Injective(m) && OnlineAt(m, p, a) && OnlineAt(m, q, b)
    ensures p < |m.spaces| && q < |m.spaces|
    ensures Place(m, p, a) == Place(m, q, b) <==> p == q && Cell(a) == Cell(b)
  {
    hide Pgn, Offst, PhyAddr, Present, Swapped, Fpn, AddressSpace.Translate, Cell;
    PlaceMeaning(m, p, a);
    PlaceMeaning(m, q, b);
    CellMeaning(a);
    CellMeaning(b);
    if Place(m, p, a) == Place(m, q, b) {
      TwoDigits(Fpn(m.spaces[p].pgd[Pgn(a)]), Offst(a), Fpn(m.spaces[q].pgd[Pgn(b)]), Offst(b));
    }
    if p == q && Cell(a) == Cell(b) {
      TwoDigits(Pgn(a), Offst(a), Pgn(b), Offst(b));
    }
  }

  lemma PlaceInRam(mem: Memory, p: nat, addr: Word)
    requires Sound(mem) && OnlineAt(mem.m, p, addr)
    ensures p < |mem.m.spaces| && Place(mem.m, p, addr) < |mem.ram|
    ensures Pgn(addr) < MAX_PGN && InDevice(Fpn(mem.m.spaces[p].pgd[Pgn(addr)]), |mem.ram|)
  {
    hide Pgn, Offst, PhyAddr, Present, Swapped, Fpn, AddressSpace.Translate;
    PlaceMeaning(mem.m, p, addr);
  }

  // ---------------------------------------------------------------- reading and writing

  /** What `pg_getval` returns for an online page, and the RAM that `pg_setval` leaves. */
  function Load(mem: Memory, p: nat, addr: Word): Byte
    requires Tables(mem.m) && p < |mem.m.spaces| && Place(mem.m, p, addr) < |mem.ram|
  {
    mem.ram[Place(mem.m, p, addr)]
  }

  function Stored(mem: Memory, p: nat, addr: Word, value: Byte): Memory
    requires Tables(mem.m) && p < |mem.m.spaces| && Place(mem.m, p, addr) < |mem.ram|
  {
    mem.(ram := mem.ram[Place(mem.m, p, addr) := value])
  }

  /** After a write the address reads back the byte, and every online address of every process
      that names another cell reads as before. */
  lemma WriteThenRead(mem: Memory, p: nat, a: Word, value: Byte, q: nat, b: Word)
    requires Sound(mem) && OnlineAt(mem.m, p, a) && OnlineAt(mem.m, q, b)
    ensures p < |mem.m.spaces| && Place(mem.m, p, a) < |mem.ram|
    ensures q < |mem.m.spaces| && Place(mem.m, q, b) < |mem.ram|
    ensures Load(Stored(mem, p, a, value), q, b) ==
            if p == q && Cell(a) == Cell(b) then value else Load(mem, q, b)
  {
    hide Pgn, Offst, PhyAddr, Present, Swapped, Fpn, AddressSpace.Translate, Cell, Injective, OnlineAt;
    PlaceInRam(mem, p, a);
    PlaceInRam(mem, q, b);
    PlaceInjective(mem.m, p, a, q, b);
  }

  // ---------------------------------------------------------------- runs

  /** One operation of some process: map pages 0 to req - 1, access a page with the frames then
      free on the swap device, or write a byte to an online page. */
  datatype Op =
    | Map(p: nat, req: nat)
    | Touch(p: nat, pgn: nat, swapFree: seq<nat>)
    | Store(p: nat, addr: Word, value: Byte)

  /** The machine beside the flat byte maps it implements: one cell per process and address. */
  datatype Twin = Twin(mem: Memory, flat: map<(nat, nat), Byte>)

  /** Accesses may fail; one that evicts a page must be harmless. */
  ghost predicate CanApply(t: Twin, op: Op) {
    && Tables(t.mem.m)
    && match op
       case Map(p, req) => p < |t.mem.m.spaces| && req <= MAX_PGN
       case Touch(p, pgn, swapFree) =>
         p < |t.mem.m.spaces| && pgn < MAX_PGN && FifoInTable(t.mem.m.spaces[p])
         && (Evicts(t.mem.m.spaces[p], pgn, swapFree) ==> Harmless(t.mem.m, p, Victim(t.mem.m, p)))
       case Store(p, addr, _) => OnlineAt(t.mem.m, p, addr) && Place(t.mem.m, p, addr) < |t.mem.ram|
  }

  /** The flat maps without the cells of one page of one process. */
  function Forget(flat: map<(nat, nat), Byte>, p: nat, page: nat): map<(nat, nat), Byte> {
    map k | k in flat && !(k.0 == p && k.1 / PAGESZ == page) :: flat[k]
  }

  ghost function Apply(t: Twin, op: Op): Twin
    requires CanApply(t, op)
  {
    match op
    case Map(p, req) => t.(mem := t.mem.(m := AllocRange(t.mem.m, p, req)))
    case Touch(p, pgn, swapFree) =>
      Twin(t.mem.(m := Touched(t.mem.m, p, pgn, swapFree)),
        if Evicts(t.mem.m.spaces[p], pgn, swapFree) then Forget(t.flat, p, Victim(t.mem.m, p)) else t.flat)
    case Store(p, addr, value) =>
      Twin(Stored(t.mem, p, addr, value), t.flat[(p, Cell(addr)) := value])
  }

  /** A machine just formatted, with no byte written yet. */
  ghost predicate Start(t: Twin) {
    && t.flat == map[]
    && (exists n :: t.mem.m == Formatted(t.mem.m.numfp, n))
    && t.mem.m.numfp == |t.mem.ram| / PAGESZ && t.mem.m.numfp <= 8192
  }

  ghost predicate Step(t: Twin, u: Twin) {
    exists op :: CanApply(t, op) && u == Apply(t, op)
  }

  ghost predicate IsRun(run: seq<Twin>) {
    && |run| > 0 && Start(run[0])
    && forall i :: 0 <= i < |run| - 1 ==> Step(run[i], run[i + 1])
  }

  predicate Holds(mem: Memory, p: nat, a: Word, value: Byte)
    requires Tables(mem.m)
  {
    && a < SPACE && p < |mem.m.spaces| && OnlineAt(mem.m, p, a)
    && Place(mem.m, p, a) < |mem.ram| && Load(mem, p, a) == value
  }

  /** Every cell of the flat maps is online and holds its flat byte. */
  ghost predicate Agrees(t: Twin)
    requires Tables(t.mem.m)
  {
    forall p: nat, a: Word :: (p, a) in t.flat ==> Holds(t.mem, p, a, t.flat[(p, a)])
  }

  ghost predicate FifosSound(m: Machine) {
    forall p :: 0 <= p < |m.spaces| ==> FifoSound(m.spaces[p])
  }

  ghost predicate Inv(t: Twin) {
    && Usable(t.mem.m) && t.mem.m.numfp * PAGESZ <= |t.mem.ram|
    && FifosSound(t.mem.m) && Agrees(t)
  }

  // ---------------------------------------------------------------- mapping

  /** `alloc_pages_range` leaves every entry that is already present alone. */
  lemma {:induction false} AllocKeepsPresent(sp: Space, free: seq<nat>, frames: seq<nat>, i: nat, req: nat, j: nat)
    requires HasTable(sp) && req <= MAX_PGN && j < MAX_PGN && Present(sp.pgd[j])
    ensures AllocFrom(sp, free, frames, i, req).sp.pgd[j] == sp.pgd[j]
    decreases req - i
  {
    hide Present, PteSetFpn;
    if i < req {
      if Present(sp.pgd[i]) {
        AllocKeepsPresent(sp, free, frames, i + 1, req, j);
      } else if free != [] {
        AllocKeepsPresent(MapPage(sp, i, free[0]), free[1..], [free[0]] + frames, i + 1, req, j);
      }
    }
  }

  lemma MapKeepsPlaces(m: Machine, p: nat, req: nat, q: nat, a: Word)
    requires Tables(m) && p < |m.spaces| && req <= MAX_PGN && OnlineAt(m, q, a)
    ensures Tables(AllocRange(m, p, req)) && OnlineAt(AllocRange(m, p, req), q, a)
    ensures Place(AllocRange(m, p, req), q, a) == Place(m, q, a)
  {
    hide Present, Swapped, Fpn, Pgn, Offst, PhyAddr, AllocFrom;
    AddressSplit(a);
    if q == p { AllocKeepsPresent(m.spaces[p], m.free, [], 0, req, Pgn(a)); }
  }

  lemma MapInv(t: Twin, p: nat, req: nat)
    requires Inv(t) && CanApply(t, Map(p, req))
    ensures Inv(Apply(t, Map(p, req)))
  {
    hide Usable, Complete, FifoSound, AllocFrom, OnlineAt, Place;
    var u := Apply(t, Map(p, req));
    AllocLoopOk(t.mem.m, p, [], 0, req);
    AllocFifoSound(t.mem.m.spaces[p], t.mem.m.free, [], 0, req);
    UsableIsInjective(u.mem.m);
    forall q: nat, a: Word | (q, a) in u.flat
      ensures Holds(u.mem, q, a, u.flat[(q, a)])
    {
      assert Holds(t.mem, q, a, t.flat[(q, a)]);
      MapKeepsPlaces(t.mem.m, p, req, q, a);
    }
  }

  // ---------------------------------------------------------------- accesses

  /** An access moves no online byte, except that the victim's page goes offline. */
  lemma TouchKeepsPlaces(m: Machine, p: nat, pgn: nat, swapFree: seq<nat>, q: nat, a: Word)
    requires Tables(m) && p < |m.spaces| && FifoSound(m.spaces[p]) && pgn < MAX_PGN && OnlineAt(m, q, a)
    requires Evicts(m.spaces[p], pgn, swapFree) ==> !(q == p && Pgn(a) == Victim(m, p))
    ensures var t := Touched(m, p, pgn, swapFree);
      Tables(t) && OnlineAt(t, q, a) && Place(t, q, a) == Place(m, q, a)
  {
    hide Present, Swapped, Fpn, Pgn, Offst, PhyAddr, PteSetFpn, PteSetSwap;
    AddressSplit(a);
  }

  lemma TouchUsable(m: Machine, p: nat, pgn: nat, swapFree: seq<nat>)
    requires Usable(m) && p < |m.spaces| && FifoSound(m.spaces[p]) && pgn < MAX_PGN
    requires Evicts(m.spaces[p], pgn, swapFree) ==> Harmless(m, p, Victim(m, p))
    ensures Usable(Touched(m, p, pgn, swapFree))
  {
    hide Present, Online, Fpn, FaultedPgd;
    if Evicts(m.spaces[p], pgn, swapFree) {
      FaultUsableIff(m, p, pgn, swapFree);
    } else {
      var t := Touched(m, p, pgn, swapFree);
      assert t.spaces[p].pgd == m.spaces[p].pgd && Tables(t);
      assert forall q: nat, j: nat, f: nat :: Backs(t, q, j, f) <==> Backs(m, q, j, f);
    }
  }

  lemma TouchInv(t: Twin, p: nat, pgn: nat, swapFree: seq<nat>)
    requires Inv(t) && CanApply(t, Touch(p, pgn, swapFree))
    ensures Inv(Apply(t, Touch(p, pgn, swapFree)))
  {
    hide Usable, FifoSound, OnlineAt, Place, GetPage, Evicts, Harmless, Pgn, Offst, Cell;
    var u := Apply(t, Touch(p, pgn, swapFree));
    TouchUsable(t.mem.m, p, pgn, swapFree);
    TouchFifoSound(t.mem.m.spaces[p], pgn, swapFree);
    UsableIsInjective(u.mem.m);
    forall q: nat, a: Word | (q, a) in u.flat
      ensures Holds(u.mem, q, a, u.flat[(q, a)])
    {
      assert Holds(t.mem, q, a, t.flat[(q, a)]);
      PageOfCell(a);
      TouchKeepsPlaces(t.mem.m, p, pgn, swapFree, q, a);
    }
  }

  lemma PageOfCell(a: Word)
    requires a < SPACE
    ensures a / PAGESZ == Pgn(a)
  {
    hide Pgn, Offst;
    AddressSplit(a);
  }

  /** A fault that is not harmless because another page sits in the frame numbered like the
      victim makes every byte of the new page an alias of that page's byte. */
  lemma HarmfulFaultAliases(m: Machine, p: nat, pgn: nat, swapFree: seq<nat>, q: nat, a: Word, b: Word)
    requires Faulting(m, p, pgn, swapFree) && OnlineAt(m, q, a) && !(q == p && Pgn(a) == Victim(m, p))
    requires Pgn(a) < MAX_PGN && Backs(m, q, Pgn(a), Victim(m, p) % 8192)
    requires Pgn(b) == pgn && Offst(b) == Offst(a)
    ensures var t := Touched(m, p, pgn, swapFree);
      && Tables(t) && q < |t.spaces| && p < |t.spaces| && OnlineAt(t, q, a) && OnlineAt(t, p, b)
      && Place(t, p, b) == Place(t, q, a)
  {
    hide Online, Fpn, Pgn, Offst, Touched, AddressSpace.Translate;
    var t := Touched(m, p, pgn, swapFree);
    AllFaultBacks(m, p, pgn, swapFree);
    NotOnline(m, p, pgn, swapFree, Victim(m, p) % 8192);
    assert Backs(t, p, pgn, Victim(m, p) % 8192) && Backs(t, q, Pgn(a), Victim(m, p) % 8192);
    PlaceMeaning(t, p, b);
    PlaceMeaning(t, q, a);
  }

  // ---------------------------------------------------------------- writes

  lemma OnlineHasProcess(m: Machine, p: nat, a: Word)
    requires Tables(m) && OnlineAt(m, p, a)
    ensures p < |m.spaces|
  {
    hide Online, Pgn;
  }

  lemma StoreInv(t: Twin, p: nat, addr: Word, value: Byte)
    requires Inv(t) && CanApply(t, Store(p, addr, value))
    ensures Inv(Apply(t, Store(p, addr, value)))
  {
    hide Usable, FifoSound, OnlineAt, Place;
    var u := Apply(t, Store(p, addr, value));
    UsableIsInjective(t.mem.m);
    OnlineHasProcess(t.mem.m, p, addr);
    CellOnline(t.mem.m, p, addr);
    forall q: nat, a: Word | (q, a) in u.flat
      ensures Holds(u.mem, q, a, u.flat[(q, a)])
    {
      if (q, a) in t.flat { assert Holds(t.mem, q, a, t.flat[(q, a)]); }
      WriteThenRead(t.mem, p, addr, value, q, a);
    }
  }

  lemma CellOnline(m: Machine, p: nat, addr: Word)
    requires Tables(m) && OnlineAt(m, p, addr)
    ensures OnlineAt(m, p, Cell(addr)) && Cell(Cell(addr)) == Cell(addr) < SPACE
    ensures p < |m.spaces| && Place(m, p, Cell(addr)) == Place(m, p, addr)
  {
    hide Online, Pgn, Offst, PhyAddr, Fpn;
    CellMeaning(addr);
    AddressSplit(addr);
  }

  // ---------------------------------------------------------------- the refinement

  lemma StepInv(t: Twin, op: Op)
    requires Inv(t) && CanApply(t, op)
    ensures Inv(Apply(t, op))
  {
    hide Inv, CanApply, Apply;
    match op
    case Map(p, req) => MapInv(t, p, req);
    case Touch(p, pgn, swapFree) => TouchInv(t, p, pgn, swapFree);
    case Store(p, addr, value) => StoreInv(t, p, addr, value);
  }

  lemma StartInv(t: Twin)
    requires Start(t)
    ensures Inv(t)
  {
    hide Usable, Complete;
    var n :| t.mem.m == Formatted(t.mem.m.numfp, n);
    FormattedOk(t.mem.m.numfp, n);
    UsableIsInjective(t.mem.m);
  }

  lemma {:induction false} RunInv(run: seq<Twin>, i: nat)
    requires IsRun(run) && i < |run|
    ensures Inv(run[i])
  {
    hide Inv, CanApply, Apply, Start;
    if i == 0 {
      StartInv(run[0]);
    } else {
      RunInv(run, i - 1);
      assert Step(run[i - 1], run[i]);
      var op :| CanApply(run[i - 1], op) && run[i] == Apply(run[i - 1], op);
      StepInv(run[i - 1], op);
    }
  }

  /** Refinement: in every state of every run, reading any address that was written since its
      page came in, under any of its aliases, returns the last byte written to that cell by that
      process. */
  lemma ReadsLastWrite(run: seq<Twin>, i: nat, p: nat, addr: Word)
    requires IsRun(run) && i < |run| && (p, Cell(addr)) in run[i].flat
    ensures var mem := run[i].mem;
      && Tables(mem.m) && OnlineAt(mem.m, p, addr) && p < |mem.m.spaces|
      && Place(mem.m, p, addr) < |mem.ram| && Load(mem, p, addr) == run[i].flat[(p, Cell(addr))]
  {
    hide Online, Pgn, Offst, PhyAddr, Fpn, Usable, FifoSound;
    RunInv(run, i);
    UsableIsInjective(run[i].mem.m);
    CellMeaning(addr);
    AddressSplit(addr);
    AddressSplit(Cell(addr));
    assert Holds(run[i].mem, p, Cell(addr), run[i].flat[(p, Cell(addr))]);
  }

  // ---------------------------------------------------------------- without the flat maps

  /** A run together with its operations. */
  ghost predicate IsTrace(run: seq<Twin>, ops: seq<Op>) {
    && |run| == |ops| + 1 && Start(run[0])
    && forall k :: 0 <= k < |ops| ==> CanApply(run[k], ops[k]) && run[k + 1] == Apply(run[k], ops[k])
  }

  /** The operation writes that cell of that process, or evicts its page. */
  predicate Disturbs(m: Machine, op: Op, p: nat, addr: Word)
    requires Tables(m)
  {
    match op
    case Map(_, _) => false
    case Store(q, x, _) => q == p && Cell(x) == Cell(addr)
    case Touch(q, pgn, swapFree) =>
      q == p && q < |m.spaces| && pgn < MAX_PGN
      && Evicts(m.spaces[q], pgn, swapFree) && Victim(m, q) == Pgn(addr)
  }

  lemma FlatStays(t: Twin, op: Op, p: nat, addr: Word)
    requires CanApply(t, op) && !Disturbs(t.mem.m, op, p, addr) && (p, Cell(addr)) in t.flat
    ensures (p, Cell(addr)) in Apply(t, op).flat && Apply(t, op).flat[(p, Cell(addr))] == t.flat[(p, Cell(addr))]
  {
    hide AllocRange, Touched, Evicts, OnlineAt, Place, Pgn, Offst;
    CellMeaning(addr);
    PageOfCell(Cell(addr));
  }

  lemma {:induction false} FlatKept(run: seq<Twin>, ops: seq<Op>, i: nat, j: nat, p: nat, addr: Word)
    requires IsTrace(run, ops) && i <= j < |run| && (p, Cell(addr)) in run[i].flat
    requires forall k :: i <= k < j ==> Tables(run[k].mem.m) && !Disturbs(run[k].mem.m, ops[k], p, addr)
    ensures (p, Cell(addr)) in run[j].flat && run[j].flat[(p, Cell(addr))] == run[i].flat[(p, Cell(addr))]
    decreases j - i
  {
    hide CanApply, Apply, Disturbs, Cell, Start;
    if i < j {
      FlatStays(run[i], ops[i], p, addr);
      FlatKept(run, ops, i + 1, j, p, addr);
    }
  }

  lemma StoreIsFlat(t: Twin, p: nat, addr: Word, value: Byte)
    requires CanApply(t, Store(p, addr, value))
    ensures var u := Apply(t, Store(p, addr, value));
      (p, Cell(addr)) in u.flat && u.flat[(p, Cell(addr))] == value
  {
    hide OnlineAt, Place;
  }

  lemma TraceIsRun(run: seq<Twin>, ops: seq<Op>)
    requires IsTrace(run, ops)
    ensures IsRun(run)
  {
    hide CanApply, Apply, Start;
    forall i | 0 <= i < |run| - 1 ensures Step(run[i], run[i + 1]) {
      assert CanApply(run[i], ops[i]);
    }
  }

  /** A byte once written is read back in every later state until its cell is written again or its
      page is evicted, whatever all processes do in between. */
  lemma StoredByteStays(run: seq<Twin>, ops: seq<Op>, i: nat, j: nat, p: nat, addr: Word, value: Byte)
    requires IsTrace(run, ops) && i < j < |run| && ops[i] == Store(p, addr, value)
    requires forall k :: i < k < j ==> Tables(run[k].mem.m) && !Disturbs(run[k].mem.m, ops[k], p, addr)
    ensures var mem := run[j].mem;
      && Tables(mem.m) && OnlineAt(mem.m, p, addr) && p < |mem.m.spaces|
      && Place(mem.m, p, addr) < |mem.ram| && Load(mem, p, addr) == value
  {
    hide CanApply, Apply, Disturbs, Cell, Start, OnlineAt, Place;
    StoreIsFlat(run[i], p, addr, value);
    FlatKept(run, ops, i + 1, j, p, addr);
    TraceIsRun(run, ops);
    ReadsLastWrite(run, j, p, addr);
  }
}
