/** Variables: `__read` and `__write` reach the bytes of a symbol's region through the page table,
    so variables that share no region, or belong to different processes, share no byte of RAM. */
module Variables {
  import opened Bits
  import opened Frames
  import opened MemPhy
  import opened Regions
  import opened RegionRuns
  import opened FlatMemory

  /** The offset lies inside the symbol's region, and the region inside the 22-bit space. */
  predicate InVariable(s: Regs, id: SymId, offset: nat)
    requires Shape(s)
  {
    offset < Length(s.syms[id]) && s.syms[id].end <= SPACE
  }

  /** The address `__read` and `__write` compute; they check no bounds. */
  function AddressOf(s: Regs, id: SymId, offset: nat): Word
    requires Shape(s) && InVariable(s, id, offset)
  {
    s.syms[id].start + offset
  }

  /** Offset 0 of a variable just allocated is the address the allocation reports, offset k the
      k-th byte behind it, and all `size` offsets lie inside. */
  lemma AddressesFollow(s: Regs, vmaid: AreaId, id: SymId, size: nat, k: nat)
    requires Shape(s) && size > 0 && k < size && Alloc(s, vmaid, id, size).0
    requires Alloc(s, vmaid, id, size).1.syms[id].end <= SPACE
    ensures var t := Alloc(s, vmaid, id, size).1;
      && InVariable(t, id, 0) && AddressOf(t, id, 0) == t.syms[id].start
      && InVariable(t, id, k) && AddressOf(t, id, k) == AddressOf(t, id, 0) + k
      && !InVariable(t, id, size)
  {
    hide Search;
    SlotSize(if vmaid == 0 then s.data else s.heap, vmaid, size, NoSlot);
  }

  /** Different variables of one process, or different offsets of one, are different cells. */
  lemma DistinctCells(s: Regs, i: SymId, a: nat, j: SymId, b: nat)
    requires Shape(s) && PairwiseApart(s) && InVariable(s, i, a) && InVariable(s, j, b)
    ensures Cell(AddressOf(s, i, a)) == Cell(AddressOf(s, j, b)) <==> i == j && a == b
  {
    hide PairwiseApart;
    if i != j { SymbolsApart(s, i, j); }
    assert Has(s.syms[i], AddressOf(s, i, a)) && Has(s.syms[j], AddressOf(s, j, b));
  }

  /** One process: its number, how its regions started out, and what it did to them since. */
  datatype Owner = Owner(p: nat, start: Regs, ops: seq<RegionRuns.Op>)

  predicate HasSymbols(o: Owner) {
    Shape(o.start)
  }

  function Now(o: Owner): (s: Regs)
    requires HasSymbols(o)
    ensures Shape(s)
  {
    Exec(o.start, o.ops)
  }

  /** The byte at that offset of that variable is online. */
  predicate Reachable(m: Machine, o: Owner, id: SymId, offset: nat)
    requires Tables(m) && HasSymbols(o)
  {
    InVariable(Now(o), id, offset) && OnlineAt(m, o.p, AddressOf(Now(o), id, offset))
  }

  /** Variables do not interfere: after any runs of allocations and releases, a byte written
      inside one variable of one process is read back there and changes no byte inside any other
      variable of that process or of any other, whatever frames the pages were given. */
  lemma VariablesDoNotInterfere(mem: Memory, o: Owner, i: SymId, a: nat, value: Byte, u: Owner, j: SymId, b: nat)
    requires HasSymbols(o) && PairwiseApart(o.start) && HasSymbols(u) && (o.p == u.p ==> o == u)
    requires Sound(mem) && Reachable(mem.m, o, i, a) && Reachable(mem.m, u, j, b)
    ensures var x, y := AddressOf(Now(o), i, a), AddressOf(Now(u), j, b);
      && o.p < |mem.m.spaces| && Place(mem.m, o.p, x) < |mem.ram|
      && u.p < |mem.m.spaces| && Place(mem.m, u.p, y) < |mem.ram|
      && Load(Stored(mem, o.p, x, value), u.p, y) ==
         if o == u && i == j && a == b then value else Load(mem, u.p, y)
  {
    hide PairwiseApart, Sound, OnlineAt, Place, Cell, Exec;
    var x, y := AddressOf(Now(o), i, a), AddressOf(Now(u), j, b);
    if o == u {
      RunDisjoint(o.start, o.ops);
      DistinctCells(Now(o), i, a, j, b);
    }
    WriteThenRead(mem, o.p, x, value, u.p, y);
  }
}
