/** One process's memory management as objects in the heap: the page-table array, the linked
    FIFO of resident pages, and access to bytes through them. */
module AddressSpace {
  import opened Lists
  import opened Bits
  import opened PageEntry
  import opened Paging
  import opened MemPhy

  /** The byte a virtual address stands for, given the page table. */
  function Translate(pgd: seq<Word>, addr: Word): nat
    requires |pgd| == MAX_PGN
  {
    AddressSplit(addr);
    PhyAddr(Fpn(pgd[Pgn(addr)]), Offst(addr))
  }

  class MemoryMap {
    const pgd: array<Word>
    var fifoPgn: Node?<nat>
    ghost var chain: seq<Node<nat>>

    ghost predicate Valid()
      reads this, chain
    {
      pgd.Length == MAX_PGN && IsChain(fifoPgn, chain)
    }

    ghost function Model(): Space
      reads this, chain, pgd
    {
      Space(pgd[..], Values(chain))
    }

    /** `init_mm`: the page table and the FIFO. */
    constructor ()
      ensures Valid() && Model() == EmptySpace() && fresh(pgd)
    {
      pgd := new Word[MAX_PGN];
      fifoPgn := null;
      chain := [];
      new;
      for i := 0 to MAX_PGN
        invariant Valid() && chain == []
        invariant forall k :: 0 <= k < i ==> pgd[k] == 0
      {
        pgd[i] := 0;
      }
    }

    /** `enlist_pgn_node` */
    method EnlistPgnNode(pgn: nat)
      requires Valid()
      modifies this
      ensures Valid() && Values(chain) == [pgn] + old(Values(chain))
      ensures |chain| > 0 && fresh(chain[0]) && chain[1..] == old(chain)
    {
      var pnode := new Node<nat>(pgn, fifoPgn);
      Pushed(pnode, chain);
      fifoPgn := pnode;
      chain := [pnode] + chain;
    }

    /** One round of the loop of `alloc_pages_range` for a page that is not present. */
    method MapOne(mram: Device, pgit: nat) returns (r: int, fpn: nat)
      requires Valid() && mram.Valid() && pgit < MAX_PGN
      modifies this, pgd, mram
      ensures Valid() && mram.Valid()
      ensures old(mram.FreeFrames()) == [] ==>
        r == -1 && Model() == old(Model()) && mram.FreeFrames() == []
      ensures old(mram.FreeFrames()) != [] ==>
        r == 0 && fpn == old(mram.FreeFrames())[0] && mram.FreeFrames() == old(mram.FreeFrames())[1..]
        && Model() == MapPage(old(Model()), pgit, fpn)
    {
      hide PteSetFpn, Values;
      r, fpn := mram.GetFreeFp();
      if r != 0 { return -1, 0; }
      pgd[pgit] := PteSetFpn(pgd[pgit], fpn);
      EnlistPgnNode(pgit);
    }

    /** `alloc_pages_range`; `frames` is the list of taken frames, latest first. */
    method AllocPagesRange(mram: Device, req: int) returns (r: int, frames: seq<nat>)
      requires Valid() && mram.Valid() && req <= MAX_PGN
      modifies this, pgd, mram
      ensures Valid() && mram.Valid()
      ensures r == 0 || r == -1
      ensures AllocResult(r == 0, Model(), mram.FreeFrames(), frames) ==
        AllocFrom(old(Model()), old(mram.FreeFrames()), [], 0, if req < 0 then 0 else req)
    {
      var n: nat := if req < 0 then 0 else req;
      frames := [];
      ghost var whole := AllocFrom(Model(), mram.FreeFrames(), frames, 0, n);
      for pgit := 0 to n
        invariant Valid() && mram.Valid()
        invariant AllocFrom(Model(), mram.FreeFrames(), frames, pgit, n) == whole
      {
        if !Present(pgd[pgit]) {
          var status, fpn := MapOne(mram, pgit);
          if status != 0 { return -1, frames; }
          frames := [fpn] + frames;
        }
      }
      r := 0;
    }

    /** `find_victim_page`: walk to the node before the last, then unlink the last one. */
    method FindVictimPage() returns (r: int, retpgn: nat)
      requires Valid()
      modifies this, chain
      ensures Valid()
      ensures old(Values(chain)) == [] ==> r == -1 && chain == old(chain) && Values(chain) == []
      ensures old(Values(chain)) != [] ==>
        r == 0 && retpgn == Last(old(Values(chain)))
        && chain == DropLast(old(chain)) && Values(chain) == DropLast(old(Values(chain)))
    {
      retpgn := 0;
      var pg := fifoPgn;
      if pg == null { return -1, 0; }
      ghost var i := 0;
      while pg.next != null && pg.next.next != null
        invariant 0 <= i < |chain| && pg == chain[i]
        invariant i > 0 ==> pg.next != null
        decreases |chain| - i
        modifies {}
      {
        NextOf(fifoPgn, chain, i);
        NextOf(fifoPgn, chain, i + 1);
        pg := pg.next;
        i := i + 1;
      }
      NextOf(fifoPgn, chain, i);
      r := 0;
      if pg.next != null {
        NextOf(fifoPgn, chain, i + 1);
        retpgn := pg.next.value;
        pg.next := null;
      } else {
        retpgn := pg.value;
        fifoPgn := null;
      }
      chain := DropLast(chain);
    }

    /** The structures of one process and the two devices share no memory. */
    ghost predicate Separate(mram: Device, swp: Device)
      reads this, mram, swp
    {
      && mram.storage != swp.storage && mram != swp
      && pgd as object != mram.storage && pgd as object != swp.storage
      && (forall i, j :: 0 <= i < |chain| && 0 <= j < |mram.chain| ==> chain[i] != mram.chain[j])
      && (forall i, j :: 0 <= i < |chain| && 0 <= j < |swp.chain| ==> chain[i] != swp.chain[j])
    }

    /** The byte accesses of a call stay inside the devices; the source does not check them.
        A fault copies the RAM frame numbered like the victim page. */
    ghost predicate InBounds(pgn: nat, mram: Device, swp: Device)
      requires pgn < MAX_PGN && pgd.Length == MAX_PGN
      reads this, chain, pgd, mram, mram.chain, swp, swp.chain
    {
      if Present(pgd[pgn]) then InDevice(Fpn(pgd[pgn]), mram.maxsz)
      else Values(chain) != [] && swp.FreeFrames() != [] ==>
        InDevice(Last(Values(chain)), mram.maxsz) && InDevice(swp.FreeFrames()[0], swp.maxsz)
    }

    /** The two entries of a page fault, rewritten in place. */
    method Exchange(pgn: nat, vicpgn: nat, swpfpn: nat)
      requires Valid() && pgn < MAX_PGN && vicpgn < MAX_PGN
      modifies pgd
      ensures pgd[..] == FaultedPgd(old(pgd[..]), pgn, vicpgn, swpfpn)
    {
      hide PteSetFpn, PteSetSwap, SetBit;
      pgd[vicpgn] := PteSetSwap(pgd[vicpgn], SwapTypeArgument(), swpfpn);
      pgd[pgn] := PteSetFpn(pgd[pgn], vicpgn);
      pgd[pgn] := SetBit(pgd[pgn], PRESENT_MASK);
    }

    /** The victim leaves the FIFO before a swap frame is known to exist. */
    method Evict(mram: Device, swp: Device) returns (r: int, vicpgn: nat, swpfpn: nat)
      requires Valid() && mram.Valid() && swp.Valid() && Separate(mram, swp)
      modifies this, chain, swp
      ensures Valid() && mram.Valid() && swp.Valid() && (r == 0 || r == -1)
      ensures Values(chain) == if old(Values(chain)) == [] then [] else DropLast(old(Values(chain)))
      ensures r == 0 <==> old(Values(chain)) != [] && old(swp.FreeFrames()) != []
      ensures r == 0 ==> vicpgn == Last(old(Values(chain))) && swpfpn == old(swp.FreeFrames())[0]
      ensures swp.FreeFrames() == if r == 0 then old(swp.FreeFrames())[1..] else old(swp.FreeFrames())
    {
      var status;
      vicpgn, swpfpn := 0, 0;
      r, vicpgn := FindVictimPage();
      if r != 0 { return -1, 0, 0; }
      status, swpfpn := swp.GetFreeFp();
      if status != 0 { return -1, 0, 0; }
    }

    /** Copy the page out, rewrite the entries and put the new page in front of the FIFO. */
    method Replace(pgn: nat, vicpgn: nat, swpfpn: nat, mram: Device, swp: Device)
      requires Valid() && mram.Valid() && swp.Valid()
      requires mram.storage != swp.storage && pgd as object != mram.storage && pgd as object != swp.storage
      requires pgn < MAX_PGN && vicpgn < MAX_PGN && InDevice(vicpgn, mram.maxsz) && InDevice(swpfpn, swp.maxsz)
      modifies this, pgd, swp.storage
      ensures Valid() && pgd[..] == FaultedPgd(old(pgd[..]), pgn, vicpgn, swpfpn)
      ensures Values(chain) == [pgn] + old(Values(chain))
      ensures swp.storage[..] == WithFrame(old(swp.storage[..]), swpfpn, Frame(old(mram.storage[..]), vicpgn))
    {
      hide FaultedPgd, WithFrame, Frame;
      var status := SwapCpPage(mram, vicpgn, swp, swpfpn);
      Exchange(pgn, vicpgn, swpfpn);
      EnlistPgnNode(pgn);
    }

    /** The branch of `pg_getpage` for a page that is not present. */
    method FaultIn(pgn: nat, mram: Device, swp: Device) returns (r: int)
      requires Valid() && mram.Valid() && swp.Valid() && Separate(mram, swp)
      requires pgn < MAX_PGN && FifoInTable(Model()) && InBounds(pgn, mram, swp) && !Present(pgd[pgn])
      modifies this, pgd, chain, swp, swp.storage
      ensures Valid() && mram.Valid() && swp.Valid()
      ensures r == 0 || r == -1
      ensures PageResult(r == 0, Model(), swp.FreeFrames()) ==
        GetPage(old(Model()), pgn, old(swp.FreeFrames()))
      ensures r == 0 ==>
        var v, f := Last(old(Values(chain))), old(swp.FreeFrames())[0];
        && Fpn(pgd[pgn]) == v % 8192 && InDevice(v, mram.maxsz) && InDevice(f, swp.maxsz)
        && swp.storage[..] == WithFrame(old(swp.storage[..]), f, Frame(old(mram.storage[..]), v))
      ensures r != 0 ==> swp.storage[..] == old(swp.storage[..])
    {
      hide Present, Fpn, FaultedPgd, WithFrame, Frame;
      var vicpgn, swpfpn;
      r, vicpgn, swpfpn := Evict(mram, swp);
      if r == 0 {
        FaultedFpn(pgd[..], pgn, vicpgn, swpfpn);
        Replace(pgn, vicpgn, swpfpn, mram, swp);
      }
    }

    /** `pg_getpage` */
    method PgGetPage(pgn: nat, mram: Device, swp: Device) returns (r: int, fpn: nat)
      requires Valid() && mram.Valid() && swp.Valid() && Separate(mram, swp)
      requires pgn < MAX_PGN && FifoInTable(Model()) && InBounds(pgn, mram, swp)
      modifies this, pgd, chain, swp, swp.storage
      ensures Valid() && mram.Valid() && swp.Valid()
      ensures r == 0 || r == -1
      ensures PageResult(r == 0, Model(), swp.FreeFrames()) ==
        GetPage(old(Model()), pgn, old(swp.FreeFrames()))
      ensures r == 0 ==> fpn == Fpn(pgd[pgn]) && InDevice(fpn, mram.maxsz)
      ensures old(Present(pgd[pgn])) ==> swp.storage[..] == old(swp.storage[..])
    {
      hide Present, Fpn, FaultedPgd, WithFrame, Frame;
      if !Present(pgd[pgn]) {
        var status := FaultIn(pgn, mram, swp);
        if status != 0 { return -1, 0; }
      }
      fpn := Fpn(pgd[pgn]);
      r := 0;
    }

    /** `pg_getval`: the byte at the translated address, after a fault if one was needed. */
    method PgGetVal(addr: Word, mram: Device, swp: Device) returns (r: int, data: Byte)
      requires Valid() && mram.Valid() && swp.Valid() && Separate(mram, swp)
      requires Pgn(addr) < MAX_PGN && FifoInTable(Model()) && InBounds(Pgn(addr), mram, swp)
      modifies this, pgd, chain, swp, swp.storage
      ensures Valid() && mram.Valid() && swp.Valid()
      ensures r == 0 || r == -1
      ensures PageResult(r == 0, Model(), swp.FreeFrames()) ==
        GetPage(old(Model()), Pgn(addr), old(swp.FreeFrames()))
      ensures r == 0 ==>
        Translate(pgd[..], addr) < mram.maxsz && data == mram.storage[Translate(pgd[..], addr)]
    {
      hide Present, Fpn, Pgn, Offst, PhyAddr, GetPage;
      AddressSplit(addr);
      var pgn := Pgn(addr);
      var off := Offst(addr);
      var status, fpn := PgGetPage(pgn, mram, swp);
      if status != 0 { return -1, 0; }
      InFrame(fpn, off, mram.maxsz);
      var phyaddr := PhyAddr(fpn, off);
      data := mram.Read(phyaddr);
      r := 0;
    }

    /** `pg_setval`: the byte at the translated address and no other RAM byte. */
    method PgSetVal(addr: Word, value: Byte, mram: Device, swp: Device) returns (r: int)
      requires Valid() && mram.Valid() && swp.Valid() && Separate(mram, swp)
      requires Pgn(addr) < MAX_PGN && FifoInTable(Model()) && InBounds(Pgn(addr), mram, swp)
      modifies this, pgd, chain, swp, swp.storage, mram.storage
      ensures Valid() && mram.Valid() && swp.Valid()
      ensures r == 0 || r == -1
      ensures PageResult(r == 0, Model(), swp.FreeFrames()) ==
        GetPage(old(Model()), Pgn(addr), old(swp.FreeFrames()))
      ensures r == 0 ==>
        Translate(pgd[..], addr) < mram.maxsz
        && mram.storage[..] == old(mram.storage[..])[Translate(pgd[..], addr) := value]
      ensures r != 0 ==> mram.storage[..] == old(mram.storage[..])
    {
      hide Present, Fpn, Pgn, Offst, PhyAddr, GetPage, IsChain, Values, FifoInTable, InDevice;
      AddressSplit(addr);
      var pgn := Pgn(addr);
      var off := Offst(addr);
      var status, fpn := PgGetPage(pgn, mram, swp);
      if status != 0 { return -1; }
      InFrame(fpn, off, mram.maxsz);
      var phyaddr := PhyAddr(fpn, off);
      mram.Write(phyaddr, value);
      r := 0;
    }
  }

  /** Every byte of a frame inside the device is inside the device. */
  lemma InFrame(fpn: nat, off: nat, maxsz: nat)
    requires InDevice(fpn, maxsz) && off < PAGESZ
    ensures PhyAddr(fpn, off) < maxsz
  {
    hide Pow2;
    AddressSizes();
    assert Shl(fpn, 8) <= fpn * PAGESZ;
  }

  /** The faulting page's new entry holds the victim's page number in its frame field. */
  lemma FaultedFpn(pgd: seq<Word>, pgn: nat, v: nat, swpfpn: nat)
    requires |pgd| == MAX_PGN && pgn < MAX_PGN && v < MAX_PGN
    ensures Fpn(FaultedPgd(pgd, pgn, v, swpfpn)[pgn]) == v % 8192
  {
    hide Present, Swapped, Fpn, PteSetFpn, PteSetSwap, SetBit;
    var out := pgd[v := PteSetSwap(pgd[v], SwapTypeArgument(), swpfpn)];
    FaultedEntries(out[pgn], v, SwapTypeArgument(), swpfpn);
  }
}
