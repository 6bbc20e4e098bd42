/** Physical memory devices: the byte store and the list of free frames. */
module MemPhy {
  import opened Lists
  import opened PageEntry

  type Byte = b: nat | b < 256

  /** The frame lies inside a device of that size. */
  predicate InDevice(fpn: nat, maxsz: nat) {
    (fpn + 1) * PAGESZ <= maxsz
  }

  /** The 256 bytes of a frame. */
  function Frame(bytes: seq<Byte>, fpn: nat): (page: seq<Byte>)
    requires InDevice(fpn, |bytes|)
    ensures |page| == PAGESZ
  {
    bytes[fpn * PAGESZ..(fpn + 1) * PAGESZ]
  }

  /** A device with one frame overwritten and every other byte as it was. */
  function WithFrame(bytes: seq<Byte>, fpn: nat, page: seq<Byte>): (r: seq<Byte>)
    requires InDevice(fpn, |bytes|) && |page| == PAGESZ
    ensures |r| == |bytes|
  {
    bytes[..fpn * PAGESZ] + page + bytes[(fpn + 1) * PAGESZ..]
  }

  /** Byte by byte, what overwriting a frame with a frame of another device gives. */
  lemma WithFrameAt(bytes: seq<Byte>, fpn: nat, source: seq<Byte>, sfpn: nat, a: nat)
    requires InDevice(fpn, |bytes|) && InDevice(sfpn, |source|) && a < |bytes|
    ensures WithFrame(bytes, fpn, Frame(source, sfpn))[a] ==
      if fpn * PAGESZ <= a < fpn * PAGESZ + PAGESZ then source[sfpn * PAGESZ + (a - fpn * PAGESZ)] else bytes[a]
  {
  }

  function FramesUpTo(n: nat): seq<nat> {
    seq(n, i requires 0 <= i => i)
  }

  /** A device in random-access mode. */
  class Device {
    const storage: array<Byte>
    const maxsz: nat
    var freeList: Node?<nat>
    ghost var chain: seq<Node<nat>>

    ghost predicate Valid()
      reads this, chain
    {
      storage.Length == maxsz && IsChain(freeList, chain)
    }

    /** The free frames in the order they will be handed out. */
    ghost function FreeFrames(): seq<nat>
      reads this, chain
    {
      Values(chain)
    }

    /** `init_memphy` */
    constructor (maxsz: nat)
      ensures Valid() && this.maxsz == maxsz
      ensures FreeFrames() == FramesUpTo(maxsz / PAGESZ)
      ensures fresh(storage) && fresh(set n | n in chain)
    {
      storage := new Byte[maxsz];
      this.maxsz := maxsz;
      freeList := null;
      chain := [];
      new;
      var r := Format();
    }

    /** `MEMPHY_format`: the list is built front to back by linking each new node behind the
        last one. */
    method Format() returns (r: int)
      requires storage.Length == maxsz
      modifies this
      ensures r == if maxsz / PAGESZ == 0 then -1 else 0
      ensures r == -1 ==> freeList == old(freeList) && chain == old(chain)
      ensures r == 0 ==> Valid() && FreeFrames() == FramesUpTo(maxsz / PAGESZ) && fresh(set n | n in chain)
    {
      var numfp := maxsz / PAGESZ;
      if numfp <= 0 { return -1; }
      var fst: Node<nat> := new Node<nat>(0, null);
      freeList := fst;
      chain := [fst];
      for iter := 1 to numfp
        invariant |chain| == iter && IsChain(freeList, chain) && fst == chain[iter - 1]
        invariant fresh(set n | n in chain)
        invariant forall i :: 0 <= i < iter ==> chain[i].value == i
      {
        var newfst := new Node<nat>(iter, null);
        fst.next := newfst;
        chain := chain + [newfst];
        fst := newfst;
      }
      r := 0;
    }

    /** `MEMPHY_get_freefp` */
    method GetFreeFp() returns (r: int, fpn: nat)
      requires Valid()
      modifies this
      ensures Valid()
      ensures old(FreeFrames()) == [] ==> r == -1 && chain == old(chain)
      ensures old(FreeFrames()) != [] ==> r == 0 && chain == old(chain)[1..]
      ensures r == 0 ==> fpn == old(FreeFrames())[0] && FreeFrames() == old(FreeFrames())[1..]
    {
      fpn := 0;
      var fp := freeList;
      if fp == null { return -1, 0; }
      Popped(fp, chain);
      fpn := fp.value;
      freeList := fp.next;
      chain := chain[1..];
      r := 0;
    }

    /** `MEMPHY_put_freefp` */
    method PutFreeFp(fpn: nat)
      requires Valid()
      modifies this
      ensures Valid() && FreeFrames() == [fpn] + old(FreeFrames())
      ensures |chain| > 0 && fresh(chain[0]) && chain[1..] == old(chain)
    {
      var newnode := new Node<nat>(fpn, freeList);
      Pushed(newnode, chain);
      freeList := newnode;
      chain := [newnode] + chain;
    }

    /** `MEMPHY_read` */
    method Read(addr: nat) returns (value: Byte)
      requires Valid() && addr < maxsz
      ensures value == storage[addr]
    {
      value := storage[addr];
    }

    /** `MEMPHY_write` */
    method Write(addr: nat, data: Byte)
      requires Valid() && addr < maxsz
      modifies storage
      ensures storage[..] == old(storage[..])[addr := data]
    {
      storage[addr] := data;
    }
  }

  /** `__swap_cp_page`: the destination page becomes the source page as it was at entry, and no
      other byte changes, also when both are the same device. */
  method SwapCpPage(mpsrc: Device, srcfpn: int, mpdst: Device, dstfpn: int) returns (r: int)
    requires mpsrc.Valid() && mpdst.Valid()
    requires srcfpn >= 0 && dstfpn >= 0 ==> InDevice(srcfpn, mpsrc.maxsz) && InDevice(dstfpn, mpdst.maxsz)
    modifies mpdst.storage
    ensures r == if srcfpn < 0 || dstfpn < 0 then -1 else 0
    ensures r == -1 ==> mpdst.storage[..] == old(mpdst.storage[..])
    ensures r == 0 ==> forall a :: 0 <= a < mpdst.maxsz ==>
      var k := a - dstfpn * PAGESZ;
      mpdst.storage[a] ==
        if 0 <= k < PAGESZ then old(mpsrc.storage[..])[srcfpn * PAGESZ + k] else old(mpdst.storage[..])[a]
    ensures r == 0 ==>
      mpdst.storage[..] == WithFrame(old(mpdst.storage[..]), dstfpn, Frame(old(mpsrc.storage[..]), srcfpn))
  {
    if srcfpn < 0 || dstfpn < 0 { return -1; }
    ghost var was, source := mpdst.storage[..], mpsrc.storage[..];
    for cellidx := 0 to PAGESZ
      invariant forall a :: 0 <= a < mpdst.maxsz ==>
        var k := a - dstfpn * PAGESZ;
        mpdst.storage[a] == if 0 <= k < cellidx then source[srcfpn * PAGESZ + k] else was[a]
      invariant forall a :: srcfpn * PAGESZ + cellidx <= a < srcfpn * PAGESZ + PAGESZ ==>
        mpsrc.storage[a] == source[a]
    {
      var addrsrc := srcfpn * PAGESZ + cellidx;
      var addrdst := dstfpn * PAGESZ + cellidx;
      var data := mpsrc.Read(addrsrc);
      mpdst.Write(addrdst, data);
    }
    r := 0;
    forall a: nat | a < mpdst.maxsz
      ensures mpdst.storage[a] == WithFrame(was, dstfpn, Frame(source, srcfpn))[a]
    {
      WithFrameAt(was, dstfpn, source, srcfpn, a);
    }
  }
}
