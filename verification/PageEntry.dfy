/** Page-table entries and addresses: `pte_set_fpn`, `pte_set_swap` and the PAGING_ macros. */
module PageEntry {
  import opened Bits

  const PAGESZ: nat := 256
  const MAX_PGN: nat := 16384

  const PRESENT_BIT: nat := 31
  const SWAPPED_BIT: nat := 30
  const PRESENT_MASK: Word := 0x8000_0000
  const SWAPPED_MASK: Word := 0x4000_0000
  const FPN_HIBIT: nat := 12
  const FPN_LOBIT: nat := 0
  const SWPTYP_HIBIT: nat := 4
  const SWPTYP_LOBIT: nat := 0
  const SWPOFF_HIBIT: nat := 25
  const SWPOFF_LOBIT: nat := 5
  const BUS_WIDTH: nat := 22
  const ADDR_PGN_LOBIT: nat := 8

  // ---------------------------------------------------------------- the source's macros and functions

  predicate Present(pte: Word) {
    And(pte, PRESENT_MASK) != 0
  }

  predicate Swapped(pte: Word) {
    And(pte, SWAPPED_MASK) != 0
  }

  function Fpn(pte: Word): nat {
    GetVal(pte, GenMask(FPN_HIBIT, FPN_LOBIT), FPN_LOBIT)
  }

  function SwpOff(pte: Word): nat {
    GetVal(pte, GenMask(SWPOFF_HIBIT, SWPOFF_LOBIT), SWPOFF_LOBIT)
  }

  function SwpTyp(pte: Word): nat {
    GetVal(pte, GenMask(SWPTYP_HIBIT, SWPTYP_LOBIT), SWPTYP_LOBIT)
  }

  function PteSetFpn(pte: Word, fpn: nat): Word {
    var p1 := SetBit(pte, PRESENT_MASK);
    var p2 := ClrBit(p1, SWAPPED_MASK);
    SetVal(p2, fpn, GenMask(FPN_HIBIT, FPN_LOBIT), FPN_LOBIT)
  }

  function PteSetSwap(pte: Word, swptyp: nat, swpoff: nat): Word {
    var p1 := SetBit(pte, PRESENT_MASK);
    var p2 := SetBit(p1, SWAPPED_MASK);
    var p3 := SetVal(p2, swptyp, GenMask(SWPTYP_HIBIT, SWPTYP_LOBIT), SWPTYP_LOBIT);
    SetVal(p3, swpoff, GenMask(SWPOFF_HIBIT, SWPOFF_LOBIT), SWPOFF_LOBIT)
  }

  /** PAGING_OFFST and PAGING_PGN */
  function Offst(addr: Word): nat {
    GetVal(addr, GenMask(ADDR_PGN_LOBIT - 1, 0), 0)
  }

  function Pgn(addr: Word): nat {
    GetVal(addr, GenMask(BUS_WIDTH - 1, ADDR_PGN_LOBIT), ADDR_PGN_LOBIT)
  }

  /** (fpn << PAGING_ADDR_FPN_LOBIT) + off */
  function PhyAddr(fpn: nat, off: nat): nat {
    Shl(fpn, ADDR_PGN_LOBIT) + off
  }

  /** The two flag masks are what BIT makes of them. */
  lemma MaskValues()
    ensures PRESENT_MASK == Bit(PRESENT_BIT) && SWAPPED_MASK == Bit(SWAPPED_BIT)
  {
    hide Bit, GenMask;
    BitValue(PRESENT_BIT);
    BitValue(SWAPPED_BIT);
    Pow2Word();
    assert Pow2(32) == 2 * Pow2(31) && Pow2(31) == 2 * Pow2(30);
  }

  /** The page number starts at bit NBITS of the page size. */
  lemma OffsetBits()
    ensures NBits(PAGESZ) == ADDR_PGN_LOBIT
  {
    hide NBits;
    NBitsLog2(PAGESZ);
    assert Pow2(8) == 256;
    Log2Unique(PAGESZ, NBits(PAGESZ), 8);
  }

  lemma Log2Unique(n: nat, j: nat, k: nat)
    requires IsLog2(n, j) && Pow2(k) <= n < Pow2(k + 1)
    ensures j == k
  {
    hide Pow2;
    if j < k { Pow2Mono(j + 1, k); }
    if k < j { Pow2Mono(k + 1, j); }
  }

  // ---------------------------------------------------------------- what they mean

  lemma BitMeaning(v: Word, k: nat)
    requires k < 32
    ensures And(v, Bit(k)) != 0 <==> Field(v, k, k) != 0
  {
    hide And, Bit, Field, GenMask, Pow2;
    BitValue(k);
    AndMask(v, k, k);
  }

  lemma FlagMeaning(pte: Word)
    ensures Present(pte) <==> Field(pte, PRESENT_BIT, PRESENT_BIT) != 0
    ensures Swapped(pte) <==> Field(pte, SWAPPED_BIT, SWAPPED_BIT) != 0
  {
    hide And, Bit, Field;
    MaskValues();
    BitMeaning(pte, PRESENT_BIT);
    BitMeaning(pte, SWAPPED_BIT);
  }

  lemma FieldMeaning(pte: Word)
    ensures Fpn(pte) == Field(pte, FPN_HIBIT, FPN_LOBIT)
    ensures SwpOff(pte) == Field(pte, SWPOFF_HIBIT, SWPOFF_LOBIT)
    ensures SwpTyp(pte) == Field(pte, SWPTYP_HIBIT, SWPTYP_LOBIT)
  {
    hide GetVal, GenMask, Field;
    GetValMeaning(pte, FPN_HIBIT, FPN_LOBIT);
    GetValMeaning(pte, SWPOFF_HIBIT, SWPOFF_LOBIT);
    GetValMeaning(pte, SWPTYP_HIBIT, SWPTYP_LOBIT);
  }

  lemma FpnBound(pte: Word)
    ensures Fpn(pte) < 8192
  {
    hide GetVal, GenMask, Pow2, Low, Shr;
    GetValMeaning(pte, FPN_HIBIT, FPN_LOBIT);
    SplitAt(Shr(pte, FPN_LOBIT), 13);
    FieldSizes();
  }

  /** A field operation: the field reads back, any field beside it is as before. */
  lemma SetValField(v: Word, value: nat, h: nat, l: nat, h': nat, l': nat)
    requires l <= h < 32 && l' <= h' < 32 && (h' < l || h < l')
    ensures var r := SetVal(v, value, GenMask(h, l), l);
      Field(r, h, l) == value % Pow2(h - l + 1) && Field(r, h', l') == Field(v, h', l')
  {
    hide SetVal, GenMask, Field, Replaced, Low, Pow2;
    var f := Low(value, h - l + 1);
    SplitAt(value, h - l + 1);
    LowIsMod(value, h - l + 1);
    SetValMeaning(v, value, h, l);
    ReplacedParts(v, h, l, f);
    OtherField(v, h, l, f, h', l');
  }

  lemma FlagField(v: Word, k: nat, h': nat, l': nat)
    requires k < 32 && l' <= h' < 32 && (h' < k || k < l')
    ensures Field(SetBit(v, Bit(k)), k, k) == 1 && Field(SetBit(v, Bit(k)), h', l') == Field(v, h', l')
    ensures Field(ClrBit(v, Bit(k)), k, k) == 0 && Field(ClrBit(v, Bit(k)), h', l') == Field(v, h', l')
  {
    hide SetBit, ClrBit, Bit, Field, Replaced, Low, Pow2;
    SetBitMeaning(v, k);
    ClrBitMeaning(v, k);
    ShrOne(0);
    ReplacedParts(v, k, k, 1); ReplacedParts(v, k, k, 0);
    OtherField(v, k, k, 1, h', l'); OtherField(v, k, k, 0, h', l');
  }

  lemma FieldSizes()
    ensures Pow2(13) == 8192 && Pow2(21) == 0x20_0000 && Pow2(5) == 32
  {
    assert Pow2(5) == 32;
    assert Pow2(8) == 256;
    Pow2Add(8, 5);
    Pow2Add(13, 8);
  }

  /** After `pte_set_fpn` the page is online at the frame modulo 2^13, whatever the entry was
      before — swapped entries included — and bits 13 to 29 are as they were.  So a frame
      number survives the entry exactly when it fits the 13 bits. */
  lemma SetFpnMeaning(pte: Word, fpn: nat)
    ensures var r := PteSetFpn(pte, fpn);
      && Present(r) && !Swapped(r)
      && Fpn(r) == fpn % 8192 && (Fpn(r) == fpn <==> fpn < 8192)
      && Field(r, 29, 13) == Field(pte, 29, 13)
  {
    hide SetBit, ClrBit, SetVal, Bit, GenMask, Field, Pow2, Present, Swapped, Fpn;
    var p1 := SetBit(pte, PRESENT_MASK);
    var p2 := ClrBit(p1, SWAPPED_MASK);
    var r := PteSetFpn(pte, fpn);
    FieldSizes();
    MaskValues();
    FlagMeaning(r);
    FieldMeaning(r);
    FlagField(pte, PRESENT_BIT, 29, 13);
    FlagField(p1, SWAPPED_BIT, 29, 13);
    FlagField(p1, SWAPPED_BIT, PRESENT_BIT, PRESENT_BIT);
    SetValField(p2, fpn, FPN_HIBIT, FPN_LOBIT, 29, 13);
    SetValField(p2, fpn, FPN_HIBIT, FPN_LOBIT, PRESENT_BIT, PRESENT_BIT);
    SetValField(p2, fpn, FPN_HIBIT, FPN_LOBIT, SWAPPED_BIT, SWAPPED_BIT);
  }

  /** After `pte_set_swap` the entry is both present and swapped, and holds the swap type
      modulo 2^5 and the swap offset modulo 2^21. */
  lemma SetSwapMeaning(pte: Word, swptyp: nat, swpoff: nat)
    ensures var r := PteSetSwap(pte, swptyp, swpoff);
      && Present(r) && Swapped(r)
      && SwpTyp(r) == swptyp % 32 && SwpOff(r) == swpoff % 0x20_0000
      && Field(r, 29, 26) == Field(pte, 29, 26)
  {
    hide SetBit, ClrBit, SetVal, Bit, GenMask, Field, Pow2, Present, Swapped, Fpn, SwpOff, SwpTyp;
    var p1 := SetBit(pte, PRESENT_MASK);
    var p2 := SetBit(p1, SWAPPED_MASK);
    var p3 := SetVal(p2, swptyp, GenMask(SWPTYP_HIBIT, SWPTYP_LOBIT), SWPTYP_LOBIT);
    var r := PteSetSwap(pte, swptyp, swpoff);
    FieldSizes();
    MaskValues();
    FlagMeaning(r);
    FieldMeaning(r);
    FlagField(pte, PRESENT_BIT, 29, 26);
    FlagField(p1, SWAPPED_BIT, 29, 26);
    FlagField(p1, SWAPPED_BIT, PRESENT_BIT, PRESENT_BIT);
    SwapFieldsKeep(p2, swptyp, swpoff, 29, 26);
    SwapFieldsKeep(p2, swptyp, swpoff, PRESENT_BIT, PRESENT_BIT);
    SwapFieldsKeep(p2, swptyp, swpoff, SWAPPED_BIT, SWAPPED_BIT);
  }

  lemma SwapFieldsKeep(p2: Word, swptyp: nat, swpoff: nat, h: nat, l: nat)
    requires 26 <= l <= h < 32
    ensures var p3 := SetVal(p2, swptyp, GenMask(SWPTYP_HIBIT, SWPTYP_LOBIT), SWPTYP_LOBIT);
      var r := SetVal(p3, swpoff, GenMask(SWPOFF_HIBIT, SWPOFF_LOBIT), SWPOFF_LOBIT);
      && Field(r, h, l) == Field(p2, h, l)
      && Field(r, SWPTYP_HIBIT, SWPTYP_LOBIT) == swptyp % Pow2(5)
      && Field(r, SWPOFF_HIBIT, SWPOFF_LOBIT) == swpoff % Pow2(21)
  {
    hide SetVal, GenMask, Field, Pow2;
    var p3 := SetVal(p2, swptyp, GenMask(SWPTYP_HIBIT, SWPTYP_LOBIT), SWPTYP_LOBIT);
    SetValField(p2, swptyp, SWPTYP_HIBIT, SWPTYP_LOBIT, h, l);
    SetValField(p3, swpoff, SWPOFF_HIBIT, SWPOFF_LOBIT, h, l);
    SetValField(p3, swpoff, SWPOFF_HIBIT, SWPOFF_LOBIT, SWPTYP_HIBIT, SWPTYP_LOBIT);
  }

  // ---------------------------------------------------------------- addresses

  lemma AddressSizes()
    ensures Pow2(8) == PAGESZ && Pow2(14) == MAX_PGN && Pow2(22) == 0x40_0000
  {
    assert Pow2(8) == 256;
    assert Pow2(6) == 64;
    Pow2Add(8, 6);
    Pow2Add(14, 8);
  }

  lemma ShrNone(v: nat)
    ensures Shr(v, 0) == v
  {
  }

  lemma OffstMeaning(addr: Word)
    ensures Offst(addr) == addr % PAGESZ
  {
    hide GetVal, GenMask, Low, Shr, Pow2;
    AddressSizes();
    GetValMeaning(addr, 7, 0);
    ShrNone(addr);
    LowIsMod(addr, 8);
  }

  lemma PgnMeaning(addr: Word)
    ensures Pgn(addr) == (addr / PAGESZ) % MAX_PGN
  {
    hide GetVal, GenMask, Low, Shr, Pow2;
    AddressSizes();
    GetValMeaning(addr, 21, 8);
    LowIsMod(addr, 8);
    LowIsMod(addr / PAGESZ, 14);
  }

  /** Page number and offset are the two digits, base 256, of the 22 address bits: together
      they name the address modulo 2^22 and nothing less. */
  lemma AddressSplit(addr: Word)
    ensures Offst(addr) < PAGESZ && Pgn(addr) < MAX_PGN
    ensures Pgn(addr) * PAGESZ + Offst(addr) == addr % 0x40_0000
  {
    hide Offst, Pgn;
    OffstMeaning(addr);
    PgnMeaning(addr);
  }

  /** Frame and offset name a byte of the device one to one. */
  lemma PhyAddrMeaning(fpn: nat, off: nat)
    requires fpn < 8192
    ensures PhyAddr(fpn, off) == fpn * PAGESZ + off
  {
    hide Pow2;
    AddressSizes();
  }
}
