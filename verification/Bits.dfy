/** The bit macros: BIT, GENMASK, SETBIT, CLRBIT, SETVAL, GETVAL and the NBITS family.

    A 32-bit word is a natural number below 2^32; `&`, `|` and `>>` work bit by bit, and
    `<<` drops what leaves the word.  What the macros mean is stated arithmetically, for
    every word and every field. */
module Bits {
  import opened Arithmetic

  const WORD: nat := 0x1_0000_0000

  type Word = w: nat | w < WORD

  function Pow2(n: nat): (p: nat)
    ensures p >= 1
  {
    if n == 0 then 1 else 2 * Pow2(n - 1)
  }

  // ---------------------------------------------------------------- the C operators

  function And(a: nat, b: nat): (r: nat)
    ensures r <= a && r <= b
  {
    if a == 0 || b == 0 then 0
    else 2 * And(a / 2, b / 2) + (if a % 2 == 1 && b % 2 == 1 then 1 else 0)
  }

  function Or(a: nat, b: nat): nat {
    if a == 0 then b else if b == 0 then a
    else 2 * Or(a / 2, b / 2) + (if a % 2 == 1 || b % 2 == 1 then 1 else 0)
  }

  /** `~a` on an unsigned 32-bit word. */
  function Not(a: Word): Word {
    WORD - 1 - a
  }

  function Shl(a: nat, n: nat): Word {
    (a * Pow2(n)) % WORD
  }

  function Shr(a: nat, n: nat): nat {
    if n == 0 then a else Shr(a / 2, n - 1)
  }

  // ---------------------------------------------------------------- the macros

  function Bit(nr: nat): Word {
    Shl(1, nr)
  }

  function GenMask(h: nat, l: nat): Word
    requires l <= h < 32
  {
    And(Shl(WORD - 1, l), Shr(WORD - 1, 32 - h - 1))
  }

  function SetBit(v: Word, mask: Word): Word {
    OrIsWord(v, mask);
    Or(v, mask)
  }

  function ClrBit(v: Word, mask: Word): Word {
    And(v, Not(mask))
  }

  function SetVal(v: Word, value: nat, mask: Word, offst: nat): Word {
    OrIsWord(And(v, Not(mask)), And(Shl(value, offst), mask));
    Or(And(v, Not(mask)), And(Shl(value, offst), mask))
  }

  function GetVal(v: Word, mask: Word, offst: nat): nat {
    Shr(And(v, mask), offst)
  }

  lemma {:induction false} OrBound(a: nat, b: nat, n: nat)
    requires a < Pow2(n) && b < Pow2(n)
    ensures Or(a, b) < Pow2(n)
  {
    if n > 0 { OrBound(a / 2, b / 2, n - 1); }
  }

  lemma OrIsWord(a: Word, b: Word)
    ensures Or(a, b) < WORD
  {
    Pow2Word();
    OrBound(a, b, 32);
  }

  // ---------------------------------------------------------------- splitting a number at a bit

  /** The number in the n lowest bits. */
  function Low(v: nat, n: nat): nat {
    if n == 0 then 0 else 2 * Low(v / 2, n - 1) + v % 2
  }

  lemma AtZero(v: nat)
    ensures Low(v, 0) == 0 && Shr(v, 0) == v && Pow2(0) == 1
  {
  }

  lemma Halves(v: nat, n: nat)
    requires n > 0
    ensures Low(v, n) == 2 * Low(v / 2, n - 1) + v % 2 && Shr(v, n) == Shr(v / 2, n - 1)
    ensures Low(v, n) / 2 == Low(v / 2, n - 1) && Low(v, n) % 2 == v % 2
    ensures Pow2(n) == 2 * Pow2(n - 1)
  {
  }

  lemma {:induction false} SplitAt(v: nat, n: nat)
    ensures v == Shr(v, n) * Pow2(n) + Low(v, n) && Low(v, n) < Pow2(n)
  {
    hide Shr, Low, Pow2;
    if n == 0 {
      AtZero(v);
    } else {
      SplitAt(v / 2, n - 1);
      Halves(v, n);
      DoubleProduct(Shr(v, n), Pow2(n - 1));
    }
  }

  lemma {:induction false} SplitUnique(q: nat, r: nat, n: nat)
    requires r < Pow2(n)
    ensures q * Pow2(n) + r >= 0
    ensures Shr(q * Pow2(n) + r, n) == q && Low(q * Pow2(n) + r, n) == r
  {
    hide Shr, Low, Pow2;
    if n == 0 {
      AtZero(q);
      AtZero(q * Pow2(n) + r);
    } else {
      var v := q * Pow2(n) + r;
      Halves(v, n);
      DoubleProduct(q, Pow2(n - 1));
      SplitUnique(q, r / 2, n - 1);
      assert v / 2 == q * Pow2(n - 1) + r / 2 && v % 2 == r % 2;
    }
  }

  lemma {:induction false} Pow2Add(m: nat, n: nat)
    ensures Pow2(m + n) == Pow2(m) * Pow2(n)
  {
    hide Pow2;
    if n == 0 {
      AtZero(0);
    } else {
      Pow2Add(m, n - 1);
      Halves(0, n);
      Halves(0, m + n);
      DoubleProduct(Pow2(m), Pow2(n - 1));
    }
  }

  lemma Pow2Word()
    ensures Pow2(32) == WORD
  {
    Pow2Small();
    Pow2OfSums();
  }

  lemma Pow2OfSums()
    ensures Pow2(16) == Pow2(8) * Pow2(8) && Pow2(32) == Pow2(16) * Pow2(16)
  {
    hide Pow2;
    Pow2Add(8, 8);
    Pow2Add(16, 16);
  }

  lemma {:induction false} ShrShr(v: nat, m: nat, n: nat)
    ensures Shr(Shr(v, m), n) == Shr(v, m + n)
  {
    if m > 0 { ShrShr(v / 2, m - 1, n); }
  }

  lemma {:induction false} LowLow(v: nat, m: nat, n: nat)
    requires m <= n
    ensures Low(Low(v, n), m) == Low(v, m)
  {
    hide Low, Shr, Pow2;
    if m == 0 {
      AtZero(v);
      AtZero(Low(v, n));
    } else {
      Halves(v, n);
      Halves(v, m);
      Halves(Low(v, n), m);
      LowLow(v / 2, m - 1, n - 1);
    }
  }

  // ---------------------------------------------------------------- & and | block by block

  lemma WithZero(a: nat)
    ensures And(a, 0) == 0 == And(0, a) && Or(a, 0) == a == Or(0, a)
  {
  }

  lemma AndStep(a: nat, b: nat)
    ensures And(a, b) == 2 * And(a / 2, b / 2) + (if a % 2 == 1 && b % 2 == 1 then 1 else 0)
  {
  }

  lemma OrStep(a: nat, b: nat)
    ensures Or(a, b) == 2 * Or(a / 2, b / 2) + (if a % 2 == 1 || b % 2 == 1 then 1 else 0)
  {
  }

  lemma Join(x: nat, p: nat, y: nat, bit: nat)
    ensures 2 * (x * p + y) + bit == x * (2 * p) + (2 * y + bit)
  {
  }

  lemma {:induction false} AndSplit(a: nat, b: nat, n: nat)
    ensures And(a, b) == And(Shr(a, n), Shr(b, n)) * Pow2(n) + And(Low(a, n), Low(b, n))
  {
    hide And, Low, Shr, Pow2;
    if n == 0 {
      AtZero(a); AtZero(b); WithZero(0);
    } else {
      AndSplit(a / 2, b / 2, n - 1);
      AndStep(a, b);
      AndStep(Low(a, n), Low(b, n));
      Halves(a, n); Halves(b, n);
      Join(And(Shr(a, n), Shr(b, n)), Pow2(n - 1), And(Low(a / 2, n - 1), Low(b / 2, n - 1)),
           if a % 2 == 1 && b % 2 == 1 then 1 else 0);
    }
  }

  lemma {:induction false} OrSplit(a: nat, b: nat, n: nat)
    ensures Or(a, b) == Or(Shr(a, n), Shr(b, n)) * Pow2(n) + Or(Low(a, n), Low(b, n))
  {
    hide Or, Low, Shr, Pow2;
    if n == 0 {
      AtZero(a); AtZero(b); WithZero(0);
    } else {
      OrSplit(a / 2, b / 2, n - 1);
      OrStep(a, b);
      OrStep(Low(a, n), Low(b, n));
      Halves(a, n); Halves(b, n);
      Join(Or(Shr(a, n), Shr(b, n)), Pow2(n - 1), Or(Low(a / 2, n - 1), Low(b / 2, n - 1)),
           if a % 2 == 1 || b % 2 == 1 then 1 else 0);
    }
  }

  /** `a & (2^n - 1)` keeps the n lowest bits. */
  lemma {:induction false} AndOnes(a: nat, n: nat)
    ensures And(a, Pow2(n) - 1) == Low(a, n)
  {
    hide And, Low, Shr, Pow2;
    if n == 0 {
      AtZero(a); WithZero(a);
    } else {
      Halves(a, n);
      AndOnes(a / 2, n - 1);
      AndStep(a, Pow2(n) - 1);
    }
  }

  // ---------------------------------------------------------------- masks

  lemma Pow2Mono(l: nat, h: nat)
    requires l <= h
    ensures Pow2(l) <= Pow2(h) && Pow2(h) == Pow2(h - l) * Pow2(l)
  {
    hide Pow2;
    Pow2Add(h - l, l);
    MulPred(Pow2(h - l), Pow2(l));
  }

  lemma Pow2InWord(n: nat)
    requires n <= 32
    ensures Pow2(n) <= WORD && Pow2(32 - n) * Pow2(n) == WORD
    ensures n < 32 ==> Pow2(n) < WORD
  {
    Pow2Mono(n, 32);
    Pow2Word();
    if n < 32 { Pow2Mono(n, 31); }
  }

  lemma ModWord(lo: nat)
    requires 1 <= lo <= WORD
    ensures ((WORD - 1) * lo) % WORD == WORD - lo
  {
    assert (WORD - 1) * lo == (lo - 1) * WORD + (WORD - lo);
  }

  /** ~0U << l */
  lemma ShlOnes(l: nat)
    requires l < 32
    ensures Pow2(l) <= WORD && Shl(WORD - 1, l) == WORD - Pow2(l)
  {
    hide Pow2;
    Pow2InWord(l);
    ModWord(Pow2(l));
  }

  /** ~0U >> (32 - n) */
  lemma ShrOnes(n: nat)
    requires n <= 32
    ensures Shr(WORD - 1, 32 - n) == Pow2(n) - 1
  {
    hide Low, Shr, Pow2;
    Pow2InWord(n);
    Pow2InWord(32 - n);
    MulPred(Pow2(n), Pow2(32 - n));
    SplitUnique(Pow2(n) - 1, Pow2(32 - n) - 1, 32 - n);
  }

  /** The low h+1 bits of 2^32 - 2^l. */
  lemma LowOfShifted(h: nat, l: nat)
    requires l <= h < 32
    ensures Pow2(l) <= Pow2(h + 1) <= WORD && Low(WORD - Pow2(l), h + 1) == Pow2(h + 1) - Pow2(l)
  {
    hide Low, Shr, Pow2;
    Pow2Mono(l, h + 1);
    Pow2InWord(h + 1);
    MulPred(Pow2(31 - h), Pow2(h + 1));
    SplitUnique(Pow2(31 - h) - 1, Pow2(h + 1) - Pow2(l), h + 1);
  }

  lemma GenMaskDifference(h: nat, l: nat)
    requires l <= h < 32
    ensures GenMask(h, l) == Pow2(h + 1) - Pow2(l)
  {
    hide Low, Shr, Pow2, And, Shl;
    ShlOnes(l);
    ShrOnes(h + 1);
    LowOfShifted(h, l);
    AndOnes(WORD - Pow2(l), h + 1);
  }

  /** GENMASK(h, l) is 2^(h+1) - 2^l: ones in bits l..h and nowhere else. */
  lemma GenMaskValue(h: nat, l: nat)
    requires l <= h < 32
    ensures GenMask(h, l) == Pow2(h + 1) - Pow2(l)
    ensures GenMask(h, l) == (Pow2(h - l + 1) - 1) * Pow2(l)
  {
    hide GenMask, Pow2;
    GenMaskDifference(h, l);
    Pow2Mono(l, h + 1);
    MulPred(Pow2(h + 1 - l), Pow2(l));
  }

  // ---------------------------------------------------------------- fields

  /** The number in bits l..h of v. */
  function Field(v: nat, h: nat, l: nat): nat
    requires l <= h
  {
    Low(Shr(v, l), h - l + 1)
  }

  /** v with x in bits l..h and every other bit as it was. */
  function Replaced(v: nat, h: nat, l: nat, x: nat): nat
    requires l <= h
  {
    (Shr(v, h + 1) * Pow2(h - l + 1) + x) * Pow2(l) + Low(v, l)
  }

  lemma LowOfSmall(v: nat, n: nat)
    requires v < Pow2(n)
    ensures Low(v, n) == v && Shr(v, n) == 0
  {
    hide Low, Shr, Pow2;
    SplitUnique(0, v, n);
    assert 0 * Pow2(n) + v == v;
  }

  lemma ShrBound(v: nat, n: nat)
    requires v < WORD && n <= 32
    ensures Shr(v, n) < Pow2(32 - n)
  {
    hide Low, Shr, Pow2;
    SplitAt(v, n);
    Pow2InWord(n);
    MulMono(Pow2(32 - n), Shr(v, n), Pow2(n));
  }

  lemma MaskParts(h: nat, l: nat)
    requires l <= h < 32
    ensures Shr(GenMask(h, l), l) == Pow2(h - l + 1) - 1 && Low(GenMask(h, l), l) == 0
  {
    hide Low, Shr, GenMask, Pow2;
    GenMaskValue(h, l);
    SplitUnique(Pow2(h - l + 1) - 1, 0, l);
  }

  /** `v & GENMASK(h, l)` */
  lemma AndMask(v: nat, h: nat, l: nat)
    requires l <= h < 32
    ensures And(v, GenMask(h, l)) == Field(v, h, l) * Pow2(l)
  {
    hide And, Low, Shr, GenMask, Pow2;
    MaskParts(h, l);
    AndSplit(v, GenMask(h, l), l);
    AndOnes(Shr(v, l), h - l + 1);
    WithZero(Low(v, l));
  }

  lemma NotMaskParts(h: nat, l: nat)
    requires l <= h < 32
    ensures Shr(Not(GenMask(h, l)), h + 1) == Pow2(31 - h) - 1
    ensures Low(Not(GenMask(h, l)), h + 1) == Pow2(l) - 1
  {
    hide And, Low, Shr, GenMask, Pow2;
    GenMaskValue(h, l);
    Pow2InWord(h + 1);
    MulPred(Pow2(31 - h), Pow2(h + 1));
    Pow2Mono(l, h + 1);
    SplitUnique(Pow2(31 - h) - 1, Pow2(l) - 1, h + 1);
  }

  /** `v & ~GENMASK(h, l)` */
  lemma AndNotMask(v: Word, h: nat, l: nat)
    requires l <= h < 32
    ensures And(v, Not(GenMask(h, l))) == Shr(v, h + 1) * Pow2(h + 1) + Low(v, l)
  {
    hide And, Low, Shr, GenMask, Pow2, Not;
    NotMaskParts(h, l);
    AndSplit(v, Not(GenMask(h, l)), h + 1);
    AndOnes(Shr(v, h + 1), 31 - h);
    ShrBound(v, h + 1);
    LowOfSmall(Shr(v, h + 1), 31 - h);
    AndOnes(Low(v, h + 1), l);
    LowLow(v, l, h + 1);
  }

  lemma {:induction false} FieldOfLow(v: nat, n: nat, h: nat, l: nat)
    requires l <= h < n
    ensures Field(Low(v, n), h, l) == Field(v, h, l)
    decreases l
  {
    if l == 0 {
      LowLow(v, h + 1, n);
    } else {
      Halves(v, n);
      FieldOfLow(v / 2, n - 1, h - 1, l - 1);
    }
  }

  /** `value << l` keeps the bits that stay in the word. */
  lemma FieldOfShl(value: nat, h: nat, l: nat)
    requires l <= h < 32
    ensures Field(Shl(value, l), h, l) == Low(value, h - l + 1)
  {
    hide And, Low, Shr, Pow2;
    var y := value * Pow2(l);
    SplitAt(y, 32);
    Pow2Word();
    assert Shl(value, l) == Low(y, 32);
    FieldOfLow(y, 32, h, l);
    SplitUnique(value, 0, l);
  }

  lemma OrBeside(hi: nat, f: nat, w: nat)
    requires f < Pow2(w)
    ensures Or(hi * Pow2(w), f) == hi * Pow2(w) + f
  {
    hide Or, Low, Shr, Pow2;
    SplitUnique(hi, 0, w);
    LowOfSmall(f, w);
    WithZero(hi); WithZero(f);
    OrSplit(hi * Pow2(w), f, w);
  }

  lemma OrAbove(a: nat, b: nat, lo: nat, l: nat)
    requires lo < Pow2(l)
    ensures Or(a * Pow2(l) + lo, b * Pow2(l)) == Or(a, b) * Pow2(l) + lo
  {
    hide Or, Low, Shr, Pow2;
    SplitUnique(a, lo, l);
    SplitUnique(b, 0, l);
    WithZero(lo);
    OrSplit(a * Pow2(l) + lo, b * Pow2(l), l);
  }

  /** `|` of words that share no bits: the field goes into the hole. */
  lemma OrIntoHole(hi: nat, f: nat, lo: nat, w: nat, l: nat)
    requires f < Pow2(w) && lo < Pow2(l)
    ensures Or((hi * Pow2(w)) * Pow2(l) + lo, f * Pow2(l)) == (hi * Pow2(w) + f) * Pow2(l) + lo
  {
    hide Or, Low, Shr, Pow2;
    OrAbove(hi * Pow2(w), f, lo, l);
    OrBeside(hi, f, w);
  }

  /** SETVAL puts the value, modulo the width of the field, into bits l..h and keeps every
      other bit; GETVAL reads the field. */
  lemma SetValMeaning(v: Word, value: nat, h: nat, l: nat)
    requires l <= h < 32
    ensures SetVal(v, value, GenMask(h, l), l) == Replaced(v, h, l, Low(value, h - l + 1))
  {
    hide Or, And, Low, Shr, Shl, GenMask, Not, Pow2, Field;
    var f := Low(value, h - l + 1);
    AndNotMask(v, h, l);
    AndMask(Shl(value, l), h, l);
    FieldOfShl(value, h, l);
    SplitAt(value, h - l + 1);
    SplitAt(v, l);
    Pow2Mono(l, h + 1);
    MulAssoc(Shr(v, h + 1), Pow2(h - l + 1), Pow2(l));
    OrIntoHole(Shr(v, h + 1), f, Low(v, l), h - l + 1, l);
  }

  lemma GetValMeaning(v: Word, h: nat, l: nat)
    requires l <= h < 32
    ensures GetVal(v, GenMask(h, l), l) == Field(v, h, l)
  {
    hide And, Low, Shr, GenMask, Pow2, Field;
    AndMask(v, h, l);
    SplitUnique(Field(v, h, l), 0, l);
  }

  /** What can be read back after a field was replaced: the field, and every bit beside it. */
  lemma ReplacedParts(v: Word, h: nat, l: nat, f: nat)
    requires l <= h < 32 && f < Pow2(h - l + 1)
    ensures var r := Replaced(v, h, l, f);
      Field(r, h, l) == f && Shr(r, h + 1) == Shr(v, h + 1) && Low(r, l) == Low(v, l)
  {
    hide Low, Shr, Pow2;
    var r := Replaced(v, h, l, f);
    SplitAt(v, l);
    SplitUnique(Shr(v, h + 1) * Pow2(h - l + 1) + f, Low(v, l), l);
    SplitUnique(Shr(v, h + 1), f, h - l + 1);
    ShrShr(r, l, h - l + 1);
  }

  /** Fields that do not overlap the replaced one read as before. */
  lemma OtherField(v: Word, h: nat, l: nat, f: nat, h': nat, l': nat)
    requires l <= h < 32 && f < Pow2(h - l + 1) && l' <= h' < 32 && (h' < l || h < l')
    ensures Field(Replaced(v, h, l, f), h', l') == Field(v, h', l')
  {
    hide Low, Shr, Pow2;
    var r := Replaced(v, h, l, f);
    ReplacedParts(v, h, l, f);
    if h' < l {
      FieldOfLow(r, l, h', l');
      FieldOfLow(v, l, h', l');
    } else {
      ShrShr(r, h + 1, l' - (h + 1));
      ShrShr(v, h + 1, l' - (h + 1));
    }
  }

  lemma LowIsMod(v: nat, n: nat)
    ensures Low(v, n) == v % Pow2(n) && Shr(v, n) == v / Pow2(n)
  {
    hide Low, Shr, Pow2;
    SplitAt(v, n);
    DivModUnique(v, Pow2(n), Shr(v, n), Low(v, n));
  }

  // ---------------------------------------------------------------- single bits

  lemma BitValue(k: nat)
    requires k < 32
    ensures Bit(k) == Pow2(k) == GenMask(k, k)
  {
    hide Pow2, GenMask;
    Pow2InWord(k);
    GenMaskValue(k, k);
    ShrOne(0);
    Pow2Add(k, 1);
  }

  lemma ShrOne(v: nat)
    ensures Shr(v, 1) == v / 2 && Pow2(1) == 2
  {
  }

  lemma SetBitMeaning(v: Word, k: nat)
    requires k < 32
    ensures SetBit(v, Bit(k)) == Replaced(v, k, k, 1)
  {
    hide Or, Low, Shr, Pow2, Bit;
    BitValue(k);
    SplitUnique(1, 0, k);
    OrSplit(v, Pow2(k), k);
    WithZero(Low(v, k)); WithZero(Shr(v, k) / 2);
    OrStep(Shr(v, k), 1);
    ShrShr(v, k, 1);
    ShrOne(Shr(v, k));
  }

  lemma ClrBitMeaning(v: Word, k: nat)
    requires k < 32
    ensures ClrBit(v, Bit(k)) == Replaced(v, k, k, 0)
  {
    hide And, Not, Low, Shr, Pow2, Bit, GenMask;
    BitValue(k);
    AndNotMask(v, k, k);
    MulAssoc(Shr(v, k + 1), 2, Pow2(k));
    ShrOne(v);
    Pow2Add(k, 1);
  }

  // ---------------------------------------------------------------- NBITS

  const MASK4: nat := 0xC
  const MASK8: nat := 0xF0
  const MASK16: nat := 0xFF00
  const MASK32: nat := 0xFFFF_0000

  function NBits2(n: nat): nat {
    if And(n, 2) != 0 then 1 else 0
  }

  function NBits4(n: nat): nat {
    if And(n, MASK4) != 0 then 2 + NBits2(Shr(n, 2)) else NBits2(n)
  }

  function NBits8(n: nat): nat {
    if And(n, MASK8) != 0 then 4 + NBits4(Shr(n, 4)) else NBits4(n)
  }

  function NBits16(n: nat): nat {
    if And(n, MASK16) != 0 then 8 + NBits8(Shr(n, 8)) else NBits8(n)
  }

  function NBits32(n: nat): nat {
    if And(n, MASK32) != 0 then 16 + NBits16(Shr(n, 16)) else NBits16(n)
  }

  function NBits(n: nat): nat {
    if n == 0 then 0 else NBits32(n)
  }

  /** k is floor(log2 n). */
  predicate IsLog2(n: nat, k: nat) {
    Pow2(k) <= n < Pow2(k + 1)
  }

  lemma ShrRange(n: nat, k: nat, m: nat)
    requires n < Pow2(m + k)
    ensures Shr(n, k) < Pow2(m)
  {
    hide Low, Shr, Pow2;
    SplitAt(n, k);
    Pow2Add(m, k);
    MulMono(Pow2(m), Shr(n, k), Pow2(k));
  }

  lemma ShrPositive(n: nat, k: nat)
    ensures Shr(n, k) > 0 <==> n >= Pow2(k)
  {
    hide Low, Shr, Pow2;
    SplitAt(n, k);
    MulMono(1, Shr(n, k), Pow2(k));
  }

  /** Each level of the macro halves the search: the upper half of the bits is zero or not. */
  lemma UpperHalf(n: nat, k: nat, mask: nat)
    requires n < Pow2(k + k) && mask == (Pow2(k) - 1) * Pow2(k)
    ensures And(n, mask) != 0 <==> Shr(n, k) > 0
    ensures Shr(n, k) < Pow2(k) && (Shr(n, k) > 0 <==> n >= Pow2(k))
  {
    hide And, Low, Shr, Pow2;
    SplitUnique(Pow2(k) - 1, 0, k);
    AndSplit(n, mask, k);
    AndOnes(Shr(n, k), k);
    ShrRange(n, k, k);
    ShrPositive(n, k);
    LowOfSmall(Shr(n, k), k);
    WithZero(Low(n, k));
    MulMono(1, Shr(n, k), Pow2(k));
  }

  lemma Log2OfShift(n: nat, k: nat, r: nat)
    requires IsLog2(Shr(n, k), r)
    ensures IsLog2(n, k + r)
  {
    hide Low, Shr, Pow2;
    var q, p := Shr(n, k), Pow2(k);
    SplitAt(n, k);
    Pow2Add(r, k);
    Pow2Add(r + 1, k);
    MulMono(Pow2(r), q, p);
    MulMono(q + 1, Pow2(r + 1), p);
    MulSucc(q, p);
    assert k + r + 1 == (r + 1) + k;
  }

  lemma Pow2Small()
    ensures Pow2(0) == 1 && Pow2(1) == 2 && Pow2(2) == 4 && Pow2(4) == 16 && Pow2(8) == 256 && Pow2(16) == 65536
  {
    assert Pow2(8) == 256;
    Pow2Add(8, 8);
  }

  lemma NBits2Log2(n: nat)
    requires 0 < n < 4
    ensures IsLog2(n, NBits2(n))
  {
    assert n == 1 || n == 2 || n == 3;
  }

  lemma NBits4Log2(n: nat)
    requires 0 < n < 16
    ensures IsLog2(n, NBits4(n))
  {
    hide IsLog2, NBits2;
    Pow2Small();
    UpperHalf(n, 2, MASK4);
    if n >= 4 {
      NBits2Log2(Shr(n, 2));
      Log2OfShift(n, 2, NBits2(Shr(n, 2)));
    } else {
      NBits2Log2(n);
    }
  }

  lemma NBits8Log2(n: nat)
    requires 0 < n < 256
    ensures IsLog2(n, NBits8(n))
  {
    hide IsLog2, NBits4;
    Pow2Small();
    UpperHalf(n, 4, MASK8);
    if n >= 16 {
      NBits4Log2(Shr(n, 4));
      Log2OfShift(n, 4, NBits4(Shr(n, 4)));
    } else {
      NBits4Log2(n);
    }
  }

  lemma NBits16Log2(n: nat)
    requires 0 < n < 65536
    ensures IsLog2(n, NBits16(n))
  {
    hide IsLog2, NBits8;
    Pow2Small();
    UpperHalf(n, 8, MASK16);
    if n >= 256 {
      NBits8Log2(Shr(n, 8));
      Log2OfShift(n, 8, NBits8(Shr(n, 8)));
    } else {
      NBits8Log2(n);
    }
  }

  /** NBITS is the floor of the base-2 logarithm of every positive 32-bit number. */
  lemma NBitsLog2(n: Word)
    requires n > 0
    ensures IsLog2(n, NBits(n))
  {
    hide IsLog2, NBits16;
    Pow2Small();
    Pow2Word();
    UpperHalf(n, 16, MASK32);
    if n >= 65536 {
      NBits16Log2(Shr(n, 16));
      Log2OfShift(n, 16, NBits16(Shr(n, 16)));
    } else {
      NBits16Log2(n);
    }
  }
}
