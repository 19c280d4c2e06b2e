/**
  The CRC-32 of src/determinism.rs:53-67: the table-driven loop computes the bit-by-bit
  division register, in the reflected form of section 8 of RFC 1952 and in the plain one,
  and no burst of at most 32 bits goes unnoticed, in a message of any length.
*/
module Crc32 {
  import opened Prelude

  type Word = bv32

  const POLY: Word := 0xEDB8_8320
  const ONES: Word := 0xFFFF_FFFF

  // ---------------------------------------------------------------------
  // Words
  // ---------------------------------------------------------------------

  function Plus(a: Word, b: Word): Word {
    a ^ b
  }

  function Half(c: Word): Word {
    c >> 1
  }

  function Odd(c: Word): bool {
    c & 1 != 0
  }

  function Double(c: Word, b: bool): Word {
    (c << 1) | Bit(b)
  }

  predicate Top(c: Word) {
    c >= 0x8000_0000
  }

  function Bit(b: bool): Word {
    if b then 1 else 0
  }

  lemma PlusParts(a: Word, b: Word)
    ensures Half(Plus(a, b)) == Plus(Half(a), Half(b))
    ensures Odd(Plus(a, b)) == (Odd(a) != Odd(b))
  {
  }

  lemma PlusAssoc(a: Word, b: Word, c: Word)
    ensures Plus(Plus(a, b), c) == Plus(a, Plus(b, c))
  {
  }

  lemma PlusComm(a: Word, b: Word)
    ensures Plus(a, b) == Plus(b, a)
  {
  }

  lemma PlusSame(a: Word)
    ensures Plus(a, a) == 0 && Plus(a, 0) == a && Plus(0, a) == a
  {
  }

  lemma Cancel(p: Word, x: Word)
    ensures Plus(p, Plus(p, x)) == x
  {
  }

  lemma Halves(c: Word)
    ensures Double(Half(c), Odd(c)) == c && !Top(Half(c)) && Top(Plus(POLY, Half(c)))
  {
  }

  lemma Doubles(c: Word, b: bool)
    requires !Top(c)
    ensures Half(Double(c, b)) == c && Odd(Double(c, b)) == b
  {
  }

  lemma BitParts(b: bool)
    ensures Half(Bit(b)) == 0 && Odd(Bit(b)) == b
  {
  }

  /** The word that adds `p` to both, to one, or to neither. */
  lemma Mix(p: Word, x: Word, y: Word)
    ensures Plus(Plus(p, x), Plus(p, y)) == Plus(x, y)
    ensures Plus(Plus(p, x), y) == Plus(p, Plus(x, y)) && Plus(x, Plus(p, y)) == Plus(p, Plus(x, y))
  {
    hide Plus;
    PlusAssoc(p, x, y);
    PlusComm(p, y);
    PlusAssoc(x, y, p);
    PlusComm(Plus(x, y), p);
    PlusAssoc(p, x, Plus(p, y));
    Cancel(p, Plus(x, y));
  }

  // ---------------------------------------------------------------------
  // The register, one bit at a time
  // ---------------------------------------------------------------------

  function Shift(c: Word): Word {
    if Odd(c) then Plus(POLY, Half(c)) else Half(c)
  }

  function Shifts(c: Word, k: nat): Word
    decreases k
  {
    if k == 0 then c else Shifts(Shift(c), k - 1)
  }

  /** Reference: divide one more message bit in, low bit of the register first. */
  function FeedBit(c: Word, b: bool): Word {
    Shift(Plus(c, Bit(b)))
  }

  function FeedBits(c: Word, bits: seq<bool>): Word
    decreases |bits|
  {
    if bits == [] then c else FeedBits(FeedBit(c, bits[0]), bits[1..])
  }

  /** The bits of a byte, lowest first. */
  function BitsOf(b: Byte): (r: seq<bool>)
    ensures |r| == 8
  {
    [b & 1 != 0, b & 2 != 0, b & 4 != 0, b & 8 != 0, b & 16 != 0, b & 32 != 0, b & 64 != 0, b & 128 != 0]
  }

  function Bits(data: seq<Byte>): (r: seq<bool>)
    ensures |r| == 8 * |data|
  {
    if data == [] then [] else BitsOf(data[0]) + Bits(data[1..])
  }

  /** Reference: the checksum as a division of the message, bit by bit. */
  function Crc(data: seq<Byte>): Word {
    Plus(FeedBits(ONES, Bits(data)), ONES)
  }

  // ---------------------------------------------------------------------
  // The shift is linear and loses nothing
  // ---------------------------------------------------------------------

  function Unshift(d: Word): Word {
    if Top(d) then Double(Plus(POLY, d), true) else Double(d, false)
  }

  lemma UnshiftShift(c: Word)
    ensures Unshift(Shift(c)) == c
  {
    hide Half, Odd, Plus, Top, Double;
    Halves(c);
    Cancel(POLY, Half(c));
  }

  lemma ShiftPlus(a: Word, b: Word)
    ensures Shift(Plus(a, b)) == Plus(Shift(a), Shift(b))
  {
    hide Half, Odd, Plus;
    PlusParts(a, b);
    Mix(POLY, Half(a), Half(b));
  }

  lemma {:induction false} ShiftsInjective(a: Word, b: Word, k: nat)
    requires Shifts(a, k) == Shifts(b, k)
    ensures a == b
    decreases k
  {
    hide Shift, Unshift;
    if k > 0 {
      ShiftsInjective(Shift(a), Shift(b), k - 1);
      UnshiftShift(a);
      UnshiftShift(b);
    }
  }

  lemma {:induction false} ShiftsPlus(a: Word, b: Word, k: nat)
    ensures Shifts(Plus(a, b), k) == Plus(Shifts(a, k), Shifts(b, k))
    decreases k
  {
    hide Shift, Plus;
    if k > 0 {
      ShiftPlus(a, b);
      ShiftsPlus(Shift(a), Shift(b), k - 1);
    }
  }

  /** The register before any bits is determined by those bits and the register after them. */
  lemma {:induction false} FeedInjective(c: Word, d: Word, bits: seq<bool>)
    requires FeedBits(c, bits) == FeedBits(d, bits)
    ensures c == d
    decreases |bits|
  {
    hide Shift, Unshift, Plus, Bit;
    if bits != [] {
      var x := Bit(bits[0]);
      FeedInjective(FeedBit(c, bits[0]), FeedBit(d, bits[0]), bits[1..]);
      UnshiftShift(Plus(c, x));
      UnshiftShift(Plus(d, x));
      PlusAssoc(c, x, x);
      PlusAssoc(d, x, x);
      PlusSame(x);
      PlusSame(c);
      PlusSame(d);
    }
  }

  lemma {:induction false} FeedAppend(c: Word, a: seq<bool>, b: seq<bool>)
    ensures FeedBits(c, a + b) == FeedBits(FeedBits(c, a), b)
    decreases |a|
  {
    hide FeedBit;
    if a == [] {
      assert a + b == b;
    } else {
      assert (a + b)[1..] == a[1..] + b;
      assert (a + b)[0] == a[0];
      FeedAppend(FeedBit(c, a[0]), a[1..], b);
    }
  }

  // ---------------------------------------------------------------------
  // Up to 32 bits at once
  // ---------------------------------------------------------------------

  /** The number the bits spell, lowest first. */
  function Val(bits: seq<bool>): Word {
    if bits == [] then 0 else Double(Val(bits[1..]), bits[0])
  }

  function Mask(n: nat): Word {
    if n == 0 then 0 else Double(Mask(n - 1), true)
  }

  lemma OnesStay(m: Word)
    ensures Double(ONES, true) == ONES && Double(0, true) & (Double(0, true) + 1) == 0
    ensures m & (m + 1) == 0 ==> Double(m, true) & (Double(m, true) + 1) == 0
    ensures m & (m + 1) == 0 && Top(m) ==> m == ONES
  {
  }

  lemma {:induction false} MaskOnes(n: nat)
    ensures Mask(n) & (Mask(n) + 1) == 0
  {
    hide Double;
    if n > 0 {
      MaskOnes(n - 1);
      OnesStay(Mask(n - 1));
    }
  }

  lemma {:induction false} MaskFull(n: nat, k: nat)
    requires Mask(n) == ONES
    ensures Mask(n + k) == ONES
  {
    hide Double;
    if k > 0 {
      MaskFull(n, k - 1);
      OnesStay(0);
    }
  }

  lemma DoubleOnes(m: Word)
    ensures Double(Double(Double(Double(m, true), true), true), true) == (m << 4) | 0x0F
  {
  }

  lemma MaskFour(n: nat)
    ensures Mask(n + 4) == (Mask(n) << 4) | 0x0F
  {
    hide Double;
    DoubleOnes(Mask(n));
    assert Mask(n + 2) == Double(Double(Mask(n), true), true);
    assert Mask(n + 4) == Double(Double(Mask(n + 2), true), true);
  }

  lemma MaskSpare(n: nat)
    requires n < 32
    ensures !Top(Mask(n))
  {
    hide Double;
    MaskFour(0);
    MaskFour(4);
    MaskFour(8);
    MaskFour(12);
    MaskFour(16);
    MaskFour(20);
    MaskFour(24);
    assert Mask(28) == 0x0FFF_FFFF;
    if Top(Mask(n)) {
      MaskOnes(n);
      OnesStay(Mask(n));
      MaskFull(n, 31 - n);
      assert Mask(31) == Double(Double(Double(Mask(28), true), true), true);
      SevenBits();
    }
  }

  lemma SevenBits()
    ensures Double(Double(Double(0x0FFF_FFFF, true), true), true) == 0x7FFF_FFFF
  {
  }

  predicate Within(v: Word, m: Word) {
    v <= m
  }

  lemma DoubleWithin(v: Word, m: Word, b: bool)
    requires Within(v, m) && !Top(m)
    ensures Within(Double(v, b), Double(m, true)) && !Top(v)
  {
  }

  lemma {:induction false} ValBound(bits: seq<bool>)
    requires |bits| <= 32
    ensures Within(Val(bits), Mask(|bits|))
  {
    if bits != [] {
      hide Double, Top, Within;
      ValBound(bits[1..]);
      MaskSpare(|bits| - 1);
      DoubleWithin(Val(bits[1..]), Mask(|bits| - 1), bits[0]);
    }
  }

  lemma ValSpare(bits: seq<bool>)
    requires |bits| < 32
    ensures !Top(Val(bits))
  {
    hide Double, Top, Within;
    ValBound(bits);
    MaskSpare(|bits|);
    DoubleWithin(Val(bits), Mask(|bits|), true);
  }

  lemma {:induction false} ValInjective(a: seq<bool>, b: seq<bool>)
    requires |a| == |b| <= 32 && Val(a) == Val(b)
    ensures a == b
  {
    hide Double, Top, Half, Odd;
    if a != [] {
      ValSpare(a[1..]);
      ValSpare(b[1..]);
      Doubles(Val(a[1..]), a[0]);
      Doubles(Val(b[1..]), b[0]);
      ValInjective(a[1..], b[1..]);
      assert a == [a[0]] + a[1..] && b == [b[0]] + b[1..];
    }
  }

  lemma ShiftFed(c: Word, v: Word, b: bool)
    requires !Top(v)
    ensures Shift(Plus(c, Double(v, b))) == Plus(FeedBit(c, b), v)
  {
    hide Double, Top, Half, Odd, Plus, Bit;
    Doubles(v, b);
    BitParts(b);
    PlusParts(c, Double(v, b));
    PlusParts(c, Bit(b));
    PlusSame(Half(c));
    PlusAssoc(POLY, Half(c), v);
  }

  /** Feeding at most 32 bits is adding the number they spell and shifting. */
  lemma {:induction false} FeedIsShifts(c: Word, bits: seq<bool>)
    requires |bits| <= 32
    ensures FeedBits(c, bits) == Shifts(Plus(c, Val(bits)), |bits|)
    decreases |bits|
  {
    hide Double, Top, Shift, Plus, FeedBit;
    if bits == [] {
      PlusSame(c);
    } else {
      ValSpare(bits[1..]);
      ShiftFed(c, Val(bits[1..]), bits[0]);
      FeedIsShifts(FeedBit(c, bits[0]), bits[1..]);
    }
  }

  // ---------------------------------------------------------------------
  // One byte by the table
  // ---------------------------------------------------------------------

  lemma ValOne(a: bool, t: seq<bool>)
    ensures Val([a] + t) == Double(Val(t), a)
  {
    assert ([a] + t)[1..] == t;
  }

  lemma ValFour(a: bool, b: bool, c: bool, d: bool, t: seq<bool>)
    ensures Val([a, b, c, d] + t) == Double(Double(Double(Double(Val(t), d), c), b), a)
  {
    hide Double, Val;
    assert [a, b, c, d] + t == [a] + ([b] + ([c] + ([d] + t)));
    ValOne(d, t);
    ValOne(c, [d] + t);
    ValOne(b, [c] + ([d] + t));
    ValOne(a, [b] + ([c] + ([d] + t)));
  }

  function Spell(b: Byte): Word {
    Double(Double(Double(Double(Double(Double(Double(Double(0, b & 128 != 0), b & 64 != 0),
      b & 32 != 0), b & 16 != 0), b & 8 != 0), b & 4 != 0), b & 2 != 0), b & 1 != 0)
  }

  lemma SpellIs(b: Byte)
    ensures Spell(b) == b as Word
  {
  }

  lemma ValNone()
    ensures Val([]) == 0
  {
  }

  lemma ValOfByte(b: Byte)
    ensures Val(BitsOf(b)) == b as Word
  {
    hide Double, Val;
    ValNone();
    var s := BitsOf(b);
    assert s == [s[0], s[1], s[2], s[3]] + [s[4], s[5], s[6], s[7]];
    assert [s[4], s[5], s[6], s[7]] + [] == [s[4], s[5], s[6], s[7]];
    ValFour(s[4], s[5], s[6], s[7], []);
    ValFour(s[0], s[1], s[2], s[3], [s[4], s[5], s[6], s[7]]);
    SpellIs(b);
  }

  /** A slot of the table: eight shifts of its index. */
  function Slot(i: Byte): Word {
    Shifts(i as Word, 8)
  }

  function SlotAt(k: nat): Word
    requires k < 256
  {
    Slot(k as Byte)
  }

  lemma SlotHere(k: nat)
    requires k < 256
    ensures SlotAt(k) == Slot(k as Byte)
  {
  }

  lemma SlotIndex(b: Byte)
    ensures 0 <= b as int < 256 && SlotAt(b as int) == Slot(b)
  {
  }

  function LowByte(c: Word): Byte {
    (c & 0xFF) as Byte
  }

  function Upper(c: Word): Word {
    c & 0xFFFF_FF00
  }

  lemma Split(c: Word)
    ensures c == Plus(LowByte(c) as Word, Upper(c))
  {
  }

  function HalfTwice(c: Word): Word {
    Half(Half(c))
  }

  /** `c` ends in `k` zero bits. */
  predicate Zeros(c: Word, k: Word) {
    c & k == 0
  }

  lemma UpperZeros(c: Word)
    ensures Zeros(Upper(c), 0xFF)
    ensures Upper(c) >> 8 == c >> 8
  {
  }

  lemma HalfZeros(c: Word)
    ensures Zeros(c, 0xFF) ==> !Odd(c) && !Odd(Half(c)) && Zeros(HalfTwice(c), 0x3F)
    ensures Zeros(c, 0x3F) ==> !Odd(c) && !Odd(Half(c)) && Zeros(HalfTwice(c), 0x0F)
    ensures Zeros(c, 0x0F) ==> !Odd(c) && !Odd(Half(c)) && Zeros(HalfTwice(c), 0x03)
    ensures Zeros(c, 0x03) ==> !Odd(c) && !Odd(Half(c))
  {
  }

  lemma HalfEight(c: Word)
    ensures HalfTwice(HalfTwice(HalfTwice(HalfTwice(c)))) == c >> 8
  {
  }

  /** Eight shifts only halve a word whose low byte is clear. */
  lemma UpperShifts(c: Word)
    ensures Shifts(Upper(c), 8) == c >> 8
  {
    hide Half, Odd, Upper, Plus, Zeros;
    var u := Upper(c);
    UpperZeros(c);
    HalfZeros(u);
    var v := HalfTwice(u);
    HalfZeros(v);
    var w := HalfTwice(v);
    HalfZeros(w);
    var x := HalfTwice(w);
    HalfZeros(x);
    HalfEight(u);
    assert Shifts(u, 8) == Shifts(v, 6) == Shifts(w, 4) == Shifts(x, 2) == HalfTwice(x);
  }

  /** The table step divides in a whole byte. */
  lemma TableStep(c: Word, b: Byte)
    ensures Plus(Slot(LowByte(Plus(c, b as Word))), LessByte(c)) == FeedBits(c, BitsOf(b))
  {
    hide Shift, Plus, LowByte, Upper, Half, Odd, LessByte;
    var s := Plus(c, b as Word);
    ValOfByte(b);
    FeedIsShifts(c, BitsOf(b));
    Split(s);
    ShiftsPlus(LowByte(s) as Word, Upper(s), 8);
    UpperShifts(s);
    LessSame(c, b);
  }

  function LessByte(c: Word): Word {
    c >> 8
  }

  lemma LessSame(c: Word, b: Byte)
    ensures Plus(c, b as Word) >> 8 == LessByte(c)
  {
  }

  // ---------------------------------------------------------------------
  // The function of the source
  // ---------------------------------------------------------------------

  lemma {:induction false} BitsAppend(a: seq<Byte>, b: seq<Byte>)
    ensures Bits(a + b) == Bits(a) + Bits(b)
  {
    hide BitsOf;
    if a == [] {
      assert a + b == b;
    } else {
      assert (a + b)[0] == a[0] && (a + b)[1..] == a[1..] + b;
      BitsAppend(a[1..], b);
    }
  }

  lemma BitsOfOne(b: Byte)
    ensures Bits([b]) == BitsOf(b)
  {
    hide BitsOf;
    assert [b][1..] == [];
  }

  lemma FeedNext(data: seq<Byte>, n: nat)
    requires n < |data|
    ensures FeedBits(ONES, Bits(data[..n + 1])) == FeedBits(FeedBits(ONES, Bits(data[..n])), BitsOf(data[n]))
  {
    hide FeedBits, BitsOf;
    assert data[..n + 1] == data[..n] + [data[n]];
    BitsAppend(data[..n], [data[n]]);
    BitsOfOne(data[n]);
    FeedAppend(ONES, Bits(data[..n]), BitsOf(data[n]));
  }

  /** One slot of the table, built in place. */
  method BuildSlot(i: Byte) returns (c: Word)
    ensures c == Slot(i)
  {
    hide Half, Odd, Plus;
    c := i as Word;
    for k := 0 to 8
      invariant Shifts(c, 8 - k) == Slot(i)
    {
      c := if Odd(c) then Plus(POLY, Half(c)) else Half(c);
    }
  }

  /** `crc32_ieee`: builds its table, then takes the message a byte at a time. */
  method Crc32Ieee(data: seq<Byte>) returns (crc: Word)
    ensures crc == Crc(data)
  {
    hide Plus, Slot, SlotAt, LowByte, FeedBit, BitsOf, LessByte;
    var table := new Word[256];
    for i := 0 to 256
      invariant forall k :: 0 <= k < i ==> table[k] == SlotAt(k)
    {
      table[i] := BuildSlot(i as Byte);
      SlotHere(i);
    }
    crc := ONES;
    for n := 0 to |data|
      invariant forall k :: 0 <= k < 256 ==> table[k] == SlotAt(k)
      invariant crc == FeedBits(ONES, Bits(data[..n]))
    {
      var index := LowByte(Plus(crc, data[n] as Word));
      TableStep(crc, data[n]);
      SlotIndex(index);
      assert table[index as int] == Slot(index);
      crc := Plus(table[index as int], LessByte(crc));
      FeedNext(data, n);
    }
    assert data[..|data|] == data;
    crc := Plus(crc, ONES);
  }

  // ---------------------------------------------------------------------
  // The same register with the high bit first
  // ---------------------------------------------------------------------

  const FORWARD: Word := 0x04C1_1DB7

  /** The word with its bits in the opposite order. */
  function Reverse(c: Word): Word {
    var a := ((c & 0x5555_5555) << 1) | ((c >> 1) & 0x5555_5555);
    var b := ((a & 0x3333_3333) << 2) | ((a >> 2) & 0x3333_3333);
    var d := ((b & 0x0F0F_0F0F) << 4) | ((b >> 4) & 0x0F0F_0F0F);
    var e := ((d & 0x00FF_00FF) << 8) | ((d >> 8) & 0x00FF_00FF);
    (e << 16) | (e >> 16)
  }

  /** Long division by x^32 + x^26 + x^23 + ... + x + 1, high bit first. */
  function ForwardBit(c: Word, b: bool): Word {
    if Top(c) != b then Plus(FORWARD, c << 1) else c << 1
  }

  function ForwardBits(c: Word, bits: seq<bool>): Word
    decreases |bits|
  {
    if bits == [] then c else ForwardBits(ForwardBit(c, bits[0]), bits[1..])
  }

  lemma ReverseShift(c: Word)
    ensures Reverse(c >> 1) == Reverse(c) << 1
  {
  }

  lemma ReverseXor(c: Word)
    ensures Reverse(0xEDB8_8320 ^ c) == 0x04C1_1DB7 ^ Reverse(c)
  {
  }

  lemma ReverseHalf(c: Word)
    ensures Reverse(Half(c)) == Reverse(c) << 1
  {
    hide Reverse;
    ReverseShift(c);
  }

  lemma ReverseTop(c: Word)
    ensures Top(Reverse(c)) == Odd(c)
  {
  }

  lemma ReversePoly(c: Word)
    ensures Reverse(Plus(POLY, c)) == Plus(FORWARD, Reverse(c))
  {
    hide Reverse;
    ReverseXor(c);
  }

  lemma ReverseTwice(c: Word)
    ensures Reverse(Reverse(c)) == c
  {
  }

  lemma FeedBitCases(c: Word, b: bool)
    ensures FeedBit(c, b) == if Odd(c) != b then Plus(POLY, Half(c)) else Half(c)
  {
    hide Plus, Half, Odd, Bit;
    PlusParts(c, Bit(b));
    BitParts(b);
    PlusSame(Half(c));
  }

  /** The reflected register is the mirror image of the plain one after any message. */
  lemma {:induction false} Mirror(c: Word, bits: seq<bool>)
    ensures Reverse(FeedBits(c, bits)) == ForwardBits(Reverse(c), bits)
    decreases |bits|
  {
    hide Plus, Half, Odd, Top, Reverse, FeedBit;
    if bits != [] {
      FeedBitCases(c, bits[0]);
      ReverseHalf(c);
      ReverseTop(c);
      ReversePoly(Half(c));
      Mirror(FeedBit(c, bits[0]), bits[1..]);
    }
  }

  /** So the checksum is the plain division by the polynomial, written mirrored. */
  lemma CrcIsForward(data: seq<Byte>)
    ensures Crc(data) == Plus(Reverse(ForwardBits(ONES, Bits(data))), ONES)
  {
    hide Plus, Reverse, FeedBits, ForwardBits;
    Mirror(ONES, Bits(data));
    ReverseOnes();
    ReverseTwice(FeedBits(ONES, Bits(data)));
  }

  lemma ReverseOnes()
    ensures Reverse(ONES) == ONES
  {
  }

  // ---------------------------------------------------------------------
  // What the checksum notices
  // ---------------------------------------------------------------------

  function Differ(a: seq<bool>, b: seq<bool>): (d: seq<bool>)
    requires |a| == |b|
    ensures |d| == |a|
  {
    seq(|a|, i requires 0 <= i < |a| => a[i] != b[i])
  }

  lemma FeedBitPlus(c: Word, d: Word, x: bool, y: bool)
    ensures Plus(FeedBit(c, x), FeedBit(d, y)) == FeedBit(Plus(c, d), x != y)
  {
    hide Plus, Half, Odd;
    FeedBitCases(c, x);
    FeedBitCases(d, y);
    FeedBitCases(Plus(c, d), x != y);
    PlusParts(c, d);
    Mix(POLY, Half(c), Half(d));
  }

  lemma {:induction false} FeedDiffer(c: Word, d: Word, a: seq<bool>, b: seq<bool>)
    requires |a| == |b|
    ensures Plus(FeedBits(c, a), FeedBits(d, b)) == FeedBits(Plus(c, d), Differ(a, b))
    decreases |a|
  {
    hide Plus, FeedBit;
    if a != [] {
      FeedBitPlus(c, d, a[0], b[0]);
      FeedDiffer(FeedBit(c, a[0]), FeedBit(d, b[0]), a[1..], b[1..]);
      assert Differ(a, b)[1..] == Differ(a[1..], b[1..]);
    }
  }

  lemma PlusZero(a: Word, b: Word)
    ensures Plus(a, b) == 0 <==> a == b
  {
    hide Plus;
    PlusSame(a);
    PlusSame(b);
    PlusAssoc(a, b, b);
  }

  lemma PlusKeeps(a: Word, b: Word, k: Word)
    ensures (Plus(a, k) == Plus(b, k) <==> a == b) && (Plus(k, a) == Plus(k, b) <==> a == b)
  {
    hide Plus;
    PlusComm(a, k);
    PlusComm(b, k);
    Cancel(k, a);
    Cancel(k, b);
  }

  /** Two messages of one length share a checksum exactly when the pattern of changed bits divides to zero. */
  lemma UndetectedExactly(a: seq<Byte>, b: seq<Byte>)
    requires |a| == |b|
    ensures Crc(a) == Crc(b) <==> FeedBits(0, Differ(Bits(a), Bits(b))) == 0
  {
    hide Plus, FeedBits;
    FeedDiffer(ONES, ONES, Bits(a), Bits(b));
    PlusZero(ONES, ONES);
    PlusZero(FeedBits(ONES, Bits(a)), FeedBits(ONES, Bits(b)));
    PlusKeeps(FeedBits(ONES, Bits(a)), FeedBits(ONES, Bits(b)), ONES);
  }

  lemma HeadBits(a: seq<Byte>)
    requires a != []
    ensures Bits(a)[..8] == BitsOf(a[0]) && Bits(a)[8..] == Bits(a[1..])
  {
    hide BitsOf;
  }

  lemma {:induction false} BitsInjective(a: seq<Byte>, b: seq<Byte>)
    requires Bits(a) == Bits(b)
    ensures a == b
  {
    hide BitsOf;
    if a != [] {
      hide Bits, Val;
      HeadBits(a);
      HeadBits(b);
      ValOfByte(a[0]);
      ValOfByte(b[0]);
      SameByte(a[0], b[0]);
      BitsInjective(a[1..], b[1..]);
      assert a == [a[0]] + a[1..] && b == [b[0]] + b[1..];
    }
  }

  lemma SameByte(x: Byte, y: Byte)
    ensures x as Word == y as Word ==> x == y
  {
  }

  lemma Cut(s: seq<bool>, i: nat, j: nat)
    requires i <= j <= |s|
    ensures s == s[..i] + (s[i..j] + s[j..])
  {
  }

  /** Changes inside a window of at most 32 bits never go unnoticed, wherever it is and however long the message. */
  lemma BurstDetected(a: seq<Byte>, b: seq<Byte>, i: nat, j: nat)
    requires |a| == |b| && a != b
    requires i <= j <= i + 32 && j <= 8 * |a|
    requires Bits(a)[..i] == Bits(b)[..i] && Bits(a)[j..] == Bits(b)[j..]
    ensures Crc(a) != Crc(b)
  {
    hide Plus, FeedBit, Bits, Val;
    if Crc(a) == Crc(b) {
      var s, t := Bits(a), Bits(b);
      var c, u, v := FeedBits(ONES, s[..i]), s[i..j], t[i..j];
      PlusKeeps(FeedBits(ONES, s), FeedBits(ONES, t), ONES);
      Cut(s, i, j);
      Cut(t, i, j);
      FeedAppend(ONES, s[..i], u + s[j..]);
      FeedAppend(ONES, t[..i], v + t[j..]);
      FeedAppend(c, u, s[j..]);
      FeedAppend(c, v, t[j..]);
      FeedInjective(FeedBits(c, u), FeedBits(c, v), s[j..]);
      FeedIsShifts(c, u);
      FeedIsShifts(c, v);
      ShiftsInjective(Plus(c, Val(u)), Plus(c, Val(v)), j - i);
      PlusKeeps(Val(u), Val(v), c);
      ValInjective(u, v);
      BitsInjective(a, b);
    }
  }

  /** In particular changes inside at most four consecutive bytes. */
  lemma WindowDetected(a: seq<Byte>, b: seq<Byte>, p: nat, k: nat)
    requires |a| == |b| && a != b && k <= 4 && p + k <= |a|
    requires a[..p] == b[..p] && a[p + k..] == b[p + k..]
    ensures Crc(a) != Crc(b)
  {
    hide Bits, Crc;
    BitsCut(a, p);
    BitsCut(b, p);
    BitsCut(a, p + k);
    BitsCut(b, p + k);
    BurstDetected(a, b, 8 * p, 8 * (p + k));
  }

  lemma BitsCut(a: seq<Byte>, p: nat)
    requires p <= |a|
    ensures Bits(a)[..8 * p] == Bits(a[..p]) && Bits(a)[8 * p..] == Bits(a[p..])
  {
    BitsAppend(a[..p], a[p..]);
    assert a == a[..p] + a[p..];
  }

  /** 32 is the most that can be promised: flipping the 33 bits of the polynomial itself is never noticed. */
  lemma PolynomialMissed(a: seq<Byte>, b: seq<Byte>, before: seq<bool>, bits: seq<bool>, after: seq<bool>)
    requires |a| == |b| && |bits| == 32 && Val(bits) == POLY
    requires (forall k :: 0 <= k < |before| ==> !before[k]) && (forall k :: 0 <= k < |after| ==> !after[k])
    requires Differ(Bits(a), Bits(b)) == before + ([true] + (bits + after))
    ensures Crc(a) == Crc(b)
  {
    hide Val, FeedBit, Crc, Plus, Bits;
    UndetectedExactly(a, b);
    FeedAppend(0, before, [true] + (bits + after));
    Idle(before);
    Idle(after);
    FeedAppend(0, [true], bits + after);
    FirstOne();
    FeedAppend(POLY, bits, after);
    FeedIsShifts(POLY, bits);
    PlusSame(POLY);
    ShiftsZero(32);
  }

  lemma ZeroStays()
    ensures FeedBit(0, false) == 0 && Shift(0) == 0
  {
  }

  lemma {:induction false} Idle(bits: seq<bool>)
    requires forall k :: 0 <= k < |bits| ==> !bits[k]
    ensures FeedBits(0, bits) == 0
  {
    hide FeedBit;
    if bits != [] {
      ZeroStays();
      Idle(bits[1..]);
    }
  }

  lemma {:induction false} ShiftsZero(k: nat)
    ensures Shifts(0, k) == 0
  {
    hide Shift;
    if k > 0 {
      ZeroStays();
      ShiftsZero(k - 1);
    }
  }

  lemma FirstOne()
    ensures FeedBits(0, [true]) == POLY
  {
    assert [true][1..] == [];
    assert FeedBit(0, true) == POLY;
  }

  // ---------------------------------------------------------------------
  // The check value
  // ---------------------------------------------------------------------

  /** One byte, eight divisions. */
  lemma FeedByte(c: Word, b: Byte)
    ensures FeedBits(c, BitsOf(b)) == Shifts(Plus(c, b as Word), 8)
  {
    hide Shift, Plus;
    ValOfByte(b);
    FeedIsShifts(c, BitsOf(b));
  }

  /** The register after each character of the digits 1 to 9, from all ones on. */
  const REGISTERS: seq<Word> :=
    [0xFFFF_FFFF, 0x7C23_1048, 0xB0AC_BB32, 0x77B7_9C2D, 0x641C_1F5C,
     0x340A_C5E3, 0xF68D_2C9E, 0xAFFC_9660, 0x651F_2550, 0x340B_C6D9]

  const NUMERALS: seq<Byte> := [0x31, 0x32, 0x33, 0x34, 0x35, 0x36, 0x37, 0x38, 0x39]

  lemma RegisterStep(k: nat)
    requires k < 9
    ensures Shifts(Plus(REGISTERS[k], NUMERALS[k] as Word), 8) == REGISTERS[k + 1]
  {
  }

  lemma {:induction false} FeedNumerals(k: nat)
    requires k <= 9
    ensures FeedBits(ONES, Bits(NUMERALS[..k])) == REGISTERS[k]
  {
    if k == 0 {
      assert NUMERALS[..0] == [];
    } else {
      hide FeedBits, Bits, Shifts, Plus;
      FeedNumerals(k - 1);
      FeedLast(NUMERALS[..k - 1], NUMERALS[k - 1]);
      RegisterStep(k - 1);
      FrontAnd(k - 1);
      hide NUMERALS, REGISTERS;
    }
  }

  lemma FrontAnd(k: nat)
    requires k < 9
    ensures NUMERALS[..k + 1] == NUMERALS[..k] + [NUMERALS[k]]
  {
  }

  lemma FeedLast(data: seq<Byte>, b: Byte)
    ensures FeedBits(ONES, Bits(data + [b])) == Shifts(Plus(FeedBits(ONES, Bits(data)), b as Word), 8)
  {
    hide Shift, Plus, BitsOf;
    BitsAppend(data, [b]);
    assert Bits([b]) == BitsOf(b) + Bits([]) == BitsOf(b);
    FeedAppend(ONES, Bits(data), BitsOf(b));
    FeedByte(FeedBits(ONES, Bits(data)), b);
  }

  /** The checksum of the characters `123456789` is the value published for this code; that of nothing is 0. */
  lemma CheckValue()
    ensures Crc([0x31, 0x32, 0x33, 0x34, 0x35, 0x36, 0x37, 0x38, 0x39]) == 0xCBF4_3926
    ensures Crc([]) == 0
  {
    hide FeedBits, Bits;
    FeedNumerals(0);
    FeedNumerals(9);
    assert NUMERALS[..9] == NUMERALS && NUMERALS[..0] == [];
  }
}
