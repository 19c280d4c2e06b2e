/**
  What the block formats mean, in plain integer arithmetic (src/quant.rs): how scales,
  minima and values are packed into bytes, and that decoding unpacks exactly them.
*/
module QuantLaws {
  import opened Prelude
  import opened Arith
  import opened Quant

  // ---------------------------------------------------------------------
  // Bits as digits
  // ---------------------------------------------------------------------

  lemma NibbleDigits(b: Byte)
    ensures Low(b) == b as int % 16 && High(b) == b as int / 16
  {
  }

  lemma SixBits(b: Byte)
    ensures (b & 63) as int == b as int % 64 && (b >> 6) as int == b as int / 64
  {
  }

  lemma Joined(x: Byte, y: Byte)
    requires x < 16 && y < 16
    ensures (x | (y << 4)) as int == x as int + 16 * y as int
  {
    assert x | (y << 4) == x + 16 * y;
  }

  /** A number below 256 and its two digits to base 16 or base 64 determine each other. */
  lemma Digits(x: nat, lo: nat, hi: nat)
    ensures lo < 16 && x == lo + 16 * hi ==> x % 16 == lo && x / 16 == hi
    ensures lo < 64 && x == lo + 64 * hi ==> x % 64 == lo && x / 64 == hi
    ensures x == x % 16 + 16 * (x / 16) && x == x % 64 + 64 * (x / 64)
  {
  }

  /** `i8`: the one number from -128 to 127 that the byte is congruent to. */
  lemma SignedIs(b: Byte, n: int)
    requires -128 <= n < 128
    ensures Signed(b) == n <==> (n - b as int) % 256 == 0
  {
  }

  // ---------------------------------------------------------------------
  // Q4_0 and Q8_0
  // ---------------------------------------------------------------------

  /** A Q4_0 block holds 32 codes: the first 16 in the low digits of its bytes, the others in the high ones. */
  predicate Packs40(codes: seq<nat>, b: Block)
    requires |b| == 18
  {
    && |codes| == 32 && (forall e :: 0 <= e < 32 ==> codes[e] < 16)
    && forall i :: 0 <= i < 16 ==> b[2 + i] as int == codes[i] + 16 * codes[i + 16]
  }

  /** Codes are taken around 8 and scaled. */
  lemma Q40Packing(f: Floats, codes: seq<nat>, b: Block, e: nat)
    requires |b| == 18 && Packs40(codes, b) && e < 32
    ensures Q40At(f, b, e) == (codes[e] as int - 8) as real * f.f16(b[0], b[1])
  {
    hide Low, High, Packs40;
    CodeDigits(codes, b, if e < 16 then e else e - 16);
  }

  lemma CodeDigits(codes: seq<nat>, b: Block, i: nat)
    requires |b| == 18 && Packs40(codes, b) && i < 16
    ensures |codes| == 32 && Low(b[2 + i]) == codes[i] && High(b[2 + i]) == codes[i + 16]
  {
    hide Low, High;
    NibbleDigits(b[2 + i]);
    assert codes[i] < 16;
    Digits(b[2 + i] as int, codes[i], codes[i + 16]);
  }

  /** A Q8_0 element is its signed byte, scaled. */
  lemma Q80Packing(f: Floats, b: Block, e: nat, n: int)
    requires |b| == 34 && e < 32 && -128 <= n < 128 && (n - b[2 + e] as int) % 256 == 0
    ensures Q80At(f, b, e) == n as real * f.f16(b[0], b[1])
  {
    SignedIs(b[2 + e], n);
  }

  // ---------------------------------------------------------------------
  // Q4_K
  // ---------------------------------------------------------------------

  /**
    Eight scales and eight minima below 64 in 12 bytes: those of the first four
    sub-blocks whole in the low six bits of two runs of four bytes, those of the last
    four cut into a low digit in the third run and two high bits over the first two.
  */
  predicate Packs4K(scales: seq<nat>, mins: seq<nat>, q: seq<Byte>)
    requires |q| == 12
  {
    && |scales| == 8 == |mins| && (forall j :: 0 <= j < 8 ==> scales[j] < 64 && mins[j] < 64)
    && forall j :: 0 <= j < 4 ==> PackedAt(scales, mins, q, j)
  }

  predicate PackedAt(scales: seq<nat>, mins: seq<nat>, q: seq<Byte>, j: nat)
    requires |q| == 12 && |scales| == 8 == |mins| && j < 4
  {
    Packed3(q[j] as int, q[j + 4] as int, q[j + 8] as int, scales[j], scales[j + 4], mins[j], mins[j + 4])
  }

  /** A whole scale and minimum and a cut pair of them, in three bytes. */
  predicate Packed3(x: nat, y: nat, z: nat, scale: nat, scale4: nat, min: nat, min4: nat) {
    && x == scale + 64 * (scale4 / 16) && y == min + 64 * (min4 / 16)
    && z == scale4 % 16 + 16 * (min4 % 16)
  }

  lemma Unpack3(x: nat, y: nat, z: nat, scale: nat, scale4: nat, min: nat, min4: nat)
    requires scale < 64 && scale4 < 64 && min < 64 && min4 < 64 && Packed3(x, y, z, scale, scale4, min, min4)
    ensures scale == x % 64 && min == y % 64
    ensures scale4 == z % 16 + 16 * (x / 64) && min4 == z / 16 + 16 * (y / 64)
  {
    Digits(x, scale, scale4 / 16);
    Digits(y, min, min4 / 16);
    Digits(z, scale4 % 16, min4 % 16);
  }

  lemma ScalesUnpack(scales: seq<nat>, mins: seq<nat>, q: seq<Byte>, j: nat)
    requires |q| == 12 && Packs4K(scales, mins, q) && j < 8
    ensures ScaleMin(j, q).0 as int == scales[j] && ScaleMin(j, q).1 as int == mins[j]
  {
    hide ScaleMin, ScaleOf, MinOf, PackedAt;
    ScaleDigits(j, q);
    if j < 4 {
      ThreeBytes(scales, mins, q, j);
    } else {
      ThreeBytes(scales, mins, q, j - 4);
    }
  }

  lemma ThreeBytes(scales: seq<nat>, mins: seq<nat>, q: seq<Byte>, i: nat)
    requires |q| == 12 && Packs4K(scales, mins, q) && i < 4
    ensures ScaleOf(q, i) == scales[i] && ScaleOf(q, i + 4) == scales[i + 4]
    ensures MinOf(q, i) == mins[i] && MinOf(q, i + 4) == mins[i + 4]
  {
    hide Packed3;
    assert PackedAt(scales, mins, q, i) && scales[i] < 64 && mins[i] < 64;
    assert scales[i + 4] < 64 && mins[i + 4] < 64;
    Unpack3(q[i] as int, q[i + 4] as int, q[i + 8] as int, scales[i], scales[i + 4], mins[i], mins[i + 4]);
  }

  /** `get_scale_min_k4` in digits. */
  lemma ScaleDigits(j: nat, q: seq<Byte>)
    requires |q| == 12 && j < 8
    ensures ScaleMin(j, q).0 as int == ScaleOf(q, j) && ScaleMin(j, q).1 as int == MinOf(q, j)
  {
    if j < 4 {
      SixBits(q[j]);
      SixBits(q[j + 4]);
    } else {
      HighPair(q[j - 4], q[j], q[j + 4]);
    }
  }

  lemma HighPair(x: Byte, y: Byte, z: Byte)
    ensures ((z & 0x0F) | ((x >> 6) << 4)) as int == z as int % 16 + 16 * (x as int / 64)
    ensures ((z >> 4) | ((y >> 6) << 4)) as int == z as int / 16 + 16 * (y as int / 64)
  {
    SixBits(x);
    SixBits(y);
    LowDigit(z);
    Joined(z & 0x0F, x >> 6);
    Joined(z >> 4, y >> 6);
  }

  lemma LowDigit(b: Byte)
    ensures (b & 0x0F) as int == b as int % 16 && (b >> 4) as int == b as int / 16
    ensures b & 0x0F < 16 && b >> 4 < 16 && b >> 6 < 4
  {
  }

  /** The value of element `e` of a Q4_K super-block: a digit of a byte that two sub-blocks share. */
  function Digit4K(b: Block, e: nat): nat
    requires |b| == 144 && e < 256
  {
    var packed := b[16 + 32 * (e / 64) + e % 32] as int;
    if e / 32 % 2 == 0 then packed % 16 else packed / 16
  }

  /** A super-block packed from scales and minima decodes each element with those of its sub-block. */
  lemma Q4KPacking(f: Floats, scales: seq<nat>, mins: seq<nat>, b: Block, e: nat)
    requires |b| == 144 && Packs4K(scales, mins, b[4..16]) && e < 256
    ensures Q4KAt(f, b, e) ==
            Times(Times(f.f16(b[0], b[1]), scales[e / 32] as real), Digit4K(b, e) as real)
            - Times(f.f16(b[2], b[3]), mins[e / 32] as real)
  {
    hide Q4KAt, Packs4K, Affine, SubScale, SubMin, Digit4K, Times;
    var j := e / 32;
    SubScalePacked(f, scales, mins, b, j);
    Q4KIs(f, b, e);
    var d, dmin := f.f16(b[0], b[1]), f.f16(b[2], b[3]);
    AffineIs(SubScale(f, b, j), d, scales[j], Digit4K(b, e), SubMin(f, b, j), dmin, mins[j]);
  }

  lemma Q4KIs(f: Floats, b: Block, e: nat)
    requires |b| == 144 && e < 256
    ensures Q4KAt(f, b, e) == Affine(SubScale(f, b, e / 32), Digit4K(b, e), SubMin(f, b, e / 32))
  {
    hide Low, High, Affine, SubScale, SubMin;
    NibbleDigits(b[16 + 32 * (e / 64) + e % 32]);
    assert e % 64 < 32 <==> e / 32 % 2 == 0;
  }

  lemma SubScalePacked(f: Floats, scales: seq<nat>, mins: seq<nat>, b: Block, j: nat)
    requires |b| == 144 && Packs4K(scales, mins, b[4..16]) && j < 8
    ensures |scales| == 8 == |mins|
    ensures SubScale(f, b, j) == Times(f.f16(b[0], b[1]), scales[j] as real)
    ensures SubMin(f, b, j) == Times(f.f16(b[2], b[3]), mins[j] as real)
  {
    hide ScaleMin;
    ScalesUnpack(scales, mins, b[4..16], j);
  }

  lemma AffineIs(s: real, d: real, scale: int, digit: int, m: real, dmin: real, min: int)
    requires s == Times(d, scale as real) && m == Times(dmin, min as real)
    ensures Affine(s, digit, m) == Times(Times(d, scale as real), digit as real) - Times(dmin, min as real)
  {
  }

  /** Every 12 bytes are packed from scales and minima, ... */
  lemma Unpack4K(q: seq<Byte>) returns (scales: seq<nat>, mins: seq<nat>)
    requires |q| == 12
    ensures Packs4K(scales, mins, q)
  {
    hide Packed3, ScaleOf, MinOf;
    scales := seq(8, j requires 0 <= j < 8 => ScaleOf(q, j));
    mins := seq(8, j requires 0 <= j < 8 => MinOf(q, j));
    forall j | 0 <= j < 8 ensures scales[j] < 64 && mins[j] < 64 {
      Small(q, j);
    }
    forall j | 0 <= j < 4 ensures PackedAt(scales, mins, q, j) {
      PackOf(q, j);
    }
  }

  function ScaleOf(q: seq<Byte>, j: nat): nat
    requires |q| == 12 && j < 8
  {
    if j < 4 then q[j] as int % 64 else q[j + 4] as int % 16 + 16 * (q[j - 4] as int / 64)
  }

  function MinOf(q: seq<Byte>, j: nat): nat
    requires |q| == 12 && j < 8
  {
    if j < 4 then q[j + 4] as int % 64 else q[j + 4] as int / 16 + 16 * (q[j] as int / 64)
  }

  lemma Small(q: seq<Byte>, j: nat)
    requires |q| == 12 && j < 8
    ensures ScaleOf(q, j) < 64 && MinOf(q, j) < 64
  {
  }

  lemma PackOf(q: seq<Byte>, j: nat)
    requires |q| == 12 && j < 4
    ensures Packed3(q[j] as int, q[j + 4] as int, q[j + 8] as int,
              ScaleOf(q, j), ScaleOf(q, j + 4), MinOf(q, j), MinOf(q, j + 4))
  {
    hide Packed3;
    Pack3(q[j] as int, q[j + 4] as int, q[j + 8] as int);
  }

  lemma Pack3(x: nat, y: nat, z: nat)
    requires x < 256 && y < 256 && z < 256
    ensures Packed3(x, y, z, x % 64, z % 16 + 16 * (x / 64), y % 64, z / 16 + 16 * (y / 64))
  {
    Digits(z % 16 + 16 * (x / 64), z % 16, x / 64);
    Digits(z / 16 + 16 * (y / 64), z / 16, y / 64);
  }

  /** ... and from one choice of them only. */
  lemma Unpack4KUnique(q: seq<Byte>, scales: seq<nat>, mins: seq<nat>, scales': seq<nat>, mins': seq<nat>)
    requires |q| == 12 && Packs4K(scales, mins, q) && Packs4K(scales', mins', q)
    ensures scales == scales' && mins == mins'
  {
    forall j | 0 <= j < 8 ensures scales[j] == scales'[j] && mins[j] == mins'[j] {
      ScalesUnpack(scales, mins, q, j);
      ScalesUnpack(scales', mins', q, j);
    }
  }

  // ---------------------------------------------------------------------
  // Q6_K
  // ---------------------------------------------------------------------

  /** The value of a quarter, from the digits of its two bytes. */
  function SixDigits(ql: nat, qh: nat, quarter: nat): nat
    requires quarter < 4
  {
    match quarter
    case 0 => ql % 16 + 16 * (qh % 4)
    case 1 => ql % 16 + 16 * (qh / 4 % 4)
    case 2 => ql / 16 + 16 * (qh / 16 % 4)
    case _ => ql / 16 + 16 * (qh / 64 % 4)
  }

  lemma TwoBits(b: Byte)
    ensures (b & 3) as int == b as int % 4
  {
  }

  lemma Shifted(b: Byte)
    ensures (b >> 2) as int == b as int / 4 && (b >> 4) as int == b as int / 16 && (b >> 6) as int == b as int / 64
  {
  }

  lemma SixJoined(lo: Byte, hi: Byte)
    requires lo < 16 && hi < 4
    ensures Signed(lo | (hi << 4)) == lo as int + 16 * hi as int
  {
    Joined(lo, hi);
  }

  /** A digit of one byte and two bits of another, taken around 32. */
  lemma SixIs(ql: Byte, qh: Byte, quarter: nat)
    requires quarter < 4
    ensures Six(ql, qh, quarter) == SixDigits(ql as int, qh as int, quarter) - 32
  {
    hide Signed;
    var lo := if quarter < 2 then ql & 0x0F else ql >> 4;
    var shifted := match quarter case 0 => qh case 1 => qh >> 2 case 2 => qh >> 4 case _ => qh >> 6;
    LowDigit(ql);
    Shifted(qh);
    TwoBits(shifted);
    Masked(shifted);
    SixJoined(lo, shifted & 3);
  }

  lemma Masked(b: Byte)
    ensures b & 3 < 4
  {
  }

  /** Four values and the three bytes they are packed into. */
  predicate Grouped(x: nat, y: nat, h: nat, v0: nat, v1: nat, v2: nat, v3: nat) {
    && x == v0 % 16 + 16 * (v2 % 16) && y == v1 % 16 + 16 * (v3 % 16)
    && h == v0 / 16 + 4 * (v1 / 16) + 16 * (v2 / 16) + 64 * (v3 / 16)
  }

  /** 256 values below 64: their low digits two to a byte, 64 apart, and their high bits four to a byte, 32 apart. */
  predicate Packs6K(values: seq<nat>, b: Block)
    requires |b| == 210
  {
    && |values| == 256 && (forall e :: 0 <= e < 256 ==> values[e] < 64)
    && forall n: nat, l: nat :: n < 2 && l < 32 ==> PackedSix(values, b, n, l)
  }

  predicate PackedSix(values: seq<nat>, b: Block, n: nat, l: nat)
    requires |b| == 210 && |values| == 256 && n < 2 && l < 32
  {
    var v0, v1, v2, v3 :=
      values[128 * n + l], values[128 * n + l + 32], values[128 * n + l + 64], values[128 * n + l + 96];
    Grouped(b[64 * n + l] as int, b[64 * n + l + 32] as int, b[128 + 32 * n + l] as int, v0, v1, v2, v3)
  }

  lemma SixUnpack(values: seq<nat>, b: Block, n: nat, l: nat, quarter: nat)
    requires |b| == 210 && Packs6K(values, b) && n < 2 && l < 32 && quarter < 4
    ensures Six(b[64 * n + l + 32 * (quarter % 2)], b[128 + 32 * n + l], quarter) ==
            values[128 * n + l + 32 * quarter] as int - 32
  {
    hide Six, SixDigits, Packs6K;
    GroupAt(values, b, n, l);
    if quarter == 0 {
      SixIs(b[64 * n + l], b[128 + 32 * n + l], 0);
    } else if quarter == 1 {
      SixIs(b[64 * n + l + 32], b[128 + 32 * n + l], 1);
    } else if quarter == 2 {
      SixIs(b[64 * n + l], b[128 + 32 * n + l], 2);
    } else {
      SixIs(b[64 * n + l + 32], b[128 + 32 * n + l], 3);
    }
  }

  lemma GroupAt(values: seq<nat>, b: Block, n: nat, l: nat)
    requires |b| == 210 && Packs6K(values, b) && n < 2 && l < 32
    ensures |values| == 256
    ensures var x, y, h := b[64 * n + l] as int, b[64 * n + l + 32] as int, b[128 + 32 * n + l] as int;
            && SixDigits(x, h, 0) == values[128 * n + l] && SixDigits(y, h, 1) == values[128 * n + l + 32]
            && SixDigits(x, h, 2) == values[128 * n + l + 64] && SixDigits(y, h, 3) == values[128 * n + l + 96]
  {
    hide SixDigits, Grouped;
    assert PackedSix(values, b, n, l);
    var v0, v1, v2, v3 :=
      values[128 * n + l], values[128 * n + l + 32], values[128 * n + l + 64], values[128 * n + l + 96];
    assert v0 < 64 && v1 < 64 && v2 < 64 && v3 < 64;
    SixGroup(b[64 * n + l] as int, b[64 * n + l + 32] as int, b[128 + 32 * n + l] as int, v0, v1, v2, v3);
  }

  lemma SixGroup(x: nat, y: nat, h: nat, v0: nat, v1: nat, v2: nat, v3: nat)
    requires v0 < 64 && v1 < 64 && v2 < 64 && v3 < 64 && Grouped(x, y, h, v0, v1, v2, v3)
    ensures SixDigits(x, h, 0) == v0 && SixDigits(y, h, 1) == v1 && SixDigits(x, h, 2) == v2 && SixDigits(y, h, 3) == v3
  {
    FourDigits(v0 / 16, v1 / 16, v2 / 16, v3 / 16);
    Digits(x, v0 % 16, v2 % 16);
    Digits(y, v1 % 16, v3 % 16);
  }

  lemma SixUngroup(x: nat, y: nat, h: nat)
    requires x < 256 && y < 256 && h < 256
    ensures Grouped(x, y, h, SixDigits(x, h, 0), SixDigits(y, h, 1), SixDigits(x, h, 2), SixDigits(y, h, 3))
  {
    Digits(SixDigits(x, h, 0), x % 16, h % 4);
    Digits(SixDigits(y, h, 1), y % 16, h / 4 % 4);
    Digits(SixDigits(x, h, 2), x / 16, h / 16 % 4);
    Digits(SixDigits(y, h, 3), y / 16, h / 64 % 4);
    Base4(h);
  }

  lemma Base4(h: nat)
    requires h < 256
    ensures h == h % 4 + 4 * (h / 4 % 4) + 16 * (h / 16 % 4) + 64 * (h / 64 % 4)
  {
  }

  lemma FourDigits(a: nat, b: nat, c: nat, d: nat)
    requires a < 4 && b < 4 && c < 4 && d < 4
    ensures var x := a + 4 * b + 16 * c + 64 * d; x % 4 == a && x / 4 % 4 == b && x / 16 % 4 == c && x / 64 % 4 == d
  {
  }

  /** A super-block packed from values decodes element `e` to its value less 32, times the signed scale of its 16. */
  lemma Q6KPacking(f: Floats, values: seq<nat>, b: Block, e: nat, scale: int)
    requires |b| == 210 && Packs6K(values, b) && e < 256
    requires -128 <= scale < 128 && (scale - b[192 + e / 16] as int) % 256 == 0
    ensures Q6KAt(f, b, e) == Times(Times(f.f16(b[208], b[209]), scale as real), (values[e] as int - 32) as real)
  {
    hide Packs6K, Q6KAt, Times;
    Quarters(e);
    assert |values| == 256 by {
      SameLength6K(values, values, b);
    }
    Q6KPackingAt(f, values, b, e / 128, e % 128 / 32, e % 32, scale);
  }

  lemma Q6KPackingAt(f: Floats, values: seq<nat>, b: Block, n: nat, quarter: nat, l: nat, scale: int)
    requires |b| == 210 && Packs6K(values, b) && n < 2 && quarter < 4 && l < 32 && |values| == 256
    requires -128 <= scale < 128 && (scale - b[192 + 8 * n + l / 16 + 2 * quarter] as int) % 256 == 0
    ensures Q6KAt(f, b, 128 * n + l + 32 * quarter) ==
            Times(Times(f.f16(b[208], b[209]), scale as real), (values[128 * n + l + 32 * quarter] as int - 32) as real)
  {
    hide Six, Signed, Packs6K, Q6KAt, Weighed, Times;
    Q6KQuarter(f, b, n, l, quarter);
    SixUnpack(values, b, n, l, quarter);
    SignedIs(b[192 + 8 * n + l / 16 + 2 * quarter], scale);
    WeighedIs(f.f16(b[208], b[209]), scale, values[128 * n + l + 32 * quarter] as int - 32);
  }

  lemma WeighedIs(d: real, scale: int, q: int)
    ensures Weighed(d, scale, q) == Times(Times(d, scale as real), q as real)
  {
  }

  lemma Quarters(e: nat)
    ensures e == 128 * (e / 128) + e % 32 + 32 * (e % 128 / 32) && e % 128 / 32 < 4
    ensures e / 16 == 8 * (e / 128) + e % 32 / 16 + 2 * (e % 128 / 32)
  {
    var x, l := e / 32, e % 32;
    assert e == 32 * x + l && e / 128 == x / 4 && e % 128 == 32 * (x % 4) + l && e / 16 == 2 * x + l / 16;
  }

  /** Every super-block is packed from 256 values, ... */
  lemma Unpack6K(b: Block) returns (values: seq<nat>)
    requires |b| == 210
    ensures Packs6K(values, b)
  {
    hide SixDigits, Grouped;
    values := seq(256, e requires 0 <= e < 256 => Value6K(b, e));
    forall e | 0 <= e < 256 ensures values[e] < 64 {
      SmallSix(b, e);
    }
    forall n: nat, l: nat | n < 2 && l < 32 ensures PackedSix(values, b, n, l) {
      SplitSix(b, n, l);
      hide Value6K;
    }
  }

  function Value6K(b: Block, e: nat): nat
    requires |b| == 210 && e < 256
  {
    var n, quarter, l := e / 128, e % 128 / 32, e % 32;
    SixDigits(b[64 * n + l + 32 * (quarter % 2)] as int, b[128 + 32 * n + l] as int, quarter)
  }

  lemma SmallSix(b: Block, e: nat)
    requires |b| == 210 && e < 256
    ensures Value6K(b, e) < 64
  {
  }

  lemma ValueAt(b: Block, n: nat, l: nat, quarter: nat)
    requires |b| == 210 && n < 2 && l < 32 && quarter < 4
    ensures Value6K(b, 128 * n + l + 32 * quarter) ==
            SixDigits(b[64 * n + l + 32 * (quarter % 2)] as int, b[128 + 32 * n + l] as int, quarter)
  {
    hide SixDigits;
    var e := 128 * n + l + 32 * quarter;
    assert e / 128 == n && e % 128 / 32 == quarter && e % 32 == l;
  }

  lemma SplitSix(b: Block, n: nat, l: nat)
    requires |b| == 210 && n < 2 && l < 32
    ensures Grouped(b[64 * n + l] as int, b[64 * n + l + 32] as int, b[128 + 32 * n + l] as int,
              Value6K(b, 128 * n + l), Value6K(b, 128 * n + l + 32), Value6K(b, 128 * n + l + 64),
              Value6K(b, 128 * n + l + 96))
  {
    hide SixDigits, Grouped, Value6K;
    ValueAt(b, n, l, 0);
    ValueAt(b, n, l, 1);
    ValueAt(b, n, l, 2);
    ValueAt(b, n, l, 3);
    SixUngroup(b[64 * n + l] as int, b[64 * n + l + 32] as int, b[128 + 32 * n + l] as int);
  }

  /** ... and from one choice of them only. */
  lemma Unpack6KUnique(b: Block, values: seq<nat>, values': seq<nat>)
    requires |b| == 210 && Packs6K(values, b) && Packs6K(values', b)
    ensures values == values'
  {
    hide Six, Packs6K;
    SameLength6K(values, values', b);
    forall e | 0 <= e < 256 ensures values[e] == values'[e] {
      SixUnpack(values, b, e / 128, e % 32, e % 128 / 32);
      SixUnpack(values', b, e / 128, e % 32, e % 128 / 32);
    }
  }

  lemma SameLength6K(values: seq<nat>, values': seq<nat>, b: Block)
    requires |b| == 210 && Packs6K(values, b) && Packs6K(values', b)
    ensures |values| == 256 == |values'|
  {
  }

  // ---------------------------------------------------------------------
  // Types
  // ---------------------------------------------------------------------

  /** A row is read as the type the whole tensor is read as, for every type `dequantize` takes. */
  lemma RowTypeIsOwn(dtype: nat)
    requires RawLen(dtype, 0).Some?
    ensures RowType(dtype) == Some(dtype)
  {
  }

  /** What the first element, or the first block, of each type is. RowIsSlice carries this to every other. */
  lemma FirstElements(f: Floats, src: seq<Byte>, e: nat)
    ensures |src| == 4 ==> TensorAt(f, 0, src, 0) == f.f32(src[0], src[1], src[2], src[3])
    ensures |src| == 2 ==> TensorAt(f, 1, src, 0) == f.f16(src[0], src[1])
    ensures |src| == 18 && e < 32 ==> TensorAt(f, 2, src, e) == Q40At(f, src, e)
    ensures |src| == 34 && e < 32 ==> TensorAt(f, 8, src, e) == Q80At(f, src, e)
    ensures |src| == 144 && e < 256 ==> TensorAt(f, 12, src, e) == Q4KAt(f, src, e) == TensorAt(f, 13, src, e)
    ensures |src| == 210 && e < 256 ==> TensorAt(f, 14, src, e) == Q6KAt(f, src, e)
  {
    hide Q40At, Q80At, Q4KAt, Q6KAt;
    assert src[0..|src|] == src;
  }
}
