/**
  The two block encoders (src/quant.rs:201-264). `store` is how a scale is written as an
  f16; the codes are chosen against the scale that reads back, as the source does.
*/
module QuantEncode {
  import opened Prelude
  import opened Quant

  function Abs(x: real): real {
    if x >= 0.0 then x else -x
  }

  /** To the nearest integer, halves away from zero. */
  function Round(x: real): int {
    if x >= 0.0 then (x + 0.5).Floor else -((-x + 0.5).Floor)
  }

  function Clamp(v: int, lo: int, hi: int): int {
    if v < lo then lo else if v > hi then hi else v
  }

  /** The code of `x` at scale `d`. A zero scale gives an infinity or a NaN, which `as i32` saturates or zeroes. */
  function Code(x: real, d: real, lo: int, hi: int): (q: int)
    requires lo <= 0 <= hi
    ensures lo <= q <= hi
  {
    if d != 0.0 then Clamp(Round(x / d), lo, hi)
    else if x > 0.0 then hi else if x < 0.0 then lo else 0
  }

  /** What a code decodes to. */
  function Level(q: int, d: real): real {
    q as real * d
  }

  function Err(q: int, d: real, x: real): real {
    Abs(Level(q, d) - x)
  }

  // ---------------------------------------------------------------------
  // Choosing a code
  // ---------------------------------------------------------------------

  lemma RoundNear(y: real)
    ensures Abs(Round(y) as real - y) <= 0.5
  {
  }

  /** No code of the range is nearer to `y` than the clamped one. */
  lemma ClampBest(y: real, lo: int, hi: int, p: int)
    requires lo <= p <= hi
    ensures Abs(Clamp(Round(y), lo, hi) as real - y) <= Abs(p as real - y)
  {
    hide Round;
    RoundNear(y);
    var r := Round(y);
    var below, at, above := r as real - 0.5, r as real, r as real + 0.5;
    assert below <= y <= above;
    if r > hi {
      assert p as real <= hi as real <= below;
    } else if r < lo {
      assert above <= lo as real <= p as real;
    } else if p < r {
      assert p as real <= at - 1.0;
    } else if p > r {
      assert p as real >= at + 1.0;
    }
  }

  lemma ClampWithin(y: real, lo: int, hi: int)
    requires lo <= hi
    ensures Abs(Clamp(Round(y), lo, hi) as real - y) <= 0.5 <==> lo as real - 0.5 <= y <= hi as real + 0.5
  {
    hide Round;
    RoundNear(y);
  }

  lemma Scaled(q: int, x: real, d: real)
    requires d > 0.0
    ensures Err(q, d, x) == Abs(q as real - x / d) * d
  {
    var y := x / d;
    assert x == y * d;
    assert q as real * d - x == (q as real - y) * d;
    if q as real - y >= 0.0 {
      Product(q as real - y, d);
    } else {
      Product(y - q as real, d);
    }
  }

  lemma Product(a: real, d: real)
    requires a >= 0.0 && d > 0.0
    ensures a * d >= 0.0 && (-a) * d == -(a * d)
  {
  }

  lemma Compare(a: real, b: real, d: real)
    requires d > 0.0
    ensures a * d <= b * d <==> a <= b
  {
  }

  lemma NearerScaled(y: real, x: real, d: real, q: int, p: int)
    requires d > 0.0 && y == x / d && Abs(q as real - y) <= Abs(p as real - y)
    ensures Err(q, d, x) <= Err(p, d, x)
  {
    hide Abs, Err;
    Scaled(q, x, d);
    Scaled(p, x, d);
    Compare(Abs(q as real - y), Abs(p as real - y), d);
  }

  /** The chosen code decodes at least as near to `x` as any other code does. */
  lemma CodeBest(x: real, d: real, lo: int, hi: int, p: int)
    requires lo <= 0 <= hi && lo <= p <= hi && d >= 0.0
    ensures Err(Code(x, d, lo, hi), d, x) <= Err(p, d, x)
  {
    hide Round, Clamp;
    var q := Code(x, d, lo, hi);
    if d == 0.0 {
      assert Level(q, d) == 0.0 == Level(p, d);
    } else {
      ClampBest(x / d, lo, hi, p);
      NearerScaled(x / d, x, d, q, p);
    }
  }

  lemma WithinScaled(y: real, x: real, d: real, q: int, lo: real, hi: real)
    requires d > 0.0 && y == x / d && (Abs(q as real - y) <= 0.5 <==> lo <= y <= hi)
    ensures Err(q, d, x) <= 0.5 * d <==> lo * d <= x <= hi * d
  {
    hide Abs, Err;
    Scaled(q, x, d);
    Compare(Abs(q as real - y), 0.5, d);
    Compare(lo, y, d);
    Compare(y, hi, d);
    assert y * d == x;
  }

  /** Half a step is kept exactly for the values the range reaches. */
  lemma CodeWithinHalf(x: real, d: real, lo: int, hi: int)
    requires lo <= 0 <= hi && d >= 0.0
    ensures Err(Code(x, d, lo, hi), d, x) <= 0.5 * d <==>
      (lo as real - 0.5) * d <= x <= (hi as real + 0.5) * d
  {
    hide Round, Clamp;
    var q := Code(x, d, lo, hi);
    if d == 0.0 {
      assert Level(q, d) == 0.0;
    } else {
      ClampWithin(x / d, lo, hi);
      WithinScaled(x / d, x, d, q, lo as real - 0.5, hi as real + 0.5);
    }
  }

  /** A decoded code is given the same code again, if it is in the range. */
  lemma CodeAgain(q: int, d: real, lo: int, hi: int)
    requires lo <= 0 <= hi && d != 0.0
    ensures Code(Level(q, d), d, lo, hi) == Clamp(q, lo, hi)
  {
    assert q as real * d / d == q as real;
    assert Round(q as real) == q;
  }

  // ---------------------------------------------------------------------
  // Packing
  // ---------------------------------------------------------------------

  function Nibbles(lo: int, hi: int): Byte
    requires -8 <= lo < 8 && -8 <= hi < 8
  {
    ((lo + 8) as Byte) | (((hi + 8) as Byte) << 4)
  }

  lemma NibblesHold(lo: int, hi: int)
    requires -8 <= lo < 8 && -8 <= hi < 8
    ensures Low(Nibbles(lo, hi)) - 8 == lo && High(Nibbles(lo, hi)) - 8 == hi
  {
    var x, y := (lo + 8) as Byte, (hi + 8) as Byte;
    assert x < 16 && y < 16;
    assert (x | (y << 4)) & 0x0F == x;
    assert (x | (y << 4)) >> 4 == y;
  }

  lemma RawNibbles(b: Byte)
    ensures b & 0x0F < 16 && b >> 4 < 16 && (b & 0x0F) | ((b >> 4) << 4) == b
  {
  }

  lemma SmallByte(x: Byte)
    requires x < 16
    ensures 0 <= x as int < 16 && (x as int) as Byte == x
  {
  }

  lemma NibblesOnto(b: Byte)
    ensures 0 <= Low(b) < 16 && 0 <= High(b) < 16 && Nibbles(Low(b) - 8, High(b) - 8) == b
  {
    RawNibbles(b);
    SmallByte(b & 0x0F);
    SmallByte(b >> 4);
  }

  function Unsigned(q: int): Byte
    requires -128 <= q < 128
  {
    (if q < 0 then q + 256 else q) as Byte
  }

  lemma UnsignedHolds(q: int)
    requires -128 <= q < 128
    ensures Signed(Unsigned(q)) == q
  {
    ByteOf(if q < 0 then q + 256 else q);
  }

  lemma ByteOf(n: nat)
    requires n < 256
    ensures (n as Byte) as int == n && (n as Byte < 128 <==> n < 128)
  {
  }

  lemma UnsignedOnto(b: Byte)
    ensures -128 <= Signed(b) < 128 && Unsigned(Signed(b)) == b
    ensures Signed(b) == -128 <==> b == 0x80
  {
  }

  type Scale = (Byte, Byte)

  function PackQ40(bits: Scale, codes: seq<int>): (b: Block)
    requires |codes| == 32 && forall e :: 0 <= e < 32 ==> -8 <= codes[e] < 8
    ensures |b| == 18
  {
    [bits.0, bits.1] + seq(16, i requires 0 <= i < 16 => Nibbles(codes[i], codes[16 + i]))
  }

  function PackQ80(bits: Scale, codes: seq<int>): (b: Block)
    requires |codes| == 32 && forall e :: 0 <= e < 32 ==> -128 <= codes[e] < 128
    ensures |b| == 34
  {
    [bits.0, bits.1] + seq(32, i requires 0 <= i < 32 => Unsigned(codes[i]))
  }

  /** The code of every element. */
  function Codes(xs: seq<real>, d: real, lo: int, hi: int): (codes: seq<int>)
    requires lo <= 0 <= hi
    ensures |codes| == |xs| && forall e :: 0 <= e < |xs| ==> lo <= codes[e] <= hi && codes[e] == Code(xs[e], d, lo, hi)
  {
    seq(|xs|, e requires 0 <= e < |xs| => Code(xs[e], d, lo, hi))
  }

  function MaxAbs(xs: seq<real>): real {
    if xs == [] then 0.0
    else
      var m := MaxAbs(xs[..|xs| - 1]);
      if Abs(xs[|xs| - 1]) > m then Abs(xs[|xs| - 1]) else m
  }

  lemma {:induction false} MaxAbsIs(xs: seq<real>)
    ensures MaxAbs(xs) >= 0.0
    ensures forall e :: 0 <= e < |xs| ==> Abs(xs[e]) <= MaxAbs(xs)
    ensures MaxAbs(xs) == 0.0 || exists e :: 0 <= e < |xs| && Abs(xs[e]) == MaxAbs(xs)
  {
    if xs != [] {
      var front := xs[..|xs| - 1];
      MaxAbsIs(front);
      if MaxAbs(xs) == MaxAbs(front) && MaxAbs(front) != 0.0 {
        var e :| 0 <= e < |front| && Abs(front[e]) == MaxAbs(front);
        assert Abs(xs[e]) == MaxAbs(xs);
      }
    }
  }

  /** The Q4_0 block of 32 values: the greatest magnitude lands near code 7. */
  function EncodeQ40(f: Floats, store: real -> Scale, xs: seq<real>): (b: Block)
    requires |xs| == 32
  {
    var bits := store(MaxAbs(xs) / 7.0);
    PackQ40(bits, Codes(xs, f.f16(bits.0, bits.1), -8, 7))
  }

  /** The Q8_0 block of 32 values: the greatest magnitude lands near code 127. */
  function EncodeQ80(f: Floats, store: real -> Scale, xs: seq<real>): (b: Block)
    requires |xs| == 32
  {
    var bits := store(MaxAbs(xs) / 127.0);
    PackQ80(bits, Codes(xs, f.f16(bits.0, bits.1), -127, 127))
  }

  lemma UnpackQ40(f: Floats, bits: Scale, codes: seq<int>, e: nat)
    requires |codes| == 32 && (forall k :: 0 <= k < 32 ==> -8 <= codes[k] < 8) && e < 32
    ensures Q40At(f, PackQ40(bits, codes), e) == Level(codes[e], f.f16(bits.0, bits.1))
  {
    hide Low, High, Nibbles;
    var i := if e < 16 then e else e - 16;
    NibblesHold(codes[i], codes[16 + i]);
    assert PackQ40(bits, codes)[2 + i] == Nibbles(codes[i], codes[16 + i]);
  }

  lemma UnpackQ80(f: Floats, bits: Scale, codes: seq<int>, e: nat)
    requires |codes| == 32 && (forall k :: 0 <= k < 32 ==> -128 <= codes[k] < 128) && e < 32
    ensures Q80At(f, PackQ80(bits, codes), e) == Level(codes[e], f.f16(bits.0, bits.1))
  {
    hide Signed, Unsigned;
    UnsignedHolds(codes[e]);
    assert PackQ80(bits, codes)[2 + e] == Unsigned(codes[e]);
  }

  // ---------------------------------------------------------------------
  // What an encoded block decodes to
  // ---------------------------------------------------------------------

  lemma Q40Decodes(f: Floats, store: real -> Scale, xs: seq<real>, e: nat)
    requires |xs| == 32 && e < 32
    ensures var bits := store(MaxAbs(xs) / 7.0); var d := f.f16(bits.0, bits.1);
            Q40At(f, EncodeQ40(f, store, xs), e) == Level(Code(xs[e], d, -8, 7), d)
  {
    hide Q40At, PackQ40, Code, MaxAbs;
    var bits := store(MaxAbs(xs) / 7.0);
    UnpackQ40(f, bits, Codes(xs, f.f16(bits.0, bits.1), -8, 7), e);
  }

  lemma Q80Decodes(f: Floats, store: real -> Scale, xs: seq<real>, e: nat)
    requires |xs| == 32 && e < 32
    ensures var bits := store(MaxAbs(xs) / 127.0); var d := f.f16(bits.0, bits.1);
            Q80At(f, EncodeQ80(f, store, xs), e) == Level(Code(xs[e], d, -127, 127), d)
  {
    hide Q80At, PackQ80, Code, MaxAbs;
    var bits := store(MaxAbs(xs) / 127.0);
    UnpackQ80(f, bits, Codes(xs, f.f16(bits.0, bits.1), -127, 127), e);
  }

  lemma Stored40(f: Floats, b: Block, e: nat) returns (q: int)
    requires |b| == 18 && e < 32
    ensures -8 <= q <= 7 && Q40At(f, b, e) == Level(q, f.f16(b[0], b[1]))
  {
    hide Low, High, Nibbles;
    NibblesOnto(b[2 + (if e < 16 then e else e - 16)]);
    q := if e < 16 then Low(b[2 + e]) - 8 else High(b[2 + e - 16]) - 8;
  }

  lemma Stored80(f: Floats, b: Block, e: nat) returns (q: int)
    requires |b| == 34 && e < 32 && b[2 + e] != 0x80
    ensures -127 <= q <= 127 && Q80At(f, b, e) == Level(q, f.f16(b[0], b[1]))
  {
    hide Signed;
    UnsignedOnto(b[2 + e]);
    q := Signed(b[2 + e]);
  }

  /**
    Against the scale `d` that was stored: no block with that scale decodes nearer to the
    input at any element, and the error is at most `d / 2` exactly where the input is
    between -8.5 d and 7.5 d. The source states the bound without the condition; a stored
    scale that underflows breaks it.
  */
  lemma Q40Error(f: Floats, store: real -> Scale, xs: seq<real>, e: nat, other: Block)
    requires |xs| == 32 && e < 32 && |other| == 18
    requires var bits := store(MaxAbs(xs) / 7.0);
             f.f16(bits.0, bits.1) >= 0.0 && other[0] == bits.0 && other[1] == bits.1
    ensures var d := f.f16(other[0], other[1]);
            var y := Q40At(f, EncodeQ40(f, store, xs), e);
            && Abs(y - xs[e]) <= Abs(Q40At(f, other, e) - xs[e])
            && (Abs(y - xs[e]) <= 0.5 * d <==> -8.5 * d <= xs[e] <= 7.5 * d)
  {
    hide Code, Abs, Level, EncodeQ40, MaxAbs, Q40At;
    var d := f.f16(other[0], other[1]);
    Q40Decodes(f, store, xs, e);
    var p := Stored40(f, other, e);
    CodeBest(xs[e], d, -8, 7, p);
    CodeWithinHalf(xs[e], d, -8, 7);
  }

  /** The same for Q8_0, whose codes stop at -127: nearest among blocks without the byte 0x80. */
  lemma Q80Error(f: Floats, store: real -> Scale, xs: seq<real>, e: nat, other: Block)
    requires |xs| == 32 && e < 32 && |other| == 34
    requires var bits := store(MaxAbs(xs) / 127.0);
             f.f16(bits.0, bits.1) >= 0.0 && other[0] == bits.0 && other[1] == bits.1
    ensures var d := f.f16(other[0], other[1]);
            var y := Q80At(f, EncodeQ80(f, store, xs), e);
            && (other[2 + e] != 0x80 ==> Abs(y - xs[e]) <= Abs(Q80At(f, other, e) - xs[e]))
            && (Abs(y - xs[e]) <= 0.5 * d <==> -127.5 * d <= xs[e] <= 127.5 * d)
  {
    hide Code, Abs, Level, EncodeQ80, MaxAbs, Q80At;
    var d := f.f16(other[0], other[1]);
    Q80Decodes(f, store, xs, e);
    if other[2 + e] != 0x80 {
      var p := Stored80(f, other, e);
      CodeBest(xs[e], d, -127, 127, p);
    }
    CodeWithinHalf(xs[e], d, -127, 127);
  }

  /**
    Values this small are stored with scale zero, and every one of them decodes to zero: off by more
    than half a step.
  */
  lemma Q40Underflow(f: Floats, store: real -> Scale, e: nat) returns (xs: seq<real>)
    requires var bits := store(0.000000001 / 7.0); f.f16(bits.0, bits.1) == 0.0
    requires e < 32
    ensures |xs| == 32 && MaxAbs(xs) == 0.000000001
    ensures var bits := store(MaxAbs(xs) / 7.0); var d := f.f16(bits.0, bits.1);
            Abs(Q40At(f, EncodeQ40(f, store, xs), e) - xs[e]) > 0.5 * d
  {
    hide Q40At, EncodeQ40, Code, Level;
    xs := seq(32, _ => 0.000000001);
    MaxOfSame(xs, 0.000000001);
    Q40Decodes(f, store, xs, e);
    NothingLeft(Code(xs[e], 0.0, -8, 7));
  }

  /** The same for Q8_0. */
  lemma Q80Underflow(f: Floats, store: real -> Scale, e: nat) returns (xs: seq<real>)
    requires var bits := store(0.000000001 / 127.0); f.f16(bits.0, bits.1) == 0.0
    requires e < 32
    ensures |xs| == 32 && MaxAbs(xs) == 0.000000001
    ensures var bits := store(MaxAbs(xs) / 127.0); var d := f.f16(bits.0, bits.1);
            Abs(Q80At(f, EncodeQ80(f, store, xs), e) - xs[e]) > 0.5 * d
  {
    hide Q80At, EncodeQ80, Code, Level;
    xs := seq(32, _ => 0.000000001);
    MaxOfSame(xs, 0.000000001);
    Q80Decodes(f, store, xs, e);
    NothingLeft(Code(xs[e], 0.0, -127, 127));
  }

  lemma NothingLeft(q: int)
    ensures Level(q, 0.0) == 0.0
  {
  }

  lemma MaxOfSame(xs: seq<real>, x: real)
    requires xs != [] && x > 0.0 && forall e :: 0 <= e < |xs| ==> xs[e] == x
    ensures MaxAbs(xs) == x
  {
    MaxAbsIs(xs);
    assert Abs(xs[0]) == x;
  }

  /** A zero block decodes to exact zeros, whatever the stored scale reads as. */
  lemma ZeroBlock(f: Floats, store: real -> Scale, xs: seq<real>, e: nat)
    requires |xs| == 32 && e < 32 && forall k :: 0 <= k < 32 ==> xs[k] == 0.0
    ensures Q40At(f, EncodeQ40(f, store, xs), e) == 0.0 == Q80At(f, EncodeQ80(f, store, xs), e)
  {
    hide Q40At, Q80At, EncodeQ40, EncodeQ80, MaxAbs;
    Q40Decodes(f, store, xs, e);
    Q80Decodes(f, store, xs, e);
  }

  /** Encoding against its own scale what a Q4_0 block decodes to gives the block back, every byte of it. */
  lemma Q40Exact(f: Floats, b: Block, xs: seq<real>)
    requires |b| == 18 && f.f16(b[0], b[1]) != 0.0
    requires |xs| == 32 && forall e :: 0 <= e < 32 ==> xs[e] == Q40At(f, b, e)
    ensures PackQ40((b[0], b[1]), Codes(xs, f.f16(b[0], b[1]), -8, 7)) == b
  {
    hide Low, High, Nibbles, Code;
    var d := f.f16(b[0], b[1]);
    var codes := Codes(xs, d, -8, 7);
    var p := PackQ40((b[0], b[1]), codes);
    forall k | 2 <= k < 18 ensures p[k] == b[k] {
      var i := k - 2;
      NibblesOnto(b[2 + i]);
      CodeAgain(Low(b[2 + i]) - 8, d, -8, 7);
      CodeAgain(High(b[2 + i]) - 8, d, -8, 7);
      assert xs[i] == Q40At(f, b, i) == Level(Low(b[k]) - 8, d);
      assert xs[16 + i] == Q40At(f, b, 16 + i) == Level(High(b[k]) - 8, d);
      assert codes[i] == Low(b[k]) - 8 && codes[16 + i] == High(b[k]) - 8;
      assert p[2 + i] == Nibbles(codes[i], codes[16 + i]);
    }
    assert p == b;
  }

  /** For Q8_0 this holds exactly when no stored byte is -128, a code the encoder never writes. */
  lemma Q80Exact(f: Floats, b: Block, xs: seq<real>)
    requires |b| == 34 && f.f16(b[0], b[1]) != 0.0
    requires |xs| == 32 && forall e :: 0 <= e < 32 ==> xs[e] == Q80At(f, b, e)
    ensures PackQ80((b[0], b[1]), Codes(xs, f.f16(b[0], b[1]), -127, 127)) == b <==> forall k :: 2 <= k < 34 ==>
        b[k] != 0x80
  {
    hide Signed, Unsigned, Code;
    var d := f.f16(b[0], b[1]);
    var codes := Codes(xs, d, -127, 127);
    var p := PackQ80((b[0], b[1]), codes);
    forall k | 2 <= k < 34 ensures p[k] == b[k] <==> b[k] != 0x80 {
      var e := k - 2;
      UnsignedOnto(b[2 + e]);
      CodeAgain(Signed(b[k]), d, -127, 127);
      assert xs[e] == Q80At(f, b, e) == Level(Signed(b[k]), d);
      assert codes[e] == Clamp(Signed(b[k]), -127, 127);
      assert p[2 + e] == Unsigned(codes[e]);
      UnsignedHolds(codes[e]);
    }
    if forall k :: 2 <= k < 34 ==> b[k] != 0x80 {
      assert p == b;
    }
  }

  // ---------------------------------------------------------------------
  // The encoders
  // ---------------------------------------------------------------------

  /** The greatest magnitude, as both encoders look for it. */
  method FindMax(src: seq<real>) returns (amax: real)
    ensures amax == MaxAbs(src)
    ensures amax == 0.0 ==> forall e :: 0 <= e < |src| ==> src[e] == 0.0
  {
    amax := 0.0;
    for i := 0 to |src|
      invariant amax == MaxAbs(src[..i])
    {
      assert src[..i + 1][..i] == src[..i];
      if Abs(src[i]) > amax {
        amax := Abs(src[i]);
      }
    }
    assert src[..|src|] == src;
    MaxAbsIs(src);
  }

  /** `quantize_q4_0`: refuses anything but 32 values and 18 bytes of room. */
  method QuantizeQ40(f: Floats, store: real -> Scale, src: seq<real>, dst: array<Byte>) returns (ok: bool)
    modifies dst
    ensures ok <==> |src| == 32 && dst.Length >= 18
    ensures !ok ==> dst[..] == old(dst[..])
    ensures ok ==> dst[..18] == EncodeQ40(f, store, src) && dst[18..] == old(dst[18..])
  {
    hide Code, MaxAbs, Nibbles;
    if |src| != 32 || dst.Length < 18 {
      return false;
    }
    var amax := FindMax(src);
    var bits := store(if amax == 0.0 then 0.0 else amax / 7.0);
    var d := f.f16(bits.0, bits.1);
    ghost var want := EncodeQ40(f, store, src);
    dst[0], dst[1] := bits.0, bits.1;
    if amax == 0.0 {
      for i := 2 to 18
        invariant dst[0] == bits.0 && dst[1] == bits.1 && dst[18..] == old(dst[18..])
        invariant forall k :: 2 <= k < i ==> dst[k] == want[k]
      {
        ZeroCode(d, -8, 7);
        ZeroNibbles();
        dst[i] := 0x88;
      }
    } else {
      for i := 0 to 16
        invariant dst[0] == bits.0 && dst[1] == bits.1 && dst[18..] == old(dst[18..])
        invariant forall k :: 2 <= k < 2 + i ==> dst[k] == want[k]
      {
        var ql, qh := Code(src[i], d, -8, 7), Code(src[i + 16], d, -8, 7);
        dst[2 + i] := Nibbles(ql, qh);
      }
    }
    assert dst[..18] == want;
    ok := true;
  }

  /** `quantize_q8_0`. */
  method QuantizeQ80(f: Floats, store: real -> Scale, src: seq<real>, dst: array<Byte>) returns (ok: bool)
    modifies dst
    ensures ok <==> |src| == 32 && dst.Length >= 34
    ensures !ok ==> dst[..] == old(dst[..])
    ensures ok ==> dst[..34] == EncodeQ80(f, store, src) && dst[34..] == old(dst[34..])
  {
    hide Code, MaxAbs;
    if |src| != 32 || dst.Length < 34 {
      return false;
    }
    var amax := FindMax(src);
    var bits := store(if amax == 0.0 then 0.0 else amax / 127.0);
    var d := f.f16(bits.0, bits.1);
    ghost var want := EncodeQ80(f, store, src);
    dst[0], dst[1] := bits.0, bits.1;
    if amax == 0.0 {
      for i := 2 to 34
        invariant dst[0] == bits.0 && dst[1] == bits.1 && dst[34..] == old(dst[34..])
        invariant forall k :: 2 <= k < i ==> dst[k] == want[k]
      {
        ZeroCode(d, -127, 127);
        dst[i] := 0;
      }
    } else {
      for i := 0 to 32
        invariant dst[0] == bits.0 && dst[1] == bits.1 && dst[34..] == old(dst[34..])
        invariant forall k :: 2 <= k < 2 + i ==> dst[k] == want[k]
      {
        dst[2 + i] := Unsigned(Code(src[i], d, -127, 127));
      }
    }
    assert dst[..34] == want;
    ok := true;
  }

  lemma ZeroCode(d: real, lo: int, hi: int)
    requires lo <= 0 <= hi
    ensures Code(0.0, d, lo, hi) == 0
  {
  }

  lemma ZeroNibbles()
    ensures Nibbles(0, 0) == 0x88
  {
  }

  // ---------------------------------------------------------------------
  // Rounding
  // ---------------------------------------------------------------------

  /** The nearest integer; of two equally near the one further from zero. */
  lemma RoundIs(y: real, n: int)
    ensures n as real - 0.5 < y < n as real + 0.5 ==> Round(y) == n
    ensures n >= 0 && y == n as real + 0.5 ==> Round(y) == n + 1
    ensures n <= 0 && y == n as real - 0.5 ==> Round(y) == n - 1
  {
  }
}
