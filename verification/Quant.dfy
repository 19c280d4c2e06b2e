/**
  The block codecs (src/quant.rs) and the row slice of an embedding matrix
  (src/inference.rs:899-944). Floats are reals; how the bits of an f16 or f32 read
  as a number is a parameter.
*/
module Quant {
  import opened Prelude
  import opened Arith

  /** How stored scales and plain floats read. */
  datatype Floats = Floats(f16: (Byte, Byte) -> real, f32: (Byte, Byte, Byte, Byte) -> real)

  /** A byte taken as `i8`. */
  function Signed(b: Byte): int {
    if b < 128 then b as int else b as int - 256
  }

  function Low(b: Byte): int {
    (b & 0x0F) as int
  }

  function High(b: Byte): int {
    (b >> 4) as int
  }

  // ---------------------------------------------------------------------
  // What element `e` of one block is
  // ---------------------------------------------------------------------

  type Block = seq<Byte>

  function Q40At(f: Floats, b: Block, e: nat): real
    requires |b| == 18 && e < 32
  {
    (if e < 16 then Low(b[2 + e]) - 8 else High(b[2 + e - 16]) - 8) as real * f.f16(b[0], b[1])
  }

  function Q80At(f: Floats, b: Block, e: nat): real
    requires |b| == 34 && e < 32
  {
    Signed(b[2 + e]) as real * f.f16(b[0], b[1])
  }

  /** `get_scale_min_k4`: the 6-bit scale and minimum of sub-block `j`, from 12 packed bytes. */
  function ScaleMin(j: nat, q: seq<Byte>): (Byte, Byte)
    requires j < 8 && |q| == 12
  {
    if j < 4 then (q[j] & 63, q[j + 4] & 63)
    else ((q[j + 4] & 0x0F) | ((q[j - 4] >> 6) << 4), (q[j + 4] >> 4) | ((q[j] >> 6) << 4))
  }

  function TimesByte(d: real, k: Byte): real {
    d * (k as int as real)
  }

  function Affine(scale: real, q: int, min: real): real {
    scale * (q as real) - min
  }

  /** The scale sub-block `j` of a Q4_K super-block is decoded with. */
  function SubScale(f: Floats, b: Block, j: nat): real
    requires |b| == 144 && j < 8
  {
    TimesByte(f.f16(b[0], b[1]), ScaleMin(j, b[4..16]).0)
  }

  /** And what is taken off every element of it. */
  function SubMin(f: Floats, b: Block, j: nat): real
    requires |b| == 144 && j < 8
  {
    TimesByte(f.f16(b[2], b[3]), ScaleMin(j, b[4..16]).1)
  }

  /** Element `e` of a Q4_K super-block: sub-block `e / 32`, two of them sharing each run of 32 bytes. */
  function Q4KAt(f: Floats, b: Block, e: nat): real
    requires |b| == 144 && e < 256
  {
    var packed := b[16 + 32 * (e / 64) + e % 32];
    Affine(SubScale(f, b, e / 32), if e % 64 < 32 then Low(packed) else High(packed), SubMin(f, b, e / 32))
  }

  /** The 6-bit value of quarter `quarter`: 4 bits from one byte, 2 from another, taken around 32. */
  function Six(ql: Byte, qh: Byte, quarter: nat): int
    requires quarter < 4
  {
    var lo := if quarter < 2 then ql & 0x0F else ql >> 4;
    var hi := (match quarter case 0 => qh case 1 => qh >> 2 case 2 => qh >> 4 case _ => qh >> 6) & 3;
    Signed(lo | (hi << 4)) - 32
  }

  function Weighed(d: real, scale: int, q: int): real {
    d * (scale as real) * (q as real)
  }

  /** Element `e` of a Q6_K super-block: low bits in one array, high bits in another, a signed scale per 16. */
  function Q6KAt(f: Floats, b: Block, e: nat): real
    requires |b| == 210 && e < 256
  {
    var half, quarter, l := e / 128, e % 128 / 32, e % 32;
    var q := Six(b[64 * half + l + 32 * (quarter % 2)], b[128 + 32 * half + l], quarter);
    var scale := Signed(b[192 + 8 * half + l / 16 + 2 * quarter]);
    Weighed(f.f16(b[208], b[209]), scale, q)
  }

  // ---------------------------------------------------------------------
  // Formats
  // ---------------------------------------------------------------------

  /** Elements and bytes per block of the quantised types, by their GGUF number. */
  function BlockShape(dtype: nat): Option<(nat, nat)> {
    if dtype == 2 then Some((32, 18))
    else if dtype == 8 then Some((32, 34))
    else if dtype == 12 || dtype == 13 then Some((256, 144))
    else if dtype == 14 then Some((256, 210))
    else None
  }

  function ElemAt(f: Floats, dtype: nat, b: Block, e: nat): real
    requires BlockShape(dtype).Some? && |b| == BlockShape(dtype).value.1 && e < BlockShape(dtype).value.0
  {
    if dtype == 2 then Q40At(f, b, e)
    else if dtype == 8 then Q80At(f, b, e)
    else if dtype == 14 then Q6KAt(f, b, e)
    else Q4KAt(f, b, e)
  }

  /** Bytes per element of the two plain types; None for anything `dequantize` reads in blocks or not at all. */
  function PlainWidth(dtype: nat): Option<nat> {
    if dtype == 0 then Some(4) else if dtype == 1 then Some(2) else None
  }

  /** What `n` elements occupy: None when the type is unknown or `n` is not a whole number of blocks. */
  function RawLen(dtype: nat, n: nat): Option<nat> {
    match PlainWidth(dtype)
    case Some(w) => Some(n * w)
    case None =>
      match BlockShape(dtype)
      case Some((be, bb)) => if n % be == 0 then Some(n / be * bb) else None
      case None => None
  }

  /** The bytes of block `i`. */
  function BlockOf(src: seq<Byte>, i: nat, bb: nat): Block
    requires i * bb + bb <= |src|
  {
    src[i * bb..i * bb + bb]
  }

  /** `src` holds element `k` of a tensor of this type. */
  predicate Holds(dtype: nat, src: seq<Byte>, k: nat) {
    match PlainWidth(dtype)
    case Some(w) => k * w + w <= |src|
    case None =>
      match BlockShape(dtype)
      case Some((be, bb)) => k / be * bb + bb <= |src|
      case None => false
  }

  /** Element `k` of the tensor whose bytes start `src`. */
  function TensorAt(f: Floats, dtype: nat, src: seq<Byte>, k: nat): real
    requires Holds(dtype, src, k)
  {
    if dtype == 0 then f.f32(src[4 * k], src[4 * k + 1], src[4 * k + 2], src[4 * k + 3])
    else if dtype == 1 then f.f16(src[2 * k], src[2 * k + 1])
    else
      var (be, bb) := BlockShape(dtype).value;
      ElemAt(f, dtype, BlockOf(src, k / be, bb), k % be)
  }

  /** `v` is element `k` of the tensor whose bytes start `src`. */
  predicate IsElem(f: Floats, dtype: nat, src: seq<Byte>, k: nat, v: real) {
    Holds(dtype, src, k) && v == TensorAt(f, dtype, src, k)
  }

  lemma BlockInside(k: nat, be: nat, bb: nat, n: nat)
    requires be > 0 && k < n * be
    ensures k / be < n && k / be * bb + bb <= n * bb
  {
    var q := k / be;
    MulAdd(q, 1, bb);
    if q >= n {
      MulMono(n, q, be);
    }
    MulMono(q + 1, n, bb);
  }

  /** Enough bytes for `n` elements hold every one of them. */
  lemma RawLenHolds(dtype: nat, n: nat, src: seq<Byte>, k: nat)
    requires RawLen(dtype, n).Some? && RawLen(dtype, n).value <= |src| && k < n
    ensures Holds(dtype, src, k)
  {
    if PlainWidth(dtype).Some? {
      var w := PlainWidth(dtype).value;
      MulMono(k + 1, n, w);
      MulAdd(k, 1, w);
    } else {
      var (be, bb) := BlockShape(dtype).value;
      assert n == n / be * be;
      BlockInside(k, be, bb, n / be);
    }
  }

  // ---------------------------------------------------------------------
  // The decoders
  // ---------------------------------------------------------------------

  /** `dequant_q4_0` on the block at `off`. */
  method DecodeQ40(f: Floats, src: seq<Byte>, off: nat, dst: array<real>, at: nat)
    requires off + 18 <= |src| && at + 32 <= dst.Length
    modifies dst
    ensures forall k :: at <= k < at + 32 ==> dst[k] == Q40At(f, src[off..off + 18], k - at)
    ensures forall k :: 0 <= k < dst.Length && !(at <= k < at + 32) ==> dst[k] == old(dst[k])
  {
    hide Low, High;
    ghost var blk := src[off..off + 18];
    var d := f.f16(src[off], src[off + 1]);
    for i := 0 to 16
      invariant forall k :: at <= k < at + i || at + 16 <= k < at + 16 + i ==> dst[k] == Q40At(f, blk, k - at)
      invariant forall k :: 0 <= k < dst.Length && !(at <= k < at + 32) ==> dst[k] == old(dst[k])
    {
      var qs := src[off + 2 + i];
      assert blk[2 + i] == qs;
      dst[at + i] := (Low(qs) - 8) as real * d;
      dst[at + 16 + i] := (High(qs) - 8) as real * d;
    }
  }

  /** The Q8_0 block of `dequantize`. */
  method DecodeQ80(f: Floats, src: seq<Byte>, off: nat, dst: array<real>, at: nat)
    requires off + 34 <= |src| && at + 32 <= dst.Length
    modifies dst
    ensures forall k :: at <= k < at + 32 ==> dst[k] == Q80At(f, src[off..off + 34], k - at)
    ensures forall k :: 0 <= k < dst.Length && !(at <= k < at + 32) ==> dst[k] == old(dst[k])
  {
    hide Signed;
    var d := f.f16(src[off], src[off + 1]);
    for i := 0 to 32
      invariant forall k :: at <= k < at + i ==> dst[k] == Q80At(f, src[off..off + 34], k - at)
      invariant forall k :: 0 <= k < dst.Length && !(at <= k < at + 32) ==> dst[k] == old(dst[k])
    {
      dst[at + i] := Signed(src[off + 2 + i]) as real * d;
    }
  }

  /** `dequant_q4_k` on the super-block at `off`: four passes over 32 bytes, two sub-blocks a pass. */
  method DecodeQ4K(f: Floats, src: seq<Byte>, off: nat, dst: array<real>, at: nat)
    requires off + 144 <= |src| && at + 256 <= dst.Length
    modifies dst
    ensures forall k :: at <= k < at + 256 ==> dst[k] == Q4KAt(f, src[off..off + 144], k - at)
    ensures forall k :: 0 <= k < dst.Length && !(at <= k < at + 256) ==> dst[k] == old(dst[k])
  {
    hide Low, High, ScaleMin, SubScale, SubMin, TimesByte, Q4KAt;
    ghost var blk := src[off..off + 144];
    var d, dmin := f.f16(src[off], src[off + 1]), f.f16(src[off + 2], src[off + 3]);
    var scales, qs := src[off + 4..off + 16], src[off + 16..off + 144];
    SliceOfSlice(src, off, off + 144, 4, 16);
    SliceOfSlice(src, off, off + 144, 16, 144);
    assert scales == blk[4..16] && forall i :: 0 <= i < 128 ==> qs[i] == blk[16 + i];
    var sub, qOff, yOff := 0, 0, at;
    for j := 0 to 4
      invariant sub == 2 * j && qOff == 32 * j && yOff == at + 64 * j
      invariant forall k :: at <= k < yOff ==> dst[k] == Q4KAt(f, blk, k - at)
      invariant forall k :: 0 <= k < dst.Length && !(at <= k < at + 256) ==> dst[k] == old(dst[k])
    {
      var (sc1, mn1) := ScaleMin(sub, scales);
      var d1, m1 := TimesByte(d, sc1), TimesByte(dmin, mn1);
      var (sc2, mn2) := ScaleMin(sub + 1, scales);
      var d2, m2 := TimesByte(d, sc2), TimesByte(dmin, mn2);
      SubScaleIs(f, blk, sub, d, dmin, scales);
      SubScaleIs(f, blk, sub + 1, d, dmin, scales);
      DecodePair(f, blk, j, qs[qOff..qOff + 32], d1, m1, d2, m2, dst, yOff);
      qOff, yOff, sub := qOff + 32, yOff + 64, sub + 2;
    }
  }

  /** One pass of `dequant_q4_k`: the low and the high nibbles of 32 bytes. */
  method DecodePair(f: Floats, ghost b: Block, ghost j: nat, qs: seq<Byte>, d1: real, m1: real, d2: real, m2: real,
      dst: array<real>, at: nat)
    requires |b| == 144 && j < 4 && |qs| == 32 && at + 64 <= dst.Length
    requires forall l :: 0 <= l < 32 ==> qs[l] == b[16 + 32 * j + l]
    requires d1 == SubScale(f, b, 2 * j) && m1 == SubMin(f, b, 2 * j)
    requires d2 == SubScale(f, b, 2 * j + 1) && m2 == SubMin(f, b, 2 * j + 1)
    modifies dst
    ensures forall k :: at <= k < at + 64 ==> dst[k] == Q4KAt(f, b, 64 * j + k - at)
    ensures forall k :: 0 <= k < dst.Length && !(at <= k < at + 64) ==> dst[k] == old(dst[k])
  {
    hide Low, High, ScaleMin, SubScale, SubMin, Affine, Q4KAt;
    for l := 0 to 32
      invariant forall k :: at <= k < at + l ==> dst[k] == Q4KAt(f, b, 64 * j + k - at)
      invariant forall k :: at + 32 <= k < at + 32 + l ==> dst[k] == Q4KAt(f, b, 64 * j + k - at)
      invariant forall k :: 0 <= k < dst.Length && !(at <= k < at + 64) ==> dst[k] == old(dst[k])
    {
      Q4KHere(f, b, j, l);
      dst[at + l] := Affine(d1, Low(qs[l]), m1);
      dst[at + l + 32] := Affine(d2, High(qs[l]), m2);
    }
  }

  lemma SubScaleIs(f: Floats, b: Block, j: nat, d: real, dmin: real, scales: seq<Byte>)
    requires |b| == 144 && j < 8 && scales == b[4..16] && d == f.f16(b[0], b[1]) && dmin == f.f16(b[2], b[3])
    ensures SubScale(f, b, j) == TimesByte(d, ScaleMin(j, scales).0)
    ensures SubMin(f, b, j) == TimesByte(dmin, ScaleMin(j, scales).1)
  {
    hide ScaleMin, TimesByte;
  }

  /** Where the two elements written together are looked up. */
  lemma Q4KHere(f: Floats, b: Block, j: nat, l: nat)
    requires |b| == 144 && j < 4 && l < 32
    ensures Q4KAt(f, b, 64 * j + l) ==
      Affine(SubScale(f, b, 2 * j), Low(b[16 + 32 * j + l]), SubMin(f, b, 2 * j))
    ensures Q4KAt(f, b, 64 * j + l + 32) ==
      Affine(SubScale(f, b, 2 * j + 1), High(b[16 + 32 * j + l]), SubMin(f, b, 2 * j + 1))
  {
    hide Low, High, SubScale, SubMin, Affine;
    var e := 64 * j + l;
    assert e / 32 == 2 * j && e / 64 == j && e % 32 == l && e % 64 == l;
    assert (e + 32) / 32 == 2 * j + 1 && (e + 32) / 64 == j && (e + 32) % 32 == l && (e + 32) % 64 == l + 32;
  }

  /** `dequant_q6_k` on the super-block at `off`: two halves, four elements written together. */
  method DecodeQ6K(f: Floats, src: seq<Byte>, off: nat, dst: array<real>, at: nat)
    requires off + 210 <= |src| && at + 256 <= dst.Length
    modifies dst
    ensures forall k :: at <= k < at + 256 ==> dst[k] == Q6KAt(f, src[off..off + 210], k - at)
    ensures forall k :: 0 <= k < dst.Length && !(at <= k < at + 256) ==> dst[k] == old(dst[k])
  {
    hide Q6KAt;
    ghost var blk := src[off..off + 210];
    var ql, qh, sc := src[off..off + 128], src[off + 128..off + 192], src[off + 192..off + 208];
    SliceOfSlice(src, off, off + 210, 0, 128);
    SliceOfSlice(src, off, off + 210, 128, 192);
    SliceOfSlice(src, off, off + 210, 192, 208);
    assert ql == blk[..128] && qh == blk[128..192] && sc == blk[192..208];
    var d := f.f16(src[off + 208], src[off + 209]);
    var yBase, qlOff, qhOff, scOff := at, 0, 0, 0;
    for n := 0 to 2
      invariant yBase == at + 128 * n && qlOff == 64 * n && qhOff == 32 * n && scOff == 8 * n
      invariant forall k :: at <= k < yBase ==> dst[k] == Q6KAt(f, blk, k - at)
      invariant forall k :: 0 <= k < dst.Length && !(at <= k < at + 256) ==> dst[k] == old(dst[k])
    {
      DecodeHalf(f, blk, n, ql[qlOff..qlOff + 64], qh[qhOff..qhOff + 32], sc[scOff..scOff + 8], d, dst, yBase);
      yBase, qlOff, qhOff, scOff := yBase + 128, qlOff + 64, qhOff + 32, scOff + 8;
    }
  }

  function Q6KWant(f: Floats, b: Block, n: nat, l: nat, quarter: nat): real
    requires |b| == 210 && n < 2 && l < 32 && quarter < 4
  {
    Weighed(f.f16(b[208], b[209]), Signed(b[192 + 8 * n + l / 16 + 2 * quarter]),
            Six(b[64 * n + l + 32 * (quarter % 2)], b[128 + 32 * n + l], quarter))
  }

  /** One half of `dequant_q6_k`. */
  method DecodeHalf(f: Floats, ghost b: Block, ghost n: nat, ql: seq<Byte>, qh: seq<Byte>, sc: seq<Byte>, d: real,
      dst: array<real>, at: nat)
    requires |b| == 210 && n < 2 && d == f.f16(b[208], b[209]) && at + 128 <= dst.Length
    requires |ql| == 64 && |qh| == 32 && |sc| == 8
    requires forall i :: 0 <= i < 64 ==> ql[i] == b[64 * n + i]
    requires forall i :: 0 <= i < 32 ==> qh[i] == b[128 + 32 * n + i]
    requires forall i :: 0 <= i < 8 ==> sc[i] == b[192 + 8 * n + i]
    modifies dst
    ensures forall k :: at <= k < at + 128 ==> dst[k] == Q6KAt(f, b, 128 * n + k - at)
    ensures forall k :: 0 <= k < dst.Length && !(at <= k < at + 128) ==> dst[k] == old(dst[k])
  {
    hide Six, Signed, Weighed, Q6KAt;
    for l := 0 to 32
      invariant forall k :: at <= k < at + l ==> dst[k] == Q6KAt(f, b, 128 * n + k - at)
      invariant forall k :: at + 32 <= k < at + 32 + l ==> dst[k] == Q6KAt(f, b, 128 * n + k - at)
      invariant forall k :: at + 64 <= k < at + 64 + l ==> dst[k] == Q6KAt(f, b, 128 * n + k - at)
      invariant forall k :: at + 96 <= k < at + 96 + l ==> dst[k] == Q6KAt(f, b, 128 * n + k - at)
      invariant forall k :: 0 <= k < dst.Length && !(at <= k < at + 128) ==> dst[k] == old(dst[k])
    {
      Q6KHere(f, b, n, l);
      var s := l / 16;
      dst[at + l] := Weighed(d, Signed(sc[s]), Six(ql[l], qh[l], 0));
      dst[at + l + 32] := Weighed(d, Signed(sc[s + 2]), Six(ql[l + 32], qh[l], 1));
      dst[at + l + 64] := Weighed(d, Signed(sc[s + 4]), Six(ql[l], qh[l], 2));
      dst[at + l + 96] := Weighed(d, Signed(sc[s + 6]), Six(ql[l + 32], qh[l], 3));
    }
  }

  /** Where the element of one quarter is looked up. */
  lemma Q6KQuarter(f: Floats, b: Block, n: nat, l: nat, quarter: nat)
    requires |b| == 210 && n < 2 && l < 32 && quarter < 4
    ensures Q6KAt(f, b, 128 * n + l + 32 * quarter) == Q6KWant(f, b, n, l, quarter)
  {
    hide Six, Signed, Weighed;
    var e := 128 * n + l + 32 * quarter;
    assert e / 128 == n && e % 128 == l + 32 * quarter;
    assert (l + 32 * quarter) / 32 == quarter && e % 32 == l;
  }

  /** Where the four elements written together are looked up. */
  lemma Q6KHere(f: Floats, b: Block, n: nat, l: nat)
    requires |b| == 210 && n < 2 && l < 32
    ensures Q6KAt(f, b, 128 * n + l) == Q6KWant(f, b, n, l, 0)
    ensures Q6KAt(f, b, 128 * n + l + 32) == Q6KWant(f, b, n, l, 1)
    ensures Q6KAt(f, b, 128 * n + l + 64) == Q6KWant(f, b, n, l, 2)
    ensures Q6KAt(f, b, 128 * n + l + 96) == Q6KWant(f, b, n, l, 3)
  {
    hide Q6KAt, Q6KWant;
    Q6KQuarter(f, b, n, l, 0);
    Q6KQuarter(f, b, n, l, 1);
    Q6KQuarter(f, b, n, l, 2);
    Q6KQuarter(f, b, n, l, 3);
  }

  // ---------------------------------------------------------------------
  // Whole tensors and rows of them
  // ---------------------------------------------------------------------

  /** One block of any quantised type. */
  method DecodeBlock(f: Floats, dtype: nat, src: seq<Byte>, off: nat, dst: array<real>, at: nat)
    requires BlockShape(dtype).Some?
    requires var (be, bb) := BlockShape(dtype).value; off + bb <= |src| && at + be <= dst.Length
    modifies dst
    ensures var (be, bb) := BlockShape(dtype).value;
            && (forall k :: at <= k < at + be ==> dst[k] == ElemAt(f, dtype, src[off..off + bb], k - at))
            && (forall k :: 0 <= k < dst.Length && !(at <= k < at + be) ==> dst[k] == old(dst[k]))
  {
    hide Q40At, Q80At, Q4KAt, Q6KAt;
    match dtype
    case 2 => DecodeQ40(f, src, off, dst, at);
    case 8 => DecodeQ80(f, src, off, dst, at);
    case 14 => DecodeQ6K(f, src, off, dst, at);
    case _ => DecodeQ4K(f, src, off, dst, at);
  }

  lemma TensorBlock(f: Floats, dtype: nat, src: seq<Byte>, b: nat, e: nat)
    requires BlockShape(dtype).Some?
    requires var (be, bb) := BlockShape(dtype).value; b * bb + bb <= |src| && e < be
    ensures var (be, bb) := BlockShape(dtype).value;
            Holds(dtype, src, b * be + e)
              && TensorAt(f, dtype, src, b * be + e) == ElemAt(f, dtype, BlockOf(src, b, bb), e)
  {
    hide ElemAt;
    var (be, bb) := BlockShape(dtype).value;
    DivModUnique(b * be + e, be, b, e);
  }

  lemma BlockElem(f: Floats, dtype: nat, src: seq<Byte>, b: nat, k: nat)
    requires BlockShape(dtype).Some?
    requires var (be, bb) := BlockShape(dtype).value; b * bb + bb <= |src| && b * be <= k < b * be + be
    ensures var (be, bb) := BlockShape(dtype).value;
            IsElem(f, dtype, src, k, ElemAt(f, dtype, src[b * bb..b * bb + bb], k - b * be))
  {
    hide ElemAt, TensorAt, Holds;
    TensorBlock(f, dtype, src, b, k - b * BlockShape(dtype).value.0);
  }

  /** How `dequantize` ends: some types answer false when bytes are missing, others assert. */
  datatype Decoded = Done | Refused | Panics

  /** `dequantize`: `n` elements of `src` into the front of `dst`. */
  method Dequantize(f: Floats, src: seq<Byte>, dtype: nat, dst: array<real>, n: nat) returns (r: Decoded)
    requires n <= dst.Length
    modifies dst
    ensures r.Done? <==> RawLen(dtype, n).Some? && RawLen(dtype, n).value <= |src|
    ensures r.Panics? <==> dtype in {2, 12, 13} && RawLen(dtype, n).Some? && |src| < RawLen(dtype, n).value
    ensures r.Done? ==> forall k :: 0 <= k < n ==> IsElem(f, dtype, src, k, dst[k])
    ensures forall k :: (if r.Done? then n else 0) <= k < dst.Length ==> dst[k] == old(dst[k])
  {
    hide ElemAt;
    var need := RawLen(dtype, n);
    if need.None? {
      return Refused;
    } else if |src| < need.value {
      return if dtype == 2 || dtype == 12 || dtype == 13 then Panics else Refused;
    }
    r := Done;
    if dtype == 0 {
      for i := 0 to n
        invariant forall k :: 0 <= k < i ==> IsElem(f, dtype, src, k, dst[k])
        invariant forall k :: n <= k < dst.Length ==> dst[k] == old(dst[k])
      {
        dst[i] := f.f32(src[i * 4], src[i * 4 + 1], src[i * 4 + 2], src[i * 4 + 3]);
      }
    } else if dtype == 1 {
      for i := 0 to n
        invariant forall k :: 0 <= k < i ==> IsElem(f, dtype, src, k, dst[k])
        invariant forall k :: n <= k < dst.Length ==> dst[k] == old(dst[k])
      {
        dst[i] := f.f16(src[i * 2], src[i * 2 + 1]);
      }
    } else {
      DecodeBlocks(f, dtype, src, n / BlockShape(dtype).value.0, dst);
    }
  }

  /** The block loop the quantised types share. */
  method DecodeBlocks(f: Floats, dtype: nat, src: seq<Byte>, nb: nat, dst: array<real>)
    requires BlockShape(dtype).Some?
    requires var (be, bb) := BlockShape(dtype).value; nb * bb <= |src| && nb * be <= dst.Length
    modifies dst
    ensures forall k :: 0 <= k < nb * BlockShape(dtype).value.0 ==> IsElem(f, dtype, src, k, dst[k])
    ensures forall k :: nb * BlockShape(dtype).value.0 <= k < dst.Length ==> dst[k] == old(dst[k])
  {
    hide IsElem, ElemAt;
    var (be, bb) := BlockShape(dtype).value;
    for b := 0 to nb
      invariant b * be <= nb * be
      invariant forall k :: 0 <= k < b * be ==> IsElem(f, dtype, src, k, dst[k])
      invariant forall k :: nb * be <= k < dst.Length ==> dst[k] == old(dst[k])
    {
      MulAdd(b, 1, be);
      MulAdd(b, 1, bb);
      MulMono(b + 1, nb, be);
      MulMono(b + 1, nb, bb);
      DecodeBlock(f, dtype, src, b * bb, dst, b * be);
      forall k | b * be <= k < b * be + be ensures IsElem(f, dtype, src, k, dst[k]) {
        BlockElem(f, dtype, src, b, k);
      }
    }
  }

  datatype RowError = OutOfRange | NoRowSlice | Misaligned | ReadFails

  /** A cut of a plain tensor's bytes holds the same elements. */
  lemma PlainRow(f: Floats, dtype: nat, src: seq<Byte>, base: nat, hidden: nat, k: nat)
    requires PlainWidth(dtype).Some? && k < hidden && (base + hidden) * PlainWidth(dtype).value <= |src|
    ensures var w := PlainWidth(dtype).value;
            var row := src[base * w..base * w + hidden * w];
            && Holds(dtype, row, k) && Holds(dtype, src, base + k)
            && TensorAt(f, dtype, row, k) == TensorAt(f, dtype, src, base + k)
  {
  }

  /** A cut of whole blocks holds the same elements. */
  lemma BlockRow(f: Floats, dtype: nat, src: seq<Byte>, b0: nat, nb: nat, k: nat)
    requires BlockShape(dtype).Some?
    requires var (be, bb) := BlockShape(dtype).value; k < nb * be && b0 * bb + nb * bb <= |src|
    ensures var (be, bb) := BlockShape(dtype).value;
            var row := src[b0 * bb..b0 * bb + nb * bb];
            && Holds(dtype, row, k) && Holds(dtype, src, b0 * be + k)
            && TensorAt(f, dtype, row, k) == TensorAt(f, dtype, src, b0 * be + k)
  {
    hide ElemAt, TensorAt, Holds, RawLen;
    var (be, bb) := BlockShape(dtype).value;
    var row := src[b0 * bb..b0 * bb + nb * bb];
    var b, e := k / be, k % be;
    BlockInside(k, be, bb, nb);
    assert k == b * be + e;
    MulAdd(b0, b, be);
    MulAdd(b0, b, bb);
    SliceOfSlice(src, b0 * bb, b0 * bb + nb * bb, b * bb, b * bb + bb);
    assert BlockOf(row, b, bb) == BlockOf(src, b0 + b, bb);
    TensorBlock(f, dtype, row, b, e);
    TensorBlock(f, dtype, src, b0 + b, e);
  }

  /** An aligned cut of the bytes holds the same elements, from `base` on. */
  lemma RowIsSlice(f: Floats, dtype: nat, src: seq<Byte>, base: nat, hidden: nat, k: nat)
    requires RawLen(dtype, base).Some? && RawLen(dtype, hidden).Some? && k < hidden
    requires RawLen(dtype, base).value + RawLen(dtype, hidden).value <= |src|
    ensures var row := src[RawLen(dtype, base).value..RawLen(dtype, base).value + RawLen(dtype, hidden).value];
            && Holds(dtype, row, k) && Holds(dtype, src, base + k)
            && TensorAt(f, dtype, row, k) == TensorAt(f, dtype, src, base + k)
  {
    hide ElemAt, TensorAt, Holds;
    if PlainWidth(dtype).Some? {
      PlainRow(f, dtype, src, base, hidden, k);
    } else {
      BlockRow(f, dtype, src, base / BlockShape(dtype).value.0, hidden / BlockShape(dtype).value.0, k);
    }
  }

  /**
    The type a row is read as. `DType::from_u32` keeps the low byte of the number and takes
    numbers it does not know for F32; the block types are then matched on the whole number.
  */
  function RowType(dtype: nat): Option<nat> {
    var low := dtype % 256;
    if low == 1 then Some(1)
    else if low in {2, 3, 4, 5, 6, 8, 12, 13, 14, 15, 64} then (if BlockShape(dtype).Some? then Some(dtype) else None)
    else Some(0)
  }

  /** `out` is what the tensor holds from element `base` on. */
  predicate IsSlice(f: Floats, dtype: nat, src: seq<Byte>, base: nat, out: seq<real>) {
    forall k :: 0 <= k < |out| ==> IsElem(f, dtype, src, base + k, out[k])
  }

  lemma RowElem(f: Floats, t: nat, src: seq<Byte>, base: nat, hidden: nat, k: nat, v: real)
    requires RawLen(t, base).Some? && RawLen(t, hidden).Some? && k < hidden
    requires RawLen(t, base).value + RawLen(t, hidden).value <= |src|
    requires IsElem(f, t, src[RawLen(t, base).value..RawLen(t, base).value + RawLen(t, hidden).value], k, v)
    ensures IsElem(f, t, src, base + k, v)
  {
    hide ElemAt, TensorAt, Holds, RawLen;
    RowIsSlice(f, t, src, base, hidden, k);
  }

  /** Decoding the bytes of a row gives its slice. */
  lemma RowDecoded(f: Floats, t: nat, src: seq<Byte>, base: nat, out: seq<real>)
    requires RawLen(t, base).Some? && RawLen(t, |out|).Some? && RawLen(t, base).value + RawLen(t, |out|).value <= |src|
    requires var row := src[RawLen(t, base).value..RawLen(t, base).value + RawLen(t, |out|).value];
             forall k :: 0 <= k < |out| ==> IsElem(f, t, row, k, out[k])
    ensures IsSlice(f, t, src, base, out)
  {
    hide IsElem, RawLen;
    forall k | 0 <= k < |out| ensures IsElem(f, t, src, base + k, out[k]) {
      RowElem(f, t, src, base, |out|, k, out[k]);
    }
  }

  /**
    `embedding_row`: row `row` of an `n`-element matrix whose bytes start `tail`, decoding only
    the bytes of that row.
  */
  method EmbeddingRow(f: Floats, tail: seq<Byte>, dtype: nat, n: nat, row: nat, hidden: nat)
      returns (r: Result<seq<real>, RowError>)
    ensures r == Err(OutOfRange) <==> row * hidden >= TWO64 || hidden == 0 || row * hidden + hidden > n
    ensures r == Err(NoRowSlice) <==> r != Err(OutOfRange) && RowType(dtype).None?
    ensures r == Err(Misaligned) <==>
              r != Err(OutOfRange) && r != Err(NoRowSlice)
              && (RawLen(RowType(dtype).value, row * hidden).None? || RawLen(RowType(dtype).value, hidden).None?)
    ensures r == Err(ReadFails) <==>
              r != Err(OutOfRange) && r != Err(NoRowSlice) && r != Err(Misaligned)
              && |tail| < RawLen(RowType(dtype).value, row * hidden).value + RawLen(RowType(dtype).value, hidden).value
    ensures r.Ok? ==> |r.value| == hidden && RowType(dtype).Some?
    ensures r.Ok? ==> IsSlice(f, RowType(dtype).value, tail, row * hidden, r.value)
  {
    hide IsElem, IsSlice;
    var base := row * hidden;
    if base >= TWO64 || hidden == 0 || base + hidden > n {
      return Err(OutOfRange);
    }
    if RowType(dtype).None? {
      return Err(NoRowSlice);
    }
    var t := RowType(dtype).value;
    if RawLen(t, base).None? || RawLen(t, hidden).None? {
      return Err(Misaligned);
    }
    var start, len := RawLen(t, base).value, RawLen(t, hidden).value;
    if |tail| < start + len {
      return Err(ReadFails);
    }
    var dst := new real[hidden];
    var done := Dequantize(f, tail[start..start + len], t, dst, hidden);
    var out := dst[..];
    RowDecoded(f, t, tail, base, out);
    r := Ok(out);
  }
}
