/**
  The parallel kernels and the dispatch (src/matvec_quant.rs:49-109, 161-285, 358-383).
  A plan is the shape a run of rayon's fold and reduce takes: which stretch of blocks each
  worker folds into a private accumulator, and how the accumulators are paired up.
*/
module FusedMatVec {
  import opened Prelude
  import opened Arith
  import opened Quant
  import opened MatVec
  import opened Avx2

  datatype Plan =
    | Identity
    | Fold(count: nat)
    | Join(left: Plan, right: Plan)
  {
    /** How many blocks it covers; they are handed out from left to right. */
    function Blocks(): nat {
      match this
      case Identity => 0
      case Fold(count) => count
      case Join(left, right) => left.Blocks() + right.Blocks()
    }
  }

  /** Whether a block is added by the runs loop or, for Q4_K, by the vector kernel. */
  datatype Kernel = Runs | Vector(f: Floats)

  ghost predicate DecodesQ4K(f: Floats, c: Codec) {
    forall b: Block, e: nat | |b| == 144 && e < 256 :: |c.decode(b)| == 256 && c.decode(b)[e] == Q4KAt(f, b, e)
  }

  /** The vector kernel is chosen only for the Q4_K codec and columns of whole super-blocks. */
  ghost predicate Suits(k: Kernel, c: Codec, n: nat) {
    c.Valid() && n > 0 &&
    (k.Vector? ==> (n % 256 == 0 && c.elems == 256 && c.bytes == 144 && DecodesQ4K(k.f, c)))
  }

  // ---------------------------------------------------------------------
  // A vector step adds what a scalar step adds
  // ---------------------------------------------------------------------

  /** With 256 dividing the column length, a super-block stays inside one column. */
  lemma OneColumn(n: nat, b: nat)
    requires n > 0 && n % 256 == 0
    ensures b * 256 % n + 256 <= n
  {
    var m, i := n / 256, b * 256 % n;
    assert n == m * 256;
    assert b * 256 == b * 256 / n * n + i;
    var q := b * 256 / n;
    MulAssoc(q, m, 256);
    MulAdd(b, q * m, 256);
    var r := b - q * m;
    assert i == r * 256;
    assert r < m;
  }

  lemma {:induction false} DotShift(x: seq<real>, w: seq<real>, from: nat, i: nat, m: nat, xseg: seq<real>,
      v: seq<real>)
    requires i + m <= |x| && from + i + m <= |w| && m <= |xseg| && m <= |v|
    requires forall k :: 0 <= k < m ==> xseg[k] == x[i + k] && v[k] == w[from + i + k]
    ensures Dot(x, w, from, i + m) - Dot(x, w, from, i) == Dot(xseg, v, 0, m)
  {
    if m > 0 {
      DotShift(x, w, from, i, m - 1, xseg, v);
    }
  }

  /** The vector kernel on block `blk` of the codec. */
  method SuperblockDot(c: Codec, f: Floats, blk: Block, xseg: seq<real>) returns (s: real)
    requires c.Valid() && c.elems == 256 && c.bytes == 144 && DecodesQ4K(f, c) && |blk| == 144 && |xseg| == 256
    ensures |c.decode(blk)| == 256 && s == Dot(xseg, c.decode(blk), 0, 256)
  {
    hide Dot, Q4KAt;
    var d, dmin := f.f16(blk[0], blk[1]), f.f16(blk[2], blk[3]);
    s := DotSuperblock(f, blk, blk[16..144], blk[4..16], d, dmin, xseg, c.decode(blk));
  }

  /** Column and row of super-block `b`. */
  method Locate(n: nat, b: nat, ghost nb: nat, ghost out: nat) returns (j: nat, i: nat)
    requires n > 0 && n % 256 == 0 && b < nb && nb * 256 <= n * out
    ensures b * 256 == j * n + i && i + 256 <= n && j < out
  {
    OneColumn(n, b);
    ColumnInside(b * 256, n, out);
    j, i := b * 256 / n, b * 256 % n;
  }

  /** Adding the dot product of a super-block to its column adds the block. */
  lemma SuperblockGrew(x: seq<real>, w: seq<real>, before: seq<real>, after: seq<real>, j: nat, i: nat, v: seq<real>)
    requires |x| > 0 && i + 256 <= |x| && j * |x| + i + 256 <= |w| && j < |before| && |v| == 256
    requires forall a :: 0 <= a < 256 ==> v[a] == w[j * |x| + i + a]
    requires after == before[j := before[j] + Dot(x[i..i + 256], v, 0, 256)]
    ensures Grew(x, w, before, after, j * |x| + i, j * |x| + i + 256)
  {
    hide Dot, Grew;
    DotShift(x, w, j * |x|, i, 256, x[i..i + 256], v);
    GrewRun(x, w, before, after, j, i, 256);
  }

  /** One step of `matvec_q4k_avx2`: the whole super-block goes to one column. */
  method StepVector(c: Codec, f: Floats, x: seq<real>, raw: seq<Byte>, ghost nb: nat, b: nat, acc: array<real>)
    requires c.Valid() && c.elems == 256 && c.bytes == 144 && DecodesQ4K(f, c)
    requires |x| > 0 && |x| % 256 == 0 && nb * 144 <= |raw| && nb * 256 <= |x| * acc.Length && b < nb
    modifies acc
    ensures b * 256 + 256 <= nb * 256
    ensures Grew(x, Weights(c, raw, nb), old(acc[..]), acc[..], b * 256, b * 256 + 256)
  {
    hide Dot, Grew, Weights, DecodesQ4K;
    BlockIsStretch(c, raw, nb, b);
    var j0, i0 := Locate(|x|, b, nb, acc.Length);
    var blk := raw[b * 144..b * 144 + 144];
    var partial := SuperblockDot(c, f, blk, x[i0..i0 + 256]);
    ghost var before := acc[..];
    acc[j0] := acc[j0] + partial;
    SuperblockGrew(x, Weights(c, raw, nb), before, acc[..], j0, i0, c.decode(blk));
  }

  method Step(c: Codec, k: Kernel, x: seq<real>, raw: seq<Byte>, ghost nb: nat, b: nat, acc: array<real>)
    requires Suits(k, c, |x|) && nb * c.bytes <= |raw| && nb * c.elems <= |x| * acc.Length && b < nb
    modifies acc
    ensures b * c.elems + c.elems <= nb * c.elems
    ensures Grew(x, Weights(c, raw, nb), old(acc[..]), acc[..], b * c.elems, b * c.elems + c.elems)
  {
    if k.Vector? {
      StepVector(c, k.f, x, raw, nb, b, acc);
    } else {
      StepBlock(c, x, raw, nb, b, acc);
    }
  }

  // ---------------------------------------------------------------------
  // Fold and reduce
  // ---------------------------------------------------------------------

  /** `y` is the share of every column that the flat elements from `lo` to `hi` hold. */
  ghost predicate Gathered(x: seq<real>, w: seq<real>, y: seq<real>, lo: nat, hi: nat)
    requires |x| > 0 && lo <= |w| && hi <= |w|
  {
    forall c :: 0 <= c < |y| ==> y[c] == Part(x, w, c, hi) - Part(x, w, c, lo)
  }

  lemma GatheredFrom(x: seq<real>, w: seq<real>, zeros: seq<real>, y: seq<real>, lo: nat, hi: nat)
    requires |x| > 0 && lo <= |w| && hi <= |w|
    requires (forall c :: 0 <= c < |zeros| ==> zeros[c] == 0.0) && Grew(x, w, zeros, y, lo, hi)
    ensures Gathered(x, w, y, lo, hi)
  {
    hide Part;
  }

  lemma GatheredNone(x: seq<real>, w: seq<real>, zeros: seq<real>, at: nat)
    requires |x| > 0 && at <= |w| && forall c :: 0 <= c < |zeros| ==> zeros[c] == 0.0
    ensures Gathered(x, w, zeros, at, at)
  {
    hide Part;
  }

  lemma GatheredJoin(x: seq<real>, w: seq<real>, a: seq<real>, b: seq<real>, sum: seq<real>, lo: nat, mid: nat, hi: nat)
    requires |x| > 0 && lo <= |w| && mid <= |w| && hi <= |w|
    requires Gathered(x, w, a, lo, mid) && Gathered(x, w, b, mid, hi)
    requires |a| == |b| == |sum| && forall c :: 0 <= c < |sum| ==> sum[c] == a[c] + b[c]
    ensures Gathered(x, w, sum, lo, hi)
  {
    hide Part;
  }

  lemma GrewStill(x: seq<real>, w: seq<real>, a: seq<real>, at: nat)
    requires |x| > 0 && at <= |w|
    ensures Grew(x, w, a, a, at, at)
  {
    hide Part;
  }

  /** The reducer: element by element, into the left vector. */
  method AddInto(a: array<real>, b: array<real>)
    requires a.Length == b.Length && a != b
    modifies a
    ensures forall c :: 0 <= c < a.Length ==> a[c] == old(a[c]) + b[c]
  {
    for k := 0 to a.Length
      invariant forall c :: 0 <= c < k ==> a[c] == old(a[c]) + b[c]
      invariant forall c :: k <= c < a.Length ==> a[c] == old(a[c])
    {
      a[k] := a[k] + b[k];
    }
  }

  /** The same, counted in blocks of `be` elements. */
  ghost predicate Share(x: seq<real>, w: seq<real>, y: seq<real>, be: nat, from: nat, to: nat) {
    |x| > 0 && from * be <= |w| && to * be <= |w| && Gathered(x, w, y, from * be, to * be)
  }

  lemma ShareJoin(x: seq<real>, w: seq<real>, a: seq<real>, b: seq<real>, sum: seq<real>, be: nat, from: nat,
      mid: nat, to: nat)
    requires Share(x, w, a, be, from, mid) && Share(x, w, b, be, mid, to)
    requires |a| == |b| == |sum| && forall c :: 0 <= c < |sum| ==> sum[c] == a[c] + b[c]
    ensures Share(x, w, sum, be, from, to)
  {
    hide Gathered;
    GatheredJoin(x, w, a, b, sum, from * be, mid * be, to * be);
  }

  lemma ShareNone(x: seq<real>, w: seq<real>, zeros: seq<real>, be: nat, from: nat, nb: nat)
    requires |x| > 0 && from <= nb && nb * be == |w| && forall c :: 0 <= c < |zeros| ==> zeros[c] == 0.0
    ensures Share(x, w, zeros, be, from, from)
  {
    hide Gathered;
    MulMono(from, nb, be);
    GatheredNone(x, w, zeros, from * be);
  }

  method RunPlan(plan: Plan, c: Codec, k: Kernel, x: seq<real>, raw: seq<Byte>, ghost nb: nat, outDim: nat, from: nat)
    returns (acc: array<real>)
    requires Suits(k, c, |x|) && nb * c.bytes <= |raw| && nb * c.elems <= |x| * outDim && from + plan.Blocks() <= nb
    ensures fresh(acc) && acc.Length == outDim
    ensures Share(x, Weights(c, raw, nb), acc[..], c.elems, from, from + plan.Blocks())
    decreases plan
  {
    hide Weights, Share, DecodesQ4K;
    ghost var w := Weights(c, raw, nb);
    match plan
    case Identity =>
      acc := new real[outDim](_ => 0.0);
      ShareNone(x, w, acc[..], c.elems, from, nb);
    case Fold(count) =>
      acc := FoldBlocks(c, k, x, raw, nb, outDim, from, count);
    case Join(left, right) =>
      acc := RunPlan(left, c, k, x, raw, nb, outDim, from);
      var mid := from + left.Blocks();
      var other := RunPlan(right, c, k, x, raw, nb, outDim, mid);
      ghost var before := acc[..];
      AddInto(acc, other);
      ShareJoin(x, w, before, other[..], acc[..], c.elems, from, mid, mid + right.Blocks());
  }

  /** One worker: blocks `from` up to `from + count`, into an accumulator of its own. */
  method FoldBlocks(c: Codec, k: Kernel, x: seq<real>, raw: seq<Byte>, ghost nb: nat, outDim: nat, from: nat,
      count: nat)
    returns (acc: array<real>)
    requires Suits(k, c, |x|) && nb * c.bytes <= |raw| && nb * c.elems <= |x| * outDim && from + count <= nb
    ensures fresh(acc) && acc.Length == outDim
    ensures Share(x, Weights(c, raw, nb), acc[..], c.elems, from, from + count)
  {
    hide Part, Dot, Grew, Weights, Gathered;
    ghost var w := Weights(c, raw, nb);
    MulMono(from, from + count, c.elems);
    MulMono(from + count, nb, c.elems);
    acc := new real[outDim](_ => 0.0);
    ghost var zeros := acc[..];
    GrewStill(x, w, zeros, from * c.elems);
    for b := from to from + count
      invariant fresh(acc) && acc.Length == outDim && b * c.elems <= nb * c.elems
      invariant Grew(x, w, zeros, acc[..], from * c.elems, b * c.elems)
    {
      ghost var before := acc[..];
      Step(c, k, x, raw, nb, b, acc);
      MulAdd(b, 1, c.elems);
      GrewOn(x, w, zeros, before, acc[..], from * c.elems, b * c.elems, b * c.elems + c.elems);
    }
    GatheredFrom(x, w, zeros, acc[..], from * c.elems, (from + count) * c.elems);
  }

  /** `matvec_blocked`, and `matvec_q4k_avx2` with the vector kernel: the serial answer, whatever the plan. */
  method MatvecBlocked(plan: Plan, c: Codec, k: Kernel, x: seq<real>, raw: seq<Byte>, outDim: nat)
      returns (y: seq<real>)
    requires Suits(k, c, |x|) && |x| * outDim / c.elems * c.bytes <= |raw|
    requires plan.Blocks() == |x| * outDim / c.elems
    ensures |y| == outDim
    ensures Product(x, Weights(c, raw, |x| * outDim / c.elems), y)
  {
    hide Part, Dot, Grew, Weights;
    var nb := |x| * outDim / c.elems;
    var acc := RunPlan(plan, c, k, x, raw, nb, outDim, 0);
    y := acc[..];
    ghost var w := Weights(c, raw, nb);
    forall col | 0 <= col < |y| ensures y[col] == Part(x, w, col, |w|) {
      Fresh(x, w, col);
    }
  }

  // ---------------------------------------------------------------------
  // Dispatch
  // ---------------------------------------------------------------------

  /** `quant_raw_len`: only types with a kernel. */
  function QuantRawLen(dtype: nat, n: nat): (r: Option<nat>)
    ensures r == if BlockShape(dtype).Some? then RawLen(dtype, n) else None
  {
    if dtype == 2 then (if n % 32 != 0 then None else Some(n / 32 * 18))
    else if dtype == 12 || dtype == 13 then (if n % 256 != 0 then None else Some(n / 256 * 144))
    else if dtype == 14 then (if n % 256 != 0 then None else Some(n / 256 * 210))
    else if dtype == 8 then (if n % 32 != 0 then None else Some(n / 32 * 34))
    else None
  }

  /** The decoder of a quantised type: what `dequantize` gives for one block. */
  function CodecOf(f: Floats, dtype: nat): Codec
    requires BlockShape(dtype).Some?
  {
    var (be, bb) := BlockShape(dtype).value;
    Codec(be, bb, (b: Block) => if |b| == bb then seq(be, e requires 0 <= e < be => ElemAt(f, dtype, b, e)) else [])
  }

  /** The decoded weights of the codec are the elements the tensor decoder reads. */
  lemma WeightsAreTensor(f: Floats, dtype: nat, raw: seq<Byte>, nb: nat, k: nat)
    requires BlockShape(dtype).Some?
    requires var (be, bb) := BlockShape(dtype).value; nb * bb <= |raw| && k < nb * be
    ensures CodecOf(f, dtype).Valid() && Holds(dtype, raw, k)
    ensures Weights(CodecOf(f, dtype), raw, nb)[k] == TensorAt(f, dtype, raw, k)
  {
    hide ElemAt;
    var (be, bb) := BlockShape(dtype).value;
    BlockInside(k, be, bb, nb);
  }

  /** The tensor as a flat matrix, decoded in full by the reference decoder. */
  ghost function Decoded(f: Floats, dtype: nat, raw: seq<Byte>, n: nat): (w: seq<real>)
    requires RawLen(dtype, n).Some? && RawLen(dtype, n).value <= |raw|
    ensures |w| == n
  {
    seq(n, k requires 0 <= k < n => (RawLenHolds(dtype, n, raw, k); TensorAt(f, dtype, raw, k)))
  }

  lemma WeightsAreDecoded(f: Floats, dtype: nat, raw: seq<Byte>, n: nat)
    requires QuantRawLen(dtype, n).Some? && QuantRawLen(dtype, n).value <= |raw|
    ensures CodecOf(f, dtype).Valid()
    ensures n / CodecOf(f, dtype).elems * CodecOf(f, dtype).bytes <= |raw|
    ensures Weights(CodecOf(f, dtype), raw, n / CodecOf(f, dtype).elems) == Decoded(f, dtype, raw, n)
  {
    hide ElemAt, Weights, TensorAt;
    var nb := n / CodecOf(f, dtype).elems;
    forall k | 0 <= k < n ensures Weights(CodecOf(f, dtype), raw, nb)[k] == Decoded(f, dtype, raw, n)[k] {
      WeightsAreTensor(f, dtype, raw, nb, k);
    }
  }

  /**
    `matvec_quant`. `parMin` is the size from which rayon is used, `avx2` what the processor
    offers, `split` how a run of rayon would divide so many blocks: none of them shows in the
    answer, which is the matrix decoded in full and multiplied column by column.
  */
  method MatvecQuant(f: Floats, x: seq<real>, raw: seq<Byte>, dtype: nat, inDim: nat, outDim: nat,
                     parMin: nat, avx2: bool, split: nat -> Plan) returns (r: Option<seq<real>>)
    requires forall k: nat :: split(k).Blocks() == k
    ensures r.Some? <==> |x| == inDim && inDim > 0 && outDim > 0 && inDim * outDim < TWO64
                         && QuantRawLen(dtype, inDim * outDim).Some?
                           && QuantRawLen(dtype, inDim * outDim).value <= |raw|
    ensures r.Some? ==> |r.value| == outDim
    ensures r.Some? ==> forall j :: 0 <= j < outDim ==>
              j * inDim + inDim <= inDim * outDim
              && r.value[j] == Dot(x, Decoded(f, dtype, raw, inDim * outDim), j * inDim, inDim)
  {
    hide ElemAt, Dot, Part, Weights, Product, Decoded, RawLen, CodecOf;
    if |x| != inDim || inDim == 0 || outDim == 0 || inDim * outDim >= TWO64 {
      return None;
    }
    var n := inDim * outDim;
    var need := QuantRawLen(dtype, n);
    if need.None? || |raw| < need.value {
      return None;
    }
    var cut := raw[..need.value];
    ghost var w := Decoded(f, dtype, raw, n);
    DecodedCut(f, dtype, raw, n);
    var y := RunKernel(f, x, cut, dtype, n, outDim, parMin, avx2, split);
    forall j | 0 <= j < outDim ensures j * inDim + inDim <= inDim * outDim && y[j] == Dot(x, w, j * inDim, inDim) {
      ProductIsColumns(x, w, y, j);
    }
    r := Some(y);
  }

  /** The kernel of each type, `matvec_q4k_impl` for Q4_K. */
  method RunKernel(f: Floats, x: seq<real>, raw: seq<Byte>, dtype: nat, n: nat, outDim: nat,
                   parMin: nat, avx2: bool, split: nat -> Plan) returns (y: seq<real>)
    requires forall k: nat :: split(k).Blocks() == k
    requires |x| > 0 && n == |x| * outDim && QuantRawLen(dtype, n) == Some(|raw|)
    ensures |y| == outDim && Product(x, Decoded(f, dtype, raw, n), y)
  {
    hide ElemAt, Dot, Part, Weights, Product, Decoded;
    var c := CodecOf(f, dtype);
    WeightsAreDecoded(f, dtype, raw, n);
    if dtype == 12 || dtype == 13 {
      if n < parMin {
        y := MatvecBlockedSerial(c, x, raw, outDim);
      } else if avx2 && |x| % 256 == 0 && n % 256 == 0 {
        CodecDecodesQ4K(f, dtype);
        y := MatvecBlocked(split(n / c.elems), c, Vector(f), x, raw, outDim);
      } else {
        y := MatvecBlocked(split(n / c.elems), c, Runs, x, raw, outDim);
      }
    } else {
      y := MatvecBlocked(split(n / c.elems), c, Runs, x, raw, outDim);
    }
  }

  lemma CodecDecodesQ4K(f: Floats, dtype: nat)
    requires dtype == 12 || dtype == 13
    ensures DecodesQ4K(f, CodecOf(f, dtype))
  {
    hide Q4KAt;
  }

  /** Bytes after the matrix do not matter. */
  lemma DecodedCut(f: Floats, dtype: nat, raw: seq<Byte>, n: nat)
    requires QuantRawLen(dtype, n).Some? && QuantRawLen(dtype, n).value <= |raw|
    ensures Decoded(f, dtype, raw[..QuantRawLen(dtype, n).value], n) == Decoded(f, dtype, raw, n)
  {
    hide ElemAt;
    var cut := raw[..QuantRawLen(dtype, n).value];
    var (be, bb) := BlockShape(dtype).value;
    forall k | 0 <= k < n ensures Decoded(f, dtype, cut, n)[k] == Decoded(f, dtype, raw, n)[k] {
      RawLenHolds(dtype, n, cut, k);
      assert BlockOf(cut, k / be, bb) == BlockOf(raw, k / be, bb);
    }
  }
}
