/**
  Matrix-vector products over packed weights (src/matvec_quant.rs). Floats are reals, so
  the order in which terms are added does not matter; everything else is as in the source.
*/
module MatVec {
  import opened Prelude
  import opened Arith
  import opened Quant

  /** How one block of bytes decodes. */
  datatype Codec = Codec(elems: nat, bytes: nat, decode: Block -> seq<real>)
  {
    ghost predicate Valid() {
      elems > 0 && forall b: Block :: |b| == bytes ==> |decode(b)| == elems
    }
  }

  lemma TimesSwap(a: real, b: real)
    ensures Times(a, b) == Times(b, a)
  {
  }

  // ---------------------------------------------------------------------
  // Reference: decode everything, then take dot products of columns
  // ---------------------------------------------------------------------

  /** The first `nb` blocks of `raw`, decoded. */
  ghost function Weights(c: Codec, raw: seq<Byte>, nb: nat): (w: seq<real>)
    requires c.Valid() && nb * c.bytes <= |raw|
    ensures |w| == nb * c.elems
  {
    seq(nb * c.elems, k requires 0 <= k < nb * c.elems =>
      (BlockInside(k, c.elems, c.bytes, nb); c.decode(BlockOf(raw, k / c.elems, c.bytes))[k % c.elems]))
  }

  /** Sum of `x[i] * w[from + i]` over `i < m`. */
  ghost function Dot(x: seq<real>, w: seq<real>, from: nat, m: nat): real
    requires m <= |x| && from + m <= |w|
  {
    if m == 0 then 0.0 else Dot(x, w, from, m - 1) + Times(x[m - 1], w[from + m - 1])
  }

  /** How much of column `j` lies before flat position `c`. */
  ghost function Reach(n: nat, j: nat, c: nat): (m: nat)
    requires n > 0
    ensures m <= n
  {
    if c <= j * n then 0 else if c >= j * n + n then n else c - j * n
  }

  /** The share of column `j` that the first `c` flat elements hold. */
  ghost function Part(x: seq<real>, w: seq<real>, j: nat, c: nat): real
    requires |x| > 0 && c <= |w|
  {
    Dot(x, w, if Reach(|x|, j, c) == 0 then 0 else j * |x|, Reach(|x|, j, c))
  }

  // ---------------------------------------------------------------------
  // One block
  // ---------------------------------------------------------------------

  lemma ReachAlong(n: nat, j: nat, i: nat, run: nat)
    requires n > 0 && i + run <= n
    ensures Reach(n, j, j * n + i) == i && Reach(n, j, j * n + i + run) == i + run
  {
  }

  lemma ReachElsewhere(n: nat, c: nat, j: nat, i: nat, run: nat)
    requires n > 0 && c != j && i + run <= n
    ensures Reach(n, c, j * n + i) == Reach(n, c, j * n + i + run)
  {
    if c < j {
      MulAdd(c, 1, n);
      MulMono(c + 1, j, n);
    } else {
      MulAdd(j, 1, n);
      MulMono(j + 1, c, n);
    }
  }

  /** A run inside column `j` changes what is known of that column only. */
  lemma PartRun(x: seq<real>, w: seq<real>, j: nat, i: nat, run: nat, c: nat)
    requires |x| > 0 && i + run <= |x| && j * |x| + i + run <= |w|
    ensures Part(x, w, c, j * |x| + i + run) - Part(x, w, c, j * |x| + i) ==
      if c == j then Dot(x, w, j * |x|, i + run) - Dot(x, w, j * |x|, i) else 0.0
  {
    hide Reach;
    if c == j {
      ReachAlong(|x|, j, i, run);
    } else {
      ReachElsewhere(|x|, c, j, i, run);
    }
  }

  lemma ColumnInside(pos: nat, n: nat, out: nat)
    requires n > 0 && pos < n * out
    ensures pos / n < out
  {
    BlockInside(pos, n, 0, out);
  }

  /** Every column of `after` has gained its share of the flat elements from `lo` to `hi`. */
  ghost predicate Grew(x: seq<real>, w: seq<real>, before: seq<real>, after: seq<real>, lo: nat, hi: nat)
    requires |x| > 0 && lo <= |w| && hi <= |w|
  {
    |after| == |before| && forall c :: 0 <= c < |before| ==>
      after[c] == before[c] + Part(x, w, c, hi) - Part(x, w, c, lo)
  }

  lemma GrewOn(x: seq<real>, w: seq<real>, a: seq<real>, b: seq<real>, c: seq<real>, lo: nat, mid: nat, hi: nat)
    requires |x| > 0 && lo <= |w| && mid <= |w| && hi <= |w|
    requires Grew(x, w, a, b, lo, mid) && Grew(x, w, b, c, mid, hi)
    ensures Grew(x, w, a, c, lo, hi)
  {
    hide Part;
  }

  lemma GrewRun(x: seq<real>, w: seq<real>, before: seq<real>, after: seq<real>, j: nat, i: nat, run: nat)
    requires |x| > 0 && i + run <= |x| && j * |x| + i + run <= |w| && j < |before|
    requires after == before[j := before[j] + (Dot(x, w, j * |x|, i + run) - Dot(x, w, j * |x|, i))]
    ensures Grew(x, w, before, after, j * |x| + i, j * |x| + i + run)
  {
    hide Part, Dot;
    forall c | 0 <= c < |before|
      ensures after[c] == before[c] + Part(x, w, c, j * |x| + i + run) - Part(x, w, c, j * |x| + i)
    {
      PartRun(x, w, j, i, run, c);
    }
  }

  /** The zipped inner loop: `run` products, summed from zero. */
  method RunDot(x: seq<real>, i: nat, buf: seq<real>, t: nat, run: nat, ghost w: seq<real>, ghost from: nat)
      returns (s: real)
    requires i + run <= |x| && t + run <= |buf| && from + i + run <= |w|
    requires forall a :: t <= a < t + run ==> buf[a] == w[from + i + (a - t)]
    ensures s == Dot(x, w, from, i + run) - Dot(x, w, from, i)
  {
    hide Times;
    s := 0.0;
    for a := 0 to run
      invariant s == Dot(x, w, from, i + a) - Dot(x, w, from, i)
    {
      assert buf[t + a] == w[from + i + a];
      s := s + Times(x[i + a], buf[t + a]);
    }
  }

  /** The runs loop over one decoded block that starts at flat position `base`. */
  method AddBlock(x: seq<real>, buf: seq<real>, base: nat, acc: array<real>, ghost w: seq<real>)
    requires |x| > 0 && base + |buf| <= |w| <= |x| * acc.Length
    requires forall a :: 0 <= a < |buf| ==> buf[a] == w[base + a]
    modifies acc
    ensures Grew(x, w, old(acc[..]), acc[..], base, base + |buf|)
  {
    hide Part, Dot;
    var n := |x|;
    var t: nat, j: nat, i: nat := 0, base / n, base % n;
    while t < |buf|
      invariant t <= |buf| && i < n && base + t == j * n + i
      invariant Grew(x, w, old(acc[..]), acc[..], base, base + t)
    {
      var run := if n - i < |buf| - t then n - i else |buf| - t;
      DivModUnique(base + t, n, j, i);
      ColumnInside(base + t, n, acc.Length);
      ghost var before := acc[..];
      var s := RunDot(x, i, buf, t, run, w, j * n);
      acc[j] := acc[j] + s;
      GrewRun(x, w, before, acc[..], j, i, run);
      GrewOn(x, w, old(acc[..]), before, acc[..], base, base + t, base + t + run);
      t, i := t + run, i + run;
      if i == n {
        MulAdd(j, 1, n);
        i, j := 0, j + 1;
      }
    }
  }

  // ---------------------------------------------------------------------
  // The serial kernel
  // ---------------------------------------------------------------------

  /** The answer: every column's share of the decoded elements, the whole dot product where the blocks cover it. */
  ghost predicate Product(x: seq<real>, w: seq<real>, y: seq<real>)
    requires |x| > 0
  {
    forall c :: 0 <= c < |y| ==> y[c] == Part(x, w, c, |w|)
  }

  /** When the blocks cover the matrix exactly, each column is the dot product of `x` with its decoded weights. */
  lemma ProductIsColumns(x: seq<real>, w: seq<real>, y: seq<real>, c: nat)
    requires |x| > 0 && |w| == |x| * |y| && Product(x, w, y) && c < |y|
    ensures c * |x| + |x| <= |w| && y[c] == Dot(x, w, c * |x|, |x|)
  {
    hide Dot;
    MulAdd(c, 1, |x|);
    MulMono(c + 1, |y|, |x|);
  }

  lemma Fresh(x: seq<real>, w: seq<real>, c: nat)
    requires |x| > 0
    ensures Part(x, w, c, 0) == 0.0
  {
    assert c * |x| >= 0;
  }

  lemma GrewAll(x: seq<real>, w: seq<real>, zeros: seq<real>, y: seq<real>)
    requires |x| > 0 && (forall c :: 0 <= c < |zeros| ==> zeros[c] == 0.0) && Grew(x, w, zeros, y, 0, |w|)
    ensures Product(x, w, y)
  {
    hide Part;
    forall c | 0 <= c < |y| ensures y[c] == Part(x, w, c, |w|) {
      Fresh(x, w, c);
    }
  }

  /** A decoded block is its stretch of the decoded weights. */
  lemma BlockIsStretch(c: Codec, raw: seq<Byte>, nb: nat, b: nat)
    requires c.Valid() && nb * c.bytes <= |raw| && b < nb
    ensures b * c.bytes + c.bytes <= |raw| && b * c.elems + c.elems <= nb * c.elems
    ensures var buf := c.decode(BlockOf(raw, b, c.bytes));
            |buf| == c.elems && forall a :: 0 <= a < |buf| ==> buf[a] == Weights(c, raw, nb)[b * c.elems + a]
  {
    MulAdd(b, 1, c.bytes);
    MulMono(b + 1, nb, c.bytes);
    MulAdd(b, 1, c.elems);
    MulMono(b + 1, nb, c.elems);
    forall a | 0 <= a < c.elems ensures c.decode(BlockOf(raw, b, c.bytes))[a] == Weights(c, raw, nb)[b * c.elems + a] {
      DivModUnique(b * c.elems + a, c.elems, b, a);
    }
  }

  /** Decode block `b` and add it in. */
  method StepBlock(c: Codec, x: seq<real>, raw: seq<Byte>, ghost nb: nat, b: nat, acc: array<real>)
    requires c.Valid() && |x| > 0 && nb * c.bytes <= |raw| && nb * c.elems <= |x| * acc.Length && b < nb
    modifies acc
    ensures b * c.elems + c.elems <= nb * c.elems
    ensures Grew(x, Weights(c, raw, nb), old(acc[..]), acc[..], b * c.elems, b * c.elems + c.elems)
  {
    hide Part, Dot, Grew, Weights;
    BlockIsStretch(c, raw, nb, b);
    var buf := c.decode(raw[b * c.bytes..b * c.bytes + c.bytes]);
    AddBlock(x, buf, b * c.elems, acc, Weights(c, raw, nb));
  }

  method MatvecBlockedSerial(c: Codec, x: seq<real>, raw: seq<Byte>, outDim: nat) returns (y: seq<real>)
    requires c.Valid() && |x| > 0 && |x| * outDim / c.elems * c.bytes <= |raw|
    ensures |y| == outDim
    ensures Product(x, Weights(c, raw, |x| * outDim / c.elems), y)
  {
    hide Part, Dot, Grew, Weights, Product;
    var nb := |x| * outDim / c.elems;
    ghost var w := Weights(c, raw, nb);
    var acc := new real[outDim](_ => 0.0);
    ghost var zeros := acc[..];
    GrewNone(x, w, zeros);
    for b := 0 to nb
      invariant b * c.elems <= nb * c.elems
      invariant Grew(x, w, zeros, acc[..], 0, b * c.elems)
    {
      ghost var before := acc[..];
      StepBlock(c, x, raw, nb, b, acc);
      MulAdd(b, 1, c.elems);
      GrewOn(x, w, zeros, before, acc[..], 0, b * c.elems, b * c.elems + c.elems);
    }
    y := acc[..];
    GrewAll(x, w, zeros, y);
  }

  lemma GrewNone(x: seq<real>, w: seq<real>, a: seq<real>)
    requires |x| > 0
    ensures Grew(x, w, a, a, 0, 0)
  {
  }

  // ---------------------------------------------------------------------
  // The dot product
  // ---------------------------------------------------------------------

  /** It reads out one weight where `x` is a unit vector, ... */
  lemma {:induction false} DotUnit(x: seq<real>, w: seq<real>, from: nat, m: nat, k: nat)
    requires m <= |x| && from + m <= |w| && k < |x|
    requires forall i :: 0 <= i < |x| ==> x[i] == if i == k then 1.0 else 0.0
    ensures Dot(x, w, from, m) == if k < m then w[from + k] else 0.0
  {
    if m > 0 {
      DotUnit(x, w, from, m - 1, k);
    }
  }

  /** ... and is linear in it. */
  lemma {:induction false} DotLinear(x: seq<real>, y: seq<real>, z: seq<real>, a: real, w: seq<real>, from: nat, m: nat)
    requires m <= |x| == |y| == |z| && from + m <= |w|
    requires forall i :: 0 <= i < m ==> z[i] == Times(a, x[i]) + y[i]
    ensures Dot(z, w, from, m) == Times(a, Dot(x, w, from, m)) + Dot(y, w, from, m)
  {
    if m > 0 {
      DotLinear(x, y, z, a, w, from, m - 1);
      hide Dot;
      Spread(a, x[m - 1], y[m - 1], w[from + m - 1], Dot(x, w, from, m - 1));
    }
  }

  lemma Spread(a: real, x: real, y: real, w: real, rest: real)
    ensures Times(Times(a, x) + y, w) == Times(a, Times(x, w)) + Times(y, w)
    ensures Times(a, rest + Times(x, w)) == Times(a, rest) + Times(a, Times(x, w))
  {
  }
}
