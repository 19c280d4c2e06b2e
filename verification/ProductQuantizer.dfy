/**
  The product quantiser (src/rag.rs:186-280). Floats are reals, so the checks that refuse
  NaN and infinities have nothing to refuse here.
*/
module ProductQuantizer {
  import opened Prelude
  import opened Arith

  type Vector = seq<real>

  /** `f32::MAX`, the distance the search starts from. */
  const MAX: real := 340282346638528859811704183484516925440.0

  datatype PqError =
    | NoSubvectors
    | ZeroDimension
    | Indivisible
    | BadGeometry
    | CodesLength
    | CodeRange
    | DivideByZero // not an answer of the source: it panics

  /** `pq_validate`: subvector length and centroids per subvector. */
  function Validate(d: nat, nsub: nat, rows: nat, cols: nat): Result<(nat, nat), PqError> {
    if nsub == 0 then Err(NoSubvectors)
    else if d == 0 || rows == 0 || cols == 0 then Err(ZeroDimension)
    else if d % nsub != 0 then Err(Indivisible)
    else if rows % nsub != 0 then Err(BadGeometry)
    else if rows / nsub > 65536 then Err(BadGeometry)
    else if cols != d / nsub then Err(BadGeometry)
    else Ok((d / nsub, rows / nsub))
  }

  // ---------------------------------------------------------------------
  // Geometry
  // ---------------------------------------------------------------------

  /** `nsub` subvectors of length `dim`, `k` centroids for each. */
  datatype Grid = Grid(nsub: nat, k: nat, dim: nat)

  predicate Fits(g: Grid, vec: Vector, book: Vector) {
    |vec| == g.nsub * g.dim && |book| == g.nsub * g.k * g.dim
  }

  lemma SubInside(g: Grid, s: nat)
    requires s < g.nsub
    ensures s * g.dim + g.dim <= g.nsub * g.dim
  {
    MulAdd(s, 1, g.dim);
    MulMono(s + 1, g.nsub, g.dim);
  }

  lemma RowInside(g: Grid, s: nat, c: nat)
    requires s < g.nsub && c < g.k
    ensures (s * g.k + c) * g.dim + g.dim <= g.nsub * g.k * g.dim
  {
    MulAdd(s, 1, g.k);
    MulMono(s + 1, g.nsub, g.k);
    MulAdd(s * g.k + c, 1, g.dim);
    MulMono(s * g.k + c + 1, g.nsub * g.k, g.dim);
  }

  function Sub(g: Grid, vec: Vector, s: nat): (r: Vector)
    requires |vec| == g.nsub * g.dim && s < g.nsub
    ensures |r| == g.dim
  {
    SubInside(g, s);
    vec[s * g.dim..s * g.dim + g.dim]
  }

  function Centroid(g: Grid, book: Vector, s: nat, c: nat): (r: Vector)
    requires |book| == g.nsub * g.k * g.dim && s < g.nsub && c < g.k
    ensures |r| == g.dim
  {
    RowInside(g, s, c);
    book[(s * g.k + c) * g.dim..(s * g.k + c) * g.dim + g.dim]
  }

  function Square(x: real): real {
    Times(x, x)
  }

  /** Squared distance. */
  function Dist(a: Vector, b: Vector): real
    requires |a| == |b|
  {
    if a == [] then 0.0 else Dist(a[..|a| - 1], b[..|b| - 1]) + Square(a[|a| - 1] - b[|b| - 1])
  }

  /** Distance of subvector `s` to its centroid `c`. */
  function Gap(g: Grid, vec: Vector, book: Vector, s: nat, c: nat): real
    requires Fits(g, vec, book) && s < g.nsub && c < g.k
  {
    Dist(Sub(g, vec, s), Centroid(g, book, s, c))
  }

  predicate Codes(g: Grid, codes: seq<nat>) {
    |codes| == g.nsub && forall s :: 0 <= s < |codes| ==> codes[s] < g.k
  }

  /** The centroids of the first `n` codes, end to end. */
  function Join(g: Grid, book: Vector, codes: seq<nat>, n: nat): (r: Vector)
    requires |book| == g.nsub * g.k * g.dim && Codes(g, codes) && n <= g.nsub
    ensures |r| == n * g.dim
  {
    if n == 0 then []
    else
      MulAdd(n - 1, 1, g.dim);
      Join(g, book, codes, n - 1) + Centroid(g, book, n - 1, codes[n - 1])
  }

  /** What the codes stand for. */
  function Decoded(g: Grid, book: Vector, codes: seq<nat>): (r: Vector)
    requires |book| == g.nsub * g.k * g.dim && Codes(g, codes)
    ensures |r| == g.nsub * g.dim
  {
    Join(g, book, codes, g.nsub)
  }

  // ---------------------------------------------------------------------
  // The search
  // ---------------------------------------------------------------------

  /** Index and distance after the first `n` centroids. */
  function Search(g: Grid, vec: Vector, book: Vector, s: nat, n: nat): (r: (nat, real))
    requires Fits(g, vec, book) && s < g.nsub && n <= g.k
  {
    if n == 0 then (0, MAX)
    else
      var best := Search(g, vec, book, s, n - 1);
      if Gap(g, vec, book, s, n - 1) < best.1 then (n - 1, Gap(g, vec, book, s, n - 1)) else best
  }

  /** `c` is the first of the nearest centroids. */
  ghost predicate First(g: Grid, vec: Vector, book: Vector, s: nat, c: nat)
    requires Fits(g, vec, book) && s < g.nsub
  {
    && c < g.k
    && (forall e :: 0 <= e < g.k ==> Gap(g, vec, book, s, c) <= Gap(g, vec, book, s, e))
    && (forall e :: 0 <= e < c ==> Gap(g, vec, book, s, c) < Gap(g, vec, book, s, e))
  }

  /** Some centroid is nearer than the distance the search starts from. */
  ghost predicate InReach(g: Grid, vec: Vector, book: Vector, s: nat)
    requires Fits(g, vec, book) && s < g.nsub
  {
    exists c :: 0 <= c < g.k && Gap(g, vec, book, s, c) < MAX
  }

  lemma {:induction false} SearchIs(g: Grid, vec: Vector, book: Vector, s: nat, n: nat)
    requires Fits(g, vec, book) && s < g.nsub && n <= g.k
    ensures var (c, d) := Search(g, vec, book, s, n);
            && (forall e :: 0 <= e < n ==> d <= Gap(g, vec, book, s, e))
            && ((c == 0 && d == MAX) || (c < n && d == Gap(g, vec, book, s, c) < MAX))
            && (forall e :: 0 <= e < c ==> d < Gap(g, vec, book, s, e))
  {
    hide Gap, Fits;
    if n > 0 {
      SearchIs(g, vec, book, s, n - 1);
    }
  }

  /**
    The search ends on the first nearest centroid exactly when one is in reach or number 0
    is nearest anyway; out of reach it stays on 0.
  */
  lemma NearestExactly(g: Grid, vec: Vector, book: Vector, s: nat)
    requires Fits(g, vec, book) && s < g.nsub && g.k > 0
    ensures First(g, vec, book, s, Search(g, vec, book, s, g.k).0) <==>
        InReach(g, vec, book, s) || First(g, vec, book, s, 0)
    ensures !InReach(g, vec, book, s) ==> Search(g, vec, book, s, g.k).0 == 0
  {
    hide Gap, Fits;
    SearchIs(g, vec, book, s, g.k);
  }

  /** The codes `pq_encode` gives, cut to `u16`. */
  function Encoded(g: Grid, vec: Vector, book: Vector): (codes: seq<nat>)
    requires Fits(g, vec, book)
    ensures |codes| == g.nsub
  {
    seq(g.nsub, s requires 0 <= s < g.nsub => Search(g, vec, book, s, g.k).0 % 65536)
  }

  /** A geometry that validation admits. */
  predicate Sound(g: Grid) {
    g.nsub > 0 && g.dim > 0 && 0 < g.k <= 65536
  }

  lemma EncodedIs(g: Grid, vec: Vector, book: Vector)
    requires Fits(g, vec, book) && Sound(g)
    ensures Codes(g, Encoded(g, vec, book))
    ensures forall s :: 0 <= s < g.nsub ==> Encoded(g, vec, book)[s] == Search(g, vec, book, s, g.k).0
  {
    hide Search, Fits;
    forall s | 0 <= s < g.nsub
      ensures Encoded(g, vec, book)[s] == Search(g, vec, book, s, g.k).0 < g.k
    {
      SearchIs(g, vec, book, s, g.k);
    }
  }

  // ---------------------------------------------------------------------
  // The codes minimise the total error
  // ---------------------------------------------------------------------

  lemma {:induction false} DistSplit(a: Vector, b: Vector, c: Vector, d: Vector)
    requires |a| == |b| && |c| == |d|
    ensures Dist(a + c, b + d) == Dist(a, b) + Dist(c, d)
    decreases |c|
  {
    if c == [] {
      assert a + c == a && b + d == b;
    } else {
      var n := |c| - 1;
      assert (a + c)[..|a + c| - 1] == a + c[..n] && (b + d)[..|b + d| - 1] == b + d[..n];
      DistSplit(a, b, c[..n], d[..n]);
    }
  }

  /** Sum of the gaps of the first `n` codes. */
  ghost function Total(g: Grid, vec: Vector, book: Vector, codes: seq<nat>, n: nat): real
    requires Fits(g, vec, book) && Codes(g, codes) && n <= g.nsub
  {
    if n == 0 then 0.0 else Total(g, vec, book, codes, n - 1) + Gap(g, vec, book, n - 1, codes[n - 1])
  }

  lemma {:induction false} ErrorIsTotal(g: Grid, vec: Vector, book: Vector, codes: seq<nat>, n: nat)
    requires Fits(g, vec, book) && Codes(g, codes) && n <= g.nsub
    ensures n * g.dim <= |vec| && Dist(vec[..n * g.dim], Join(g, book, codes, n)) == Total(g, vec, book, codes, n)
    decreases n
  {
    MulMono(n, g.nsub, g.dim);
    if n > 0 {
      var cut := (n - 1) * g.dim;
      MulAdd(n - 1, 1, g.dim);
      ErrorIsTotal(g, vec, book, codes, n - 1);
      DistSplit(vec[..cut], Join(g, book, codes, n - 1), Sub(g, vec, n - 1), Centroid(g, book, n - 1, codes[n - 1]));
      assert vec[..n * g.dim] == vec[..cut] + Sub(g, vec, n - 1);
    }
  }

  /** Squared error of the whole vector against what the codes stand for. */
  ghost function Error(g: Grid, vec: Vector, book: Vector, codes: seq<nat>): real
    requires Fits(g, vec, book) && Codes(g, codes)
  {
    Dist(vec, Decoded(g, book, codes))
  }

  lemma ErrorIs(g: Grid, vec: Vector, book: Vector, codes: seq<nat>)
    requires Fits(g, vec, book) && Codes(g, codes)
    ensures Error(g, vec, book, codes) == Total(g, vec, book, codes, g.nsub)
  {
    hide Dist, Total;
    ErrorIsTotal(g, vec, book, codes, g.nsub);
    assert vec[..g.nsub * g.dim] == vec;
  }

  lemma {:induction false} TotalMono(g: Grid, vec: Vector, book: Vector, a: seq<nat>, b: seq<nat>, n: nat)
    requires Fits(g, vec, book) && Codes(g, a) && Codes(g, b) && n <= g.nsub
    requires forall s :: 0 <= s < n ==> Gap(g, vec, book, s, a[s]) <= Gap(g, vec, book, s, b[s])
    ensures Total(g, vec, book, a, n) <= Total(g, vec, book, b, n)
    ensures (exists s :: 0 <= s < n && Gap(g, vec, book, s, a[s]) < Gap(g, vec, book, s, b[s]))
            ==> Total(g, vec, book, a, n) < Total(g, vec, book, b, n)
    decreases n
  {
    hide Gap, Fits;
    if n > 0 {
      TotalMono(g, vec, book, a, b, n - 1);
    }
  }

  ghost predicate Optimal(g: Grid, vec: Vector, book: Vector, codes: seq<nat>)
    requires Fits(g, vec, book) && Codes(g, codes)
  {
    forall other :: Codes(g, other) ==> Error(g, vec, book, codes) <= Error(g, vec, book, other)
  }

  /**
    No code vector has a smaller total error than the encoder's, exactly when in every
    subspace some centroid is in reach or number 0 is nearest anyway.
  */
  lemma EncodedIsOptimal(g: Grid, vec: Vector, book: Vector)
    requires Fits(g, vec, book) && Sound(g)
    ensures Codes(g, Encoded(g, vec, book))
    ensures Optimal(g, vec, book, Encoded(g, vec, book)) <==>
              forall s :: 0 <= s < g.nsub ==> InReach(g, vec, book, s) || First(g, vec, book, s, 0)
  {
    hide Gap, Fits, Search, Error, Total, Encoded, First, InReach;
    var codes := Encoded(g, vec, book);
    EncodedIs(g, vec, book);
    if forall s :: 0 <= s < g.nsub ==> InReach(g, vec, book, s) || First(g, vec, book, s, 0) {
      forall other | Codes(g, other) ensures Error(g, vec, book, codes) <= Error(g, vec, book, other) {
        forall s | 0 <= s < g.nsub ensures Gap(g, vec, book, s, codes[s]) <= Gap(g, vec, book, s, other[s]) {
          NearestExactly(g, vec, book, s);
          FirstIsLeast(g, vec, book, s, codes[s], other[s]);
        }
        ErrorIs(g, vec, book, codes);
        ErrorIs(g, vec, book, other);
        TotalMono(g, vec, book, codes, other, g.nsub);
      }
    } else {
      var s :| 0 <= s < g.nsub && !InReach(g, vec, book, s) && !First(g, vec, book, s, 0);
      NearestExactly(g, vec, book, s);
      var c := Better(g, vec, book, s);
      var other := codes[s := c];
      ErrorIs(g, vec, book, codes);
      ErrorIs(g, vec, book, other);
      TotalMono(g, vec, book, other, codes, g.nsub);
      assert Error(g, vec, book, other) < Error(g, vec, book, codes);
    }
  }

  lemma FirstIsLeast(g: Grid, vec: Vector, book: Vector, s: nat, c: nat, e: nat)
    requires Fits(g, vec, book) && s < g.nsub && e < g.k && First(g, vec, book, s, c)
    ensures Gap(g, vec, book, s, c) <= Gap(g, vec, book, s, e)
  {
  }

  lemma Better(g: Grid, vec: Vector, book: Vector, s: nat) returns (c: nat)
    requires Fits(g, vec, book) && s < g.nsub && g.k > 0 && !First(g, vec, book, s, 0)
    ensures c < g.k && Gap(g, vec, book, s, c) < Gap(g, vec, book, s, 0)
  {
    hide Gap, Fits;
    c :| 0 <= c < g.k && Gap(g, vec, book, s, c) < Gap(g, vec, book, s, 0);
  }

  // ---------------------------------------------------------------------
  // Encoding what was decoded
  // ---------------------------------------------------------------------

  lemma {:induction false} DistZero(a: Vector, b: Vector)
    requires |a| == |b|
    ensures Dist(a, b) >= 0.0 && (Dist(a, b) == 0.0 <==> a == b)
  {
    if a != [] {
      var n := |a| - 1;
      DistZero(a[..n], b[..n]);
      assert a == a[..n] + [a[n]] && b == b[..n] + [b[n]];
      SquareZero(a[n] - b[n]);
    }
  }

  lemma SquareZero(x: real)
    ensures Square(x) >= 0.0 && (Square(x) == 0.0 <==> x == 0.0)
  {
    hide Square;
    if x > 0.0 {
      SquarePositive(x);
    } else if x < 0.0 {
      SquareFlip(x);
      SquarePositive(-x);
    } else {
      SquareNone();
    }
  }

  lemma SquarePositive(y: real)
    requires y > 0.0
    ensures Square(y) > 0.0
  {
    hide Times;
    Positive(y, y);
  }

  lemma Positive(a: real, b: real)
    requires a > 0.0 && b > 0.0
    ensures Times(a, b) > 0.0 && Times(-a, -b) == Times(a, b)
  {
  }

  lemma SquareFlip(y: real)
    ensures Square(y) == Square(-y)
  {
  }

  lemma SquareNone()
    ensures Square(0.0) == 0.0
  {
  }

  lemma {:induction false} JoinSub(g: Grid, book: Vector, codes: seq<nat>, n: nat, s: nat)
    requires |book| == g.nsub * g.k * g.dim && Codes(g, codes) && s < n <= g.nsub
    ensures s * g.dim + g.dim <= n * g.dim
    ensures Join(g, book, codes, n)[s * g.dim..s * g.dim + g.dim] == Centroid(g, book, s, codes[s])
    decreases n
  {
    hide Centroid;
    MulAdd(n - 1, 1, g.dim);
    var front := Join(g, book, codes, n - 1);
    if s < n - 1 {
      JoinSub(g, book, codes, n - 1, s);
      assert Join(g, book, codes, n)[s * g.dim..s * g.dim + g.dim] == front[s * g.dim..s * g.dim + g.dim];
    }
  }

  /** A subvector of the decoded vector is the centroid its code names. */
  lemma DecodedSub(g: Grid, book: Vector, codes: seq<nat>, s: nat)
    requires |book| == g.nsub * g.k * g.dim && Codes(g, codes) && s < g.nsub
    ensures Sub(g, Decoded(g, book, codes), s) == Centroid(g, book, s, codes[s])
  {
    hide Centroid;
    JoinSub(g, book, codes, g.nsub, s);
  }

  /** No earlier centroid equals the one code `s` names. */
  ghost predicate Leading(g: Grid, book: Vector, codes: seq<nat>, s: nat)
    requires |book| == g.nsub * g.k * g.dim && Codes(g, codes) && s < g.nsub
  {
    forall e :: 0 <= e < codes[s] ==> Centroid(g, book, s, e) != Centroid(g, book, s, codes[s])
  }

  lemma EncodeDecodedOne(g: Grid, book: Vector, codes: seq<nat>, s: nat)
    requires |book| == g.nsub * g.k * g.dim && Codes(g, codes) && Sound(g) && s < g.nsub
    ensures Fits(g, Decoded(g, book, codes), book)
    ensures Search(g, Decoded(g, book, codes), book, s, g.k).0 == codes[s] <==> Leading(g, book, codes, s)
  {
    hide Centroid, Dist, Decoded, Sub;
    var vec := Decoded(g, book, codes);
    DecodedSub(g, book, codes, s);
    forall e | 0 <= e < g.k
      ensures Gap(g, vec, book, s, e) >= 0.0
      ensures Gap(g, vec, book, s, e) == 0.0 <==> Centroid(g, book, s, e) == Centroid(g, book, s, codes[s])
    {
      DistZero(Sub(g, vec, s), Centroid(g, book, s, e));
    }
    SearchIs(g, vec, book, s, g.k);
  }

  /** Encoding a decoded vector gives its codes back exactly when each code is the first of its centroid. */
  lemma EncodeOfDecode(g: Grid, book: Vector, codes: seq<nat>)
    requires |book| == g.nsub * g.k * g.dim && Codes(g, codes) && Sound(g)
    ensures Fits(g, Decoded(g, book, codes), book)
    ensures Encoded(g, Decoded(g, book, codes), book) == codes <==>
        forall s :: 0 <= s < g.nsub ==> Leading(g, book, codes, s)
  {
    hide Search, Decoded, Leading, Encoded;
    var vec := Decoded(g, book, codes);
    EncodedIs(g, vec, book);
    forall s | 0 <= s < g.nsub ensures Encoded(g, vec, book)[s] == codes[s] <==> Leading(g, book, codes, s) {
      EncodeDecodedOne(g, book, codes, s);
    }
  }

  /** Decoding after encoding is a projection: a second round changes nothing, for any vector. */
  lemma Projection(g: Grid, vec: Vector, book: Vector)
    requires Fits(g, vec, book) && Sound(g)
    ensures Codes(g, Encoded(g, vec, book)) && Fits(g, Decoded(g, book, Encoded(g, vec, book)), book)
    ensures Encoded(g, Decoded(g, book, Encoded(g, vec, book)), book) == Encoded(g, vec, book)
  {
    hide Search, Decoded, Gap, Encoded, Centroid, Sub, Dist;
    var codes := Encoded(g, vec, book);
    EncodedIs(g, vec, book);
    forall s | 0 <= s < g.nsub ensures Leading(g, book, codes, s) {
      EncodedLeads(g, vec, book, s);
    }
    EncodeOfDecode(g, book, codes);
  }

  lemma EncodedLeads(g: Grid, vec: Vector, book: Vector, s: nat)
    requires Fits(g, vec, book) && Sound(g) && s < g.nsub
    ensures var c := Search(g, vec, book, s, g.k).0;
            c < g.k && forall e :: 0 <= e < c ==> Centroid(g, book, s, e) != Centroid(g, book, s, c)
  {
    hide Centroid, Sub, Dist, Search;
    SearchIs(g, vec, book, s, g.k);
    var c := Search(g, vec, book, s, g.k).0;
    forall e | 0 <= e < c ensures Centroid(g, book, s, e) != Centroid(g, book, s, c) {
      assert Gap(g, vec, book, s, e) != Gap(g, vec, book, s, c);
    }
  }

  /** Out of reach the search misses: here number 1 is nearer, and 0 is given. */
  lemma FarMissed() returns (g: Grid, vec: Vector, book: Vector)
    ensures Fits(g, vec, book) && Sound(g) && (forall i :: 0 <= i < |vec| ==> vec[i] < MAX)
    ensures Codes(g, Encoded(g, vec, book)) && !Optimal(g, vec, book, Encoded(g, vec, book))
  {
    g, vec, book := Grid(1, 2, 1), [200000000000000000000000000000.0], [0.0, 100000000000000000000000000000.0];
    assert Sub(g, vec, 0) == vec && Centroid(g, book, 0, 0) == [0.0] && Centroid(g, book, 0, 1) == [book[1]];
    assert vec[..0] == [] && book[..0] == [];
    assert Gap(g, vec, book, 0, 0) == Square(vec[0] - 0.0) && Gap(g, vec, book, 0, 1) == Square(vec[0] - book[1]);
    assert !InReach(g, vec, book, 0) && !First(g, vec, book, 0, 0);
    EncodedIsOptimal(g, vec, book);
  }

  // ---------------------------------------------------------------------
  // The functions of the source
  // ---------------------------------------------------------------------

  /** The geometry `pq_encode` infers from the lengths. */
  function Infer(d: nat, len: nat, nsub: nat): Result<Grid, PqError> {
    if nsub == 0 then Err(NoSubvectors)
    else if d % nsub != 0 then Err(Indivisible)
    else if d / nsub == 0 then Err(DivideByZero)
    else if len % (d / nsub) != 0 || len / (d / nsub) % nsub != 0 then Err(BadGeometry)
    else Ok(Grid(nsub, len / (d / nsub) / nsub, d / nsub))
  }

  lemma InferFits(vec: Vector, book: Vector, nsub: nat)
    requires Infer(|vec|, |book|, nsub).Ok?
    ensures Fits(Infer(|vec|, |book|, nsub).value, vec, book)
  {
    var dim := |vec| / nsub;
    var rows := |book| / dim;
    Whole(|vec|, nsub);
    Whole(|book|, dim);
    Whole(rows, nsub);
  }

  lemma Whole(x: nat, n: nat)
    requires n > 0 && x % n == 0
    ensures x == n * (x / n) == x / n * n
  {
  }

  /** Zipped squares of one subvector against one centroid, summed. */
  method Distance(v: Vector, cent: Vector) returns (d: real)
    requires |v| == |cent|
    ensures d == Dist(v, cent)
  {
    hide Square;
    d := 0.0;
    for i := 0 to |v|
      invariant d == Dist(v[..i], cent[..i])
    {
      assert v[..i + 1][..i] == v[..i] && cent[..i + 1][..i] == cent[..i];
      d := d + Square(v[i] - cent[i]);
    }
    assert v[..|v|] == v && cent[..|cent|] == cent;
  }

  /** `pq_encode`. */
  method PqEncode(vec: Vector, book: Vector, nsub: nat) returns (r: Result<seq<nat>, PqError>)
    ensures Infer(|vec|, |book|, nsub).Err? ==> r == Err(Infer(|vec|, |book|, nsub).error)
    ensures Infer(|vec|, |book|, nsub).Ok? ==>
              var g := Infer(|vec|, |book|, nsub).value; Fits(g, vec, book) && r == Ok(Encoded(g, vec, book))
  {
    hide Fits, Search, Infer;
    var grid := Infer(|vec|, |book|, nsub);
    if grid.Err? {
      return Err(grid.error);
    }
    InferFits(vec, book, nsub);
    var g := grid.value;
    var codes: seq<nat> := [];
    InferNsub(|vec|, |book|, nsub);
    for s := 0 to nsub
      invariant |codes| == s && forall t :: 0 <= t < s ==> codes[t] == Encoded(g, vec, book)[t]
    {
      var best := FindBest(g, vec, book, s);
      codes := codes + [best % 65536];
    }
    assert codes == Encoded(g, vec, book);
    r := Ok(codes);
  }

  lemma InferNsub(d: nat, len: nat, nsub: nat)
    requires Infer(d, len, nsub).Ok?
    ensures Infer(d, len, nsub).value.nsub == nsub
  {
  }

  /** The inner loops of `pq_encode`. */
  method FindBest(g: Grid, vec: Vector, book: Vector, s: nat) returns (best: nat)
    requires Fits(g, vec, book) && s < g.nsub
    ensures best == Search(g, vec, book, s, g.k).0
  {
    hide Dist, Sub, Centroid;
    best := 0;
    var bestD := MAX;
    for c := 0 to g.k
      invariant best == Search(g, vec, book, s, c).0 && bestD == Search(g, vec, book, s, c).1
    {
      var d := Distance(Sub(g, vec, s), Centroid(g, book, s, c));
      if d < bestD {
        bestD := d;
        best := c;
      }
    }
  }

  /** `pq_decode`. */
  method PqDecode(codes: seq<nat>, book: Vector, nsub: nat, dim: nat, k: nat) returns (r: Result<Vector, PqError>)
    ensures r == Err(CodesLength) <==> |codes| != nsub
    ensures r == Err(BadGeometry) <==> |codes| == nsub && |book| != nsub * k * dim
    ensures r == Err(CodeRange) <==> |codes| == nsub && |book| == nsub * k * dim && !Codes(Grid(nsub, k, dim), codes)
    ensures r.Ok? <==> |book| == nsub * k * dim && Codes(Grid(nsub, k, dim), codes)
    ensures r.Ok? ==> r == Ok(Decoded(Grid(nsub, k, dim), book, codes))
  {
    hide Centroid;
    var g := Grid(nsub, k, dim);
    if |codes| != nsub {
      return Err(CodesLength);
    }
    if |book| != nsub * k * dim {
      return Err(BadGeometry);
    }
    for i := 0 to |codes|
      invariant forall s :: 0 <= s < i ==> codes[s] < k
    {
      if codes[i] >= k {
        return Err(CodeRange);
      }
    }
    var out: Vector := [];
    for s := 0 to nsub
      invariant out == Join(g, book, codes, s)
    {
      out := out + Centroid(g, book, s, codes[s]);
    }
    r := Ok(out);
  }

  /** What validation admits, encoding and decoding accept with the same geometry. */
  lemma ValidateCovers(d: nat, nsub: nat, rows: nat, cols: nat)
    requires Validate(d, nsub, rows, cols).Ok?
    ensures var (dim, k) := Validate(d, nsub, rows, cols).value;
            Infer(d, rows * cols, nsub) == Ok(Grid(nsub, k, dim)) && Sound(Grid(nsub, k, dim))
              && rows * cols == nsub * k * dim
  {
    var dim := d / nsub;
    Whole(d, nsub);
    Whole(rows, nsub);
    DivModUnique(rows * cols, dim, rows, 0);
    assert rows > 0 && d > 0;
  }

  /** It admits exactly the geometries of `nsub` subvectors of `dim` numbers, with 1 to 65536 centroids each. */
  lemma ValidateExactly(d: nat, nsub: nat, rows: nat, cols: nat, dim: nat, k: nat)
    ensures Validate(d, nsub, rows, cols) == Ok((dim, k)) <==>
              nsub > 0 && dim > 0 && 0 < k <= 65536 && d == nsub * dim && rows == nsub * k && cols == dim
  {
    if nsub > 0 {
      if Validate(d, nsub, rows, cols).Ok? {
        Whole(d, nsub);
        Whole(rows, nsub);
      }
      if d == nsub * dim {
        DivModUnique(d, nsub, dim, 0);
      }
      if rows == nsub * k {
        DivModUnique(rows, nsub, k, 0);
      }
      NonZero(nsub, dim);
      NonZero(nsub, k);
    }
  }

  lemma NonZero(a: nat, b: nat)
    requires a > 0
    ensures a * b == 0 <==> b == 0
  {
  }

  /** The distance of single numbers is the square of their difference; DistSplit gives it for longer vectors. */
  lemma DistOne(x: real, y: real)
    ensures Dist([x], [y]) == (x - y) * (x - y)
  {
    assert [x][..0] == [] && [y][..0] == [];
  }

  /** Subvectors lie one after the other, ... */
  function SubAt(g: Grid, s: nat): nat {
    s * g.dim
  }

  /** ... and centroids by subvector, then by number. */
  function CentroidAt(g: Grid, s: nat, c: nat): nat {
    (s * g.k + c) * g.dim
  }

  lemma SubLies(g: Grid, vec: Vector, s: nat)
    requires |vec| == g.nsub * g.dim && s < g.nsub
    ensures IsStretch(vec, SubAt(g, s), Sub(g, vec, s))
  {
    hide IsStretch;
    SubInside(g, s);
    IsCut(vec, SubAt(g, s), g.dim);
  }

  lemma CentroidLies(g: Grid, book: Vector, s: nat, c: nat)
    requires |book| == g.nsub * g.k * g.dim && s < g.nsub && c < g.k
    ensures IsStretch(book, CentroidAt(g, s, c), Centroid(g, book, s, c))
  {
    hide IsStretch;
    RowInside(g, s, c);
    IsCut(book, CentroidAt(g, s, c), g.dim);
  }

  /** The numbers of `part` are those of `v` from `from` on. */
  ghost predicate IsStretch(v: Vector, from: nat, part: Vector) {
    from + |part| <= |v| && forall i :: 0 <= i < |part| ==> part[i] == v[from + i]
  }

  lemma IsCut(v: Vector, from: nat, n: nat)
    requires from + n <= |v|
    ensures IsStretch(v, from, v[from..from + n])
  {
  }
}
