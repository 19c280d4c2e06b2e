/** Products, powers and small facts about quotients and slices that the proofs share. */
module Arith {

  lemma MulMono(a: int, b: int, h: nat)
    requires a <= b
    ensures a * h <= b * h
  {
  }

  lemma MulAdd(a: int, b: int, h: int)
    ensures (a + b) * h == a * h + b * h && (a - b) * h == a * h - b * h
  {
  }

  lemma DivModUnique(x: int, h: int, q: int, r: int)
    requires h > 0 && x == q * h + r && 0 <= r < h
    ensures x / h == q && x % h == r
  {
    var d := x / h - q;
    MulAdd(x / h, q, h);
    assert d * h == r - x % h;
    if d >= 1 {
      MulMono(1, d, h);
    } else if d <= -1 {
      MulMono(d, -1, h);
    }
  }

  /** The part of `s` without `s[p..q]`, cut on either side of the gap. */
  lemma CutSlice<T>(s: seq<T>, p: nat, q: nat, x: nat, y: nat)
    requires p <= q <= |s| && x <= y <= p + |s| - q
    ensures y <= p ==> (s[..p] + s[q..])[x..y] == s[x..y]
    ensures p <= x ==> (s[..p] + s[q..])[x..y] == s[x - p + q..y - p + q]
  {
  }

  lemma SliceOfSlice<T>(s: seq<T>, a: nat, b: nat, x: nat, y: nat)
    requires a <= b <= |s| && x <= y <= b - a
    ensures s[a..b][x..y] == s[a + x..a + y]
  {
    var l, r := s[a..b][x..y], s[a + x..a + y];
    assert |l| == |r| && forall i :: 0 <= i < |l| ==> l[i] == r[i];
  }

  lemma MulAssoc(a: int, b: int, c: int)
    ensures a * (b * c) == a * b * c
  {
  }

  function Pow2(n: nat): nat {
    if n == 0 then 1 else 2 * Pow2(n - 1)
  }

  /** A product of reals under a name, so that proofs can treat it as a whole. */
  function Times(a: real, b: real): real {
    a * b
  }
}
