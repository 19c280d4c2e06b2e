/**
  The generator of src/determinism.rs:18-24. A `u64` is a number below 2^64; shifts and
  exclusive-or work on its 64 binary digits.
*/
module SplitMix {
  import opened Prelude
  import opened Arith

  type U64 = n: nat | n < TWO64

  const STEP: U64 := 0x9E37_79B9_7F4A_7C15
  const MUL1: U64 := 0xBF58_476D_1CE4_E5B9
  const MUL2: U64 := 0x94D0_49BB_1331_11EB
  /** Their inverses modulo 2^64. */
  const STEP_INV: U64 := 0xF1DE_83E1_9937_733D
  const MUL1_INV: U64 := 0x96DE_1B17_3F11_9089
  const MUL2_INV: U64 := 0x3196_42B2_D24D_8EC3

  function WrappingMul(a: U64, b: U64): U64 {
    a * b % TWO64
  }

  function WrappingAdd(a: U64, b: U64): U64 {
    (a + b) % TWO64
  }

  /** The `len` lowest binary digits, lowest first. */
  function Digits(z: nat, len: nat): (d: seq<bool>)
    ensures |d| == len
  {
    if len == 0 then [] else [z % 2 == 1] + Digits(z / 2, len - 1)
  }

  function Number(d: seq<bool>): nat {
    if d == [] then 0 else (if d[0] then 1 else 0) + 2 * Number(d[1..])
  }

  /** Digit `i`, zero past the top. */
  predicate At(d: seq<bool>, i: nat) {
    i < |d| && d[i]
  }

  /** `d ^ (d >> k)`. */
  function FoldDigits(d: seq<bool>, k: nat): (r: seq<bool>)
    ensures |r| == |d|
  {
    seq(|d|, i requires 0 <= i < |d| => d[i] != At(d, i + k))
  }

  /** `z ^ (z >> k)` of a `u64`. */
  function XorShift(z: U64, k: nat): U64 {
    NumberBelow(FoldDigits(Digits(z, 64), k));
    Number(FoldDigits(Digits(z, 64), k))
  }

  /** The output for a state that has just advanced. */
  function Mix(z: U64): U64 {
    XorShift(WrappingMul(XorShift(WrappingMul(XorShift(z, 30), MUL1), 27), MUL2), 31)
  }

  /** The state after `n` draws. */
  function Walk(seed: U64, n: nat): U64 {
    (seed + n * STEP) % TWO64
  }

  /** Draw number `n`, counted from 0. */
  function Output(seed: U64, n: nat): U64 {
    Mix(Walk(seed, n + 1))
  }

  // ---------------------------------------------------------------------
  // Modular arithmetic
  // ---------------------------------------------------------------------

  lemma ModIs(x: int, q: int, r: int, n: nat)
    requires n > 0 && x == q * n + r && 0 <= r < n
    ensures x % n == r
  {
    DivModUnique(x, n, q, r);
  }

  lemma ModSplit(x: int, n: nat) returns (q: int)
    requires n > 0
    ensures x == q * n + x % n
  {
    q := x / n;
  }

  /** Multiplying by `m` and then by its inverse changes nothing, modulo `n`. */
  lemma MulThenInverse(x: nat, m: nat, i: nat, n: nat)
    requires n > 1 && x < n && m * i % n == 1
    ensures x * m % n * i % n == x
  {
    var q := ModSplit(x * m, n);
    var k := ModSplit(m * i, n);
    var r := x * m % n;
    calc {
      r * i;
      (x * m - q * n) * i;
      x * (m * i) - q * i * n;
      x * (k * n + 1) - q * i * n;
      (x * k - q * i) * n + x;
    }
    ModIs(r * i, x * k - q * i, x, n);
  }

  // ---------------------------------------------------------------------
  // The mix is a bijection
  // ---------------------------------------------------------------------

  lemma {:induction false} NumberBound(d: seq<bool>)
    ensures Number(d) < Pow2(|d|)
  {
    if d != [] {
      NumberBound(d[1..]);
    }
  }

  lemma Pow2Four(n: nat)
    ensures Pow2(n + 4) == 16 * Pow2(n)
  {
    assert Pow2(n + 2) == 4 * Pow2(n);
    assert Pow2(n + 4) == 4 * Pow2(n + 2);
  }

  lemma Pow2Sixteen(n: nat)
    ensures Pow2(n + 16) == 65536 * Pow2(n)
  {
    hide Pow2;
    Pow2Four(n);
    Pow2Four(n + 4);
    Pow2Four(n + 8);
    Pow2Four(n + 12);
  }

  lemma Pow2Is()
    ensures Pow2(64) == TWO64
  {
    Pow2Sixteen(0);
    Pow2Sixteen(16);
    Pow2Sixteen(32);
    Pow2Sixteen(48);
  }

  lemma NumberBelow(d: seq<bool>)
    requires |d| == 64
    ensures Number(d) < TWO64
  {
    NumberBound(d);
    Pow2Is();
  }

  lemma {:induction false} NumberOfDigits(z: nat, len: nat)
    requires z < Pow2(len)
    ensures Number(Digits(z, len)) == z
  {
    if len > 0 {
      NumberOfDigits(z / 2, len - 1);
    }
  }

  lemma {:induction false} DigitsOfNumber(d: seq<bool>)
    ensures Digits(Number(d), |d|) == d
  {
    if d != [] {
      DigitsOfNumber(d[1..]);
    }
  }

  /** `y ^ (y >> k) ^ (y >> 2k)`: undoes a fold by at least a third of the digits. */
  function UnfoldDigits(y: seq<bool>, k: nat): (r: seq<bool>)
    ensures |r| == |y|
  {
    seq(|y|, i requires 0 <= i < |y| => (y[i] != At(y, i + k)) != At(y, i + 2 * k))
  }

  function Unshift(y: U64, k: nat): U64 {
    NumberBelow(UnfoldDigits(Digits(y, 64), k));
    Number(UnfoldDigits(Digits(y, 64), k))
  }

  lemma FoldsCancel(d: seq<bool>, k: nat)
    requires 3 * k >= |d|
    ensures UnfoldDigits(FoldDigits(d, k), k) == d && FoldDigits(UnfoldDigits(d, k), k) == d
  {
    var y, u := FoldDigits(d, k), UnfoldDigits(d, k);
    forall i | 0 <= i < |d| ensures UnfoldDigits(y, k)[i] == d[i] {
      assert At(y, i + k) == (At(d, i + k) != At(d, i + 2 * k));
      assert At(y, i + 2 * k) == (At(d, i + 2 * k) != At(d, i + 3 * k));
    }
    forall i | 0 <= i < |d| ensures FoldDigits(u, k)[i] == d[i] {
      assert At(u, i + k) == ((At(d, i + k) != At(d, i + 2 * k)) != At(d, i + 3 * k));
    }
  }

  lemma ShiftsCancel(z: U64, k: nat)
    requires 3 * k >= 64
    ensures Unshift(XorShift(z, k), k) == z && XorShift(Unshift(z, k), k) == z
  {
    hide FoldDigits, UnfoldDigits, Digits, Number, Pow2;
    var d := Digits(z, 64);
    FoldsCancel(d, k);
    DigitsOfNumber(FoldDigits(d, k));
    DigitsOfNumber(UnfoldDigits(d, k));
    Pow2Is();
    NumberOfDigits(z, 64);
  }

  function Unmix(o: U64): U64 {
    Unshift(WrappingMul(Unshift(WrappingMul(Unshift(o, 31), MUL2_INV), 27), MUL1_INV), 30)
  }

  lemma MulsCancel(z: U64)
    ensures WrappingMul(WrappingMul(z, MUL1), MUL1_INV) == z && WrappingMul(WrappingMul(z, MUL1_INV), MUL1) == z
    ensures WrappingMul(WrappingMul(z, MUL2), MUL2_INV) == z && WrappingMul(WrappingMul(z, MUL2_INV), MUL2) == z
  {
    MulThenInverse(z, MUL1, MUL1_INV, TWO64);
    MulThenInverse(z, MUL1_INV, MUL1, TWO64);
    MulThenInverse(z, MUL2, MUL2_INV, TWO64);
    MulThenInverse(z, MUL2_INV, MUL2, TWO64);
  }

  /** Every output comes from exactly one state. */
  lemma MixIsBijection(z: U64)
    ensures Unmix(Mix(z)) == z && Mix(Unmix(z)) == z
  {
    hide XorShift, Unshift, WrappingMul;
    var a := XorShift(z, 30);
    var b := WrappingMul(a, MUL1);
    var c := XorShift(b, 27);
    var d := WrappingMul(c, MUL2);
    ShiftsCancel(z, 30);
    MulsCancel(a);
    ShiftsCancel(b, 27);
    MulsCancel(c);
    ShiftsCancel(d, 31);
    var e := Unshift(z, 31);
    var f := WrappingMul(e, MUL2_INV);
    var g := Unshift(f, 27);
    var h := WrappingMul(g, MUL1_INV);
    ShiftsCancel(z, 31);
    MulsCancel(e);
    ShiftsCancel(f, 27);
    MulsCancel(g);
    ShiftsCancel(h, 30);
  }

  // ---------------------------------------------------------------------
  // The walk has full period
  // ---------------------------------------------------------------------

  lemma WalkNext(seed: U64, n: nat)
    ensures WrappingAdd(Walk(seed, n), STEP) == Walk(seed, n + 1)
  {
    var a := seed + n * STEP;
    var q := ModSplit(a, TWO64);
    var p := ModSplit(Walk(seed, n) + STEP, TWO64);
    ModIs(a + STEP, p + q, WrappingAdd(Walk(seed, n), STEP), TWO64);
  }

  /** Two states of one walk agree exactly when a whole number of periods lies between them. */
  lemma WalkAgrees(seed: U64, i: nat, j: nat)
    requires i <= j
    ensures Walk(seed, i) == Walk(seed, j) <==> (j - i) % TWO64 == 0
  {
    var p := ModSplit(seed + i * STEP, TWO64);
    var q := ModSplit(seed + j * STEP, TWO64);
    var k := ModSplit(j - i, TWO64);
    MulAdd(j, i, STEP);
    if Walk(seed, i) == Walk(seed, j) {
      assert (j - i) * STEP == (q - p) * TWO64;
      var u := ModSplit(STEP * STEP_INV, TWO64);
      Spread(j - i, STEP, STEP_INV, q - p, u);
      ModIs(j - i, (q - p) * STEP_INV - (j - i) * u, 0, TWO64);
    }
    if (j - i) % TWO64 == 0 {
      Swap(k, TWO64, STEP);
      ModIs(seed + j * STEP, p + k * STEP, Walk(seed, i), TWO64);
    }
  }

  lemma Spread(d: int, m: int, i: int, w: int, u: int)
    requires d * m == w * TWO64 && m * i == u * TWO64 + 1
    ensures d == (w * i - d * u) * TWO64
  {
    calc {
      d;
      d * (m * i) - d * u * TWO64;
      { MulAssoc(d, m, i); }
      d * m * i - d * u * TWO64;
      w * TWO64 * i - d * u * TWO64;
      (w * i - d * u) * TWO64;
    }
  }

  lemma Swap(k: int, n: int, s: int)
    ensures k * n * s == k * s * n
  {
  }

  /** Two draws agree exactly when a multiple of 2^64 draws lies between them: nothing repeats sooner. */
  lemma NoRepeat(seed: U64, i: nat, j: nat)
    requires i <= j
    ensures Output(seed, i) == Output(seed, j) <==> (j - i) % TWO64 == 0
  {
    hide Mix, Unmix, Walk;
    MixIsBijection(Walk(seed, i + 1));
    MixIsBijection(Walk(seed, j + 1));
    WalkAgrees(seed, i + 1, j + 1);
  }

  /** Which draw of a period gives a wanted output. */
  function DrawOf(seed: U64, o: U64): U64 {
    ((Unmix(o) as int - STEP as int - seed as int) * STEP_INV) % TWO64
  }

  /** Every 64-bit number is drawn in each period, whatever the seed. */
  lemma EveryOutput(seed: U64, o: U64)
    ensures Output(seed, DrawOf(seed, o)) == o
  {
    hide Mix, Unmix;
    var t := Unmix(o) as int - STEP as int - seed as int;
    var n := DrawOf(seed, o);
    var q := ModSplit(t * STEP_INV, TWO64);
    var u := ModSplit(STEP_INV * STEP, TWO64);
    Landing(t, STEP_INV, STEP, n, q, u);
    MulAdd(n, 1, STEP);
    ModIs(seed + (n + 1) * STEP, t * u - q * STEP, Unmix(o), TWO64);
    MixIsBijection(o);
  }

  lemma Landing(t: int, i: int, m: int, n: int, q: int, u: int)
    requires t * i == q * TWO64 + n && i * m == u * TWO64 + 1
    ensures n * m == (t * u - q * m) * TWO64 + t
  {
    calc {
      n * m;
      (t * i - q * TWO64) * m;
      t * i * m - q * TWO64 * m;
      { MulAssoc(t, i, m); }
      t * (u * TWO64 + 1) - q * TWO64 * m;
      (t * u - q * m) * TWO64 + t;
    }
  }

  // ---------------------------------------------------------------------
  // The generator
  // ---------------------------------------------------------------------

  /** A context's generator state, with what it was seeded with and everything it has drawn. */
  class Generator {
    var state: U64
    ghost const seed: U64
    ghost var drawn: seq<U64>

    ghost predicate Valid()
      reads this
    {
      state == Walk(seed, |drawn|) && forall i :: 0 <= i < |drawn| ==> drawn[i] == Output(seed, i)
    }

    constructor (s: U64)
      ensures Valid() && seed == s && drawn == []
    {
      state, seed, drawn := s, s, [];
    }

    /** `splitmix64`. */
    method Next() returns (out: U64)
      requires Valid()
      modifies this
      ensures Valid() && drawn == old(drawn) + [out]
      ensures out == Output(seed, |old(drawn)|)
    {
      hide XorShift, Walk, WrappingMul;
      WalkNext(seed, |drawn|);
      state := WrappingAdd(state, STEP);
      var z := state;
      z := WrappingMul(XorShift(z, 30), MUL1);
      z := WrappingMul(XorShift(z, 27), MUL2);
      out := XorShift(z, 31);
      drawn := drawn + [out];
    }
  }

  // ---------------------------------------------------------------------
  // The digits in numbers
  // ---------------------------------------------------------------------

  /** The number whose binary digits say where those of `a` and `b` differ. */
  function Exclusive(a: nat, b: nat): nat
    decreases a + b
  {
    if a == 0 && b == 0 then 0 else (if a % 2 != b % 2 then 1 else 0) + 2 * Exclusive(a / 2, b / 2)
  }

  /** `z >> k`: halved `k` times. */
  function ShiftRight(z: nat, k: nat): nat
    decreases k
  {
    if k == 0 then z else ShiftRight(z / 2, k - 1)
  }

  lemma {:induction false} HalfThen(z: nat, k: nat)
    ensures ShiftRight(z / 2, k) == ShiftRight(z, k) / 2
    decreases k
  {
    if k > 0 {
      HalfThen(z / 2, k - 1);
    }
  }

  /** Digit `k`. */
  lemma {:induction false} DigitAt(z: nat, len: nat, k: nat)
    requires z < Pow2(len)
    ensures At(Digits(z, len), k) <==> ShiftRight(z, k) % 2 == 1
    decreases k
  {
    if len == 0 {
      ZeroShifted(k);
    } else if k > 0 {
      DigitAt(z / 2, len - 1, k - 1);
    }
  }

  lemma FoldTail(d: seq<bool>, k: nat)
    requires d != []
    ensures FoldDigits(d, k)[1..] == FoldDigits(d[1..], k)
  {
    forall i | 0 <= i < |d| - 1 ensures FoldDigits(d, k)[1..][i] == FoldDigits(d[1..], k)[i] {
      assert At(d, i + 1 + k) == At(d[1..], i + k);
    }
  }

  lemma {:induction false} FoldIs(z: nat, len: nat, k: nat)
    requires z < Pow2(len)
    ensures Number(FoldDigits(Digits(z, len), k)) == Exclusive(z, ShiftRight(z, k))
  {
    hide FoldDigits;
    var d := Digits(z, len);
    if len == 0 {
      ZeroShifted(k);
      FoldNone(k);
    } else {
      FoldIs(z / 2, len - 1, k);
      DigitAt(z, len, k);
      HalfThen(z, k);
      FoldTail(d, k);
      FoldHead(d, k);
      ExclusiveStep(z, ShiftRight(z, k));
    }
  }

  lemma FoldHead(d: seq<bool>, k: nat)
    requires d != []
    ensures FoldDigits(d, k)[0] == (d[0] != At(d, k))
  {
  }

  lemma ExclusiveStep(a: nat, b: nat)
    ensures Exclusive(a, b) == (if a % 2 != b % 2 then 1 else 0) + 2 * Exclusive(a / 2, b / 2)
  {
  }

  lemma {:induction false} ZeroShifted(k: nat)
    ensures ShiftRight(0, k) == 0
    decreases k
  {
    if k > 0 {
      ZeroShifted(k - 1);
    }
  }

  lemma FoldNone(k: nat)
    ensures Number(FoldDigits([], k)) == 0 == Exclusive(0, 0)
  {
  }

  /** `z ^ (z >> k)`, in numbers. */
  lemma XorShiftIs(z: U64, k: nat)
    ensures XorShift(z, k) == Exclusive(z, ShiftRight(z, k))
  {
    hide FoldDigits, Digits, Number, Exclusive, ShiftRight;
    Pow2Is();
    hide Pow2;
    FoldIs(z, 64, k);
  }

  /** Draw `n` in numbers: the step taken `n + 1` times from the seed, and the mix of the result. */
  lemma OutputIs(seed: U64, n: nat)
    ensures var z: nat := (seed + (n + 1) * 0x9E37_79B9_7F4A_7C15) % 0x1_0000_0000_0000_0000;
            var a: nat := Exclusive(z, ShiftRight(z, 30)) * 0xBF58_476D_1CE4_E5B9 % 0x1_0000_0000_0000_0000;
            var b: nat := Exclusive(a, ShiftRight(a, 27)) * 0x94D0_49BB_1331_11EB % 0x1_0000_0000_0000_0000;
            Output(seed, n) == Exclusive(b, ShiftRight(b, 31))
  {
    hide XorShift, Exclusive, ShiftRight;
    var z := Walk(seed, n + 1);
    XorShiftIs(z, 30);
    var a := WrappingMul(XorShift(z, 30), MUL1);
    XorShiftIs(a, 27);
    var b := WrappingMul(XorShift(a, 27), MUL2);
    XorShiftIs(b, 31);
  }
}
