/**
  The recurrent state of a Mamba layer (src/ssm.rs:62-182). Floats are reals and the
  exponential is a parameter, so what is proved holds for any function in its place.
*/
module Ssm {
  import opened Arith

  type Vector = seq<real>

  // ---------------------------------------------------------------------
  // Rows of a flat state
  // ---------------------------------------------------------------------

  /** Row `o` of a flat matrix of rows of length `w`. */
  function Row(s: Vector, o: nat, w: nat): (r: Vector)
    requires o * w + w <= |s|
    ensures |r| == w
  {
    s[o * w..o * w + w]
  }

  lemma RowInside(o: nat, rows: nat, w: nat)
    requires o < rows
    ensures o * w + w <= rows * w
  {
    MulAdd(o, 1, w);
    MulMono(o + 1, rows, w);
  }

  /** The rows of `s` are those of `m`. */
  ghost predicate IsMatrix(s: Vector, w: nat, m: seq<Vector>) {
    |s| == |m| * w && forall o :: 0 <= o < |m| ==> o * w + w <= |s| && Row(s, o, w) == m[o]
  }

  /** `t` is `s` but for row `o`. */
  ghost predicate OnlyRow(s: Vector, t: Vector, o: nat, w: nat) {
    |s| == |t| && o * w + w <= |s| && s[..o * w] == t[..o * w] && s[o * w + w..] == t[o * w + w..]
  }

  lemma OtherRow(s: Vector, t: Vector, o: nat, w: nat, p: nat)
    requires OnlyRow(s, t, o, w) && p != o && p * w + w <= |s|
    ensures Row(t, p, w) == Row(s, p, w)
  {
    if p < o {
      MulAdd(p, 1, w);
      MulMono(p + 1, o, w);
      assert Row(t, p, w) == t[..o * w][p * w..p * w + w];
    } else {
      MulAdd(o, 1, w);
      MulMono(o + 1, p, w);
      var from := o * w + w;
      assert Row(t, p, w) == t[from..][p * w - from..p * w + w - from];
      assert Row(s, p, w) == s[from..][p * w - from..p * w + w - from];
    }
  }

  lemma ReplaceRow(s: Vector, t: Vector, w: nat, m: seq<Vector>, o: nat)
    requires IsMatrix(s, w, m) && o < |m| && o * w + w <= |s| && OnlyRow(s, t, o, w)
    ensures IsMatrix(t, w, m[o := Row(t, o, w)])
  {
    hide Row;
    var n := m[o := Row(t, o, w)];
    forall p | 0 <= p < |n| ensures p * w + w <= |t| && Row(t, p, w) == n[p] {
      RowInside(p, |n|, w);
      if p != o {
        OtherRow(s, t, o, w, p);
      }
    }
  }

  // ---------------------------------------------------------------------
  // The convolution window
  // ---------------------------------------------------------------------

  /** Input `t` of channel `o`, zero before the first. */
  function InputAt(xs: seq<Vector>, o: nat, t: int): real {
    if 0 <= t < |xs| && o < |xs[t]| then xs[t][o] else 0.0
  }

  /** The last `w` inputs of a channel, oldest first. */
  function Window(xs: seq<Vector>, o: nat, w: nat): (r: Vector)
    ensures |r| == w
  {
    seq(w, k requires 0 <= k < w => InputAt(xs, o, |xs| - w + k))
  }

  lemma WindowShift(xs: seq<Vector>, x: Vector, o: nat, w: nat)
    requires w > 0 && o < |x|
    ensures Window(xs + [x], o, w) == Window(xs, o, w)[1..] + [x[o]]
  {
    var a, b := Window(xs + [x], o, w), Window(xs, o, w)[1..] + [x[o]];
    forall k | 0 <= k < w ensures a[k] == b[k] {
      var t := |xs| + 1 - w + k;
      assert a[k] == InputAt(xs + [x], o, t);
      if k < w - 1 {
        assert b[k] == Window(xs, o, w)[k + 1] == InputAt(xs, o, t);
        assert 0 <= t < |xs| ==> (xs + [x])[t] == xs[t];
      } else {
        assert (xs + [x])[t] == x && b[k] == x[o];
      }
    }
  }

  /** Products of a window with its weights, summed in order onto `init`. */
  function Weighed(v: Vector, weight: Vector, init: real, k: nat): real
    requires k <= |v| && k <= |weight|
  {
    if k == 0 then init else Weighed(v, weight, init, k - 1) + Times(v[k - 1], weight[k - 1])
  }

  /** Reference: lag by lag over the whole input, `x[t] w[last] + x[t - 1] w[last - 1] + ...`. */
  function Causal(xs: seq<Vector>, o: nat, t: int, weight: Vector, lags: nat): real
    requires lags <= |weight|
  {
    if lags == 0 then 0.0
    else Causal(xs, o, t, weight, lags - 1) + Times(InputAt(xs, o, t - (lags - 1)), weight[|weight| - lags])
  }

  lemma {:induction false} WeighedFromEnd(xs: seq<Vector>, o: nat, weight: Vector, init: real, lags: nat)
    requires lags <= |weight|
    ensures var w := |weight|; var v := Window(xs, o, w);
            Weighed(v, weight, init, w) == Weighed(v, weight, init, w - lags) + Causal(xs, o, |xs| - 1, weight, lags)
    decreases lags
  {
    hide Times;
    if lags > 0 {
      WeighedFromEnd(xs, o, weight, init, lags - 1);
    }
  }

  /** The windowed sum is the causal convolution of the whole input so far. */
  lemma WindowIsConvolution(xs: seq<Vector>, o: nat, weight: Vector, init: real)
    ensures Weighed(Window(xs, o, |weight|), weight, init, |weight|) == init + Causal(xs, o, |xs| - 1, weight, |weight|)
  {
    hide Times, Causal;
    WeighedFromEnd(xs, o, weight, init, |weight|);
  }

  /** Only inputs up to `t` matter to output `t`: a prefix of the run gives the same. */
  lemma {:induction false} CausalPrefix(xs: seq<Vector>, n: nat, o: nat, t: int, weight: Vector, lags: nat)
    requires lags <= |weight| && t < n <= |xs|
    ensures Causal(xs[..n], o, t, weight, lags) == Causal(xs, o, t, weight, lags)
    decreases lags
  {
    hide Times;
    if lags > 0 {
      CausalPrefix(xs, n, o, t, weight, lags - 1);
    }
  }

  // ---------------------------------------------------------------------
  // The scan
  // ---------------------------------------------------------------------

  /** The inputs of one scan step. */
  datatype ScanStep = ScanStep(x: Vector, dt: Vector, a: Vector, b: Vector)

  predicate Shaped(s: ScanStep, dInner: nat, dState: nat) {
    |s.x| == dInner && |s.dt| == dInner && |s.a| == dInner * dState && |s.b| == dState
  }

  predicate AllShaped(steps: seq<ScanStep>, dInner: nat, dState: nat) {
    forall k :: 0 <= k < |steps| ==> Shaped(steps[k], dInner, dState)
  }

  /** What a step multiplies state `(o, i)` by, and what it adds. */
  function Decay(exp: real -> real, s: ScanStep, dInner: nat, dState: nat, o: nat, i: nat): real
    requires Shaped(s, dInner, dState) && o < dInner && i < dState
  {
    RowInside(o, dInner, dState);
    exp(Times(s.dt[o], s.a[o * dState + i]))
  }

  function Inject(s: ScanStep, dInner: nat, dState: nat, o: nat, i: nat): real
    requires Shaped(s, dInner, dState) && o < dInner && i < dState
  {
    Times(Times(s.x[o], s.b[i]), s.dt[o])
  }

  /** Product of the decays of steps `from` up to `end`. */
  function Fade(exp: real -> real, steps: seq<ScanStep>, dInner: nat, dState: nat, o: nat, i: nat, from: nat,
      end: nat): real
    requires AllShaped(steps, dInner, dState) && o < dInner && i < dState && from <= end <= |steps|
    decreases end
  {
    if from == end then 1.0
    else Times(Fade(exp, steps, dInner, dState, o, i, from, end - 1), Decay(exp, steps[end - 1], dInner, dState, o, i))
  }

  /** Reference: every injection of the first `k` steps, faded by all steps after it up to `end`. */
  function Closed(exp: real -> real, steps: seq<ScanStep>, dInner: nat, dState: nat, o: nat, i: nat, k: nat,
      end: nat): real
    requires AllShaped(steps, dInner, dState) && o < dInner && i < dState && k <= end <= |steps|
    decreases k
  {
    if k == 0 then 0.0
    else
      Closed(exp, steps, dInner, dState, o, i, k - 1, end)
      + Times(Inject(steps[k - 1], dInner, dState, o, i), Fade(exp, steps, dInner, dState, o, i, k, end))
  }

  lemma TimesLaws(a: real, b: real, c: real)
    ensures Times(Times(a, b), c) == Times(a, Times(b, c)) && Times(a + b, c) == Times(a, c) + Times(b, c)
    ensures Times(a, 1.0) == a && Times(0.0, c) == 0.0
  {
  }

  /** One more step fades the whole sum once more. */
  lemma {:induction false} ClosedFades(exp: real -> real, steps: seq<ScanStep>, dInner: nat, dState: nat, o: nat,
      i: nat, k: nat, end: nat)
    requires AllShaped(steps, dInner, dState) && o < dInner && i < dState && k <= end < |steps|
    ensures Closed(exp, steps, dInner, dState, o, i, k, end + 1) ==
      Times(Closed(exp, steps, dInner, dState, o, i, k, end), Decay(exp, steps[end], dInner, dState, o, i))
    decreases k
  {
    hide Times, Decay, Inject, Shaped;
    var d := Decay(exp, steps[end], dInner, dState, o, i);
    if k == 0 {
      TimesLaws(0.0, 0.0, d);
    } else {
      ClosedFades(exp, steps, dInner, dState, o, i, k - 1, end);
      var before := Closed(exp, steps, dInner, dState, o, i, k - 1, end);
      var last, fade := Inject(steps[k - 1], dInner, dState, o, i), Fade(exp, steps, dInner, dState, o, i, k, end);
      TimesLaws(before, Times(last, fade), d);
      TimesLaws(last, fade, d);
    }
  }

  /** The recurrence the source runs is the closed sum. */
  lemma ClosedStep(exp: real -> real, steps: seq<ScanStep>, dInner: nat, dState: nat, o: nat, i: nat, n: nat)
    requires AllShaped(steps, dInner, dState) && o < dInner && i < dState && n < |steps|
    ensures Closed(exp, steps, dInner, dState, o, i, n + 1, n + 1) ==
      Times(Closed(exp, steps, dInner, dState, o, i, n, n), Decay(exp, steps[n], dInner, dState, o, i))
      + Inject(steps[n], dInner, dState, o, i)
  {
    hide Times, Decay, Inject, Shaped;
    ClosedFades(exp, steps, dInner, dState, o, i, n, n);
    TimesLaws(Inject(steps[n], dInner, dState, o, i), 0.0, 0.0);
  }

  /** Later steps do not change a sum over earlier ones. */
  lemma {:induction false} FadePrefix(exp: real -> real, a: seq<ScanStep>, b: seq<ScanStep>, dInner: nat, dState: nat,
      o: nat, i: nat, from: nat, end: nat)
    requires AllShaped(a, dInner, dState) && AllShaped(b, dInner, dState) && o < dInner && i < dState
    requires from <= end <= |a| <= |b| && b[..|a|] == a
    ensures Fade(exp, a, dInner, dState, o, i, from, end) == Fade(exp, b, dInner, dState, o, i, from, end)
    decreases end
  {
    hide Times, Decay, Shaped;
    if from < end {
      FadePrefix(exp, a, b, dInner, dState, o, i, from, end - 1);
      assert b[..|a|][end - 1] == b[end - 1];
    }
  }

  lemma {:induction false} ClosedPrefix(exp: real -> real, a: seq<ScanStep>, b: seq<ScanStep>, dInner: nat,
      dState: nat, o: nat, i: nat, k: nat, end: nat)
    requires AllShaped(a, dInner, dState) && AllShaped(b, dInner, dState) && o < dInner && i < dState
    requires k <= end <= |a| <= |b| && b[..|a|] == a
    ensures Closed(exp, a, dInner, dState, o, i, k, end) == Closed(exp, b, dInner, dState, o, i, k, end)
    decreases k
  {
    hide Times, Inject, Fade, Shaped;
    if k > 0 {
      ClosedPrefix(exp, a, b, dInner, dState, o, i, k - 1, end);
      FadePrefix(exp, a, b, dInner, dState, o, i, k, end);
      assert b[..|a|][k - 1] == b[k - 1];
    }
  }

  /** The scan state of channel `o` after all the steps. */
  function ScanRow(exp: real -> real, steps: seq<ScanStep>, dInner: nat, dState: nat, o: nat): (r: Vector)
    requires AllShaped(steps, dInner, dState) && o < dInner
    ensures |r| == dState
  {
    seq(dState, i requires 0 <= i < dState => Closed(exp, steps, dInner, dState, o, i, |steps|, |steps|))
  }

  /** A row after one more step. */
  lemma ScanRowNext(exp: real -> real, steps: seq<ScanStep>, s: ScanStep, dInner: nat, dState: nat, o: nat, i: nat)
    requires AllShaped(steps, dInner, dState) && Shaped(s, dInner, dState) && o < dInner && i < dState
    ensures AllShaped(steps + [s], dInner, dState)
    ensures ScanRow(exp, steps + [s], dInner, dState, o)[i] ==
      Times(ScanRow(exp, steps, dInner, dState, o)[i], Decay(exp, s, dInner, dState, o, i)) +
        Inject(s, dInner, dState, o, i)
  {
    hide Times, Decay, Inject, Closed, Shaped;
    var next := steps + [s];
    assert next[..|steps|] == steps;
    ClosedStep(exp, next, dInner, dState, o, i, |steps|);
    ClosedPrefix(exp, steps, next, dInner, dState, o, i, |steps|, |steps|);
  }

  /** One step of the recurrence on the state `h` of a channel, `a` being the channel's row. */
  function Advanced(exp: real -> real, h: Vector, x: real, dt: real, a: Vector, b: Vector): (r: Vector)
    requires |h| == |a| == |b|
    ensures |r| == |h|
  {
    seq(|h|, i requires 0 <= i < |h| => Times(h[i], exp(Times(dt, a[i]))) + Times(Times(x, b[i]), dt))
  }

  lemma AdvancedAt(exp: real -> real, h: Vector, x: real, dt: real, a: Vector, b: Vector, i: nat)
    requires |h| == |a| == |b| && i < |h|
    ensures Advanced(exp, h, x, dt, a, b)[i] == Times(h[i], exp(Times(dt, a[i]))) + Times(Times(x, b[i]), dt)
  {
    hide Times;
  }

  lemma ScanRowAdvanced(exp: real -> real, steps: seq<ScanStep>, s: ScanStep, dInner: nat, dState: nat, o: nat)
    requires AllShaped(steps, dInner, dState) && Shaped(s, dInner, dState) && o < dInner
    ensures AllShaped(steps + [s], dInner, dState)
    ensures o * dState + dState <= |s.a|
    ensures ScanRow(exp, steps + [s], dInner, dState, o) ==
      Advanced(exp, ScanRow(exp, steps, dInner, dState, o), s.x[o], s.dt[o], Row(s.a, o, dState), s.b)
  {
    hide Times, Closed, ScanRow;
    RowInside(o, dInner, dState);
    var r := Advanced(exp, ScanRow(exp, steps, dInner, dState, o), s.x[o], s.dt[o], Row(s.a, o, dState), s.b);
    forall i | 0 <= i < dState ensures ScanRow(exp, steps + [s], dInner, dState, o)[i] == r[i] {
      ScanRowNext(exp, steps, s, dInner, dState, o, i);
    }
  }

  // ---------------------------------------------------------------------
  // The state of a layer
  // ---------------------------------------------------------------------

  ghost function Windows(xs: seq<Vector>, dInner: nat, w: nat): (m: seq<Vector>)
    ensures |m| == dInner
  {
    seq(dInner, o requires 0 <= o < dInner => Window(xs, o, w))
  }

  ghost function ScanRows(exp: real -> real, steps: seq<ScanStep>, dInner: nat, dState: nat): (m: seq<Vector>)
    requires AllShaped(steps, dInner, dState)
    ensures |m| == dInner
  {
    seq(dInner, o requires 0 <= o < dInner => ScanRow(exp, steps, dInner, dState, o))
  }

  /** The first `o` rows of `after`, then the rest of `before`: where an update stands. */
  ghost function Halfway(before: seq<Vector>, after: seq<Vector>, o: nat): seq<Vector>
    requires |before| == |after| && o <= |before|
    ensures |Halfway(before, after, o)| == |before|
  {
    after[..o] + before[o..]
  }

  lemma HalfwayEnds(before: seq<Vector>, after: seq<Vector>)
    requires |before| == |after|
    ensures Halfway(before, after, 0) == before && Halfway(before, after, |before|) == after
  {
  }

  lemma HalfwayOn(before: seq<Vector>, after: seq<Vector>, o: nat)
    requires |before| == |after| && o < |before|
    ensures Halfway(before, after, o)[o] == before[o]
    ensures Halfway(before, after, o)[o := after[o]] == Halfway(before, after, o + 1)
  {
  }

  lemma ZeroMatrix(s: Vector, w: nat, m: seq<Vector>)
    requires |s| == |m| * w && (forall p :: 0 <= p < |s| ==> s[p] == 0.0)
    requires forall o :: 0 <= o < |m| ==> |m[o]| == w && forall k :: 0 <= k < w ==> m[o][k] == 0.0
    ensures IsMatrix(s, w, m)
  {
    forall o | 0 <= o < |m| ensures o * w + w <= |s| && Row(s, o, w) == m[o] {
      RowInside(o, |m|, w);
    }
  }

  predicate Zeros(s: Vector) {
    forall p :: 0 <= p < |s| ==> s[p] == 0.0
  }

  /** Zeros are what no input and no step leave. */
  lemma BlankState(conv: Vector, ssm: Vector, exp: real -> real, dInner: nat, dState: nat, dConv: nat)
    requires Zeros(conv) && Zeros(ssm) && |conv| == dInner * dConv && |ssm| == dInner * dState
    ensures IsMatrix(conv, dConv, Windows([], dInner, dConv))
        && IsMatrix(ssm, dState, ScanRows(exp, [], dInner, dState))
  {
    hide IsMatrix, Row;
    var m := Windows([], dInner, dConv);
    forall o | 0 <= o < |m| ensures |m[o]| == dConv && forall k :: 0 <= k < dConv ==> m[o][k] == 0.0 {
      forall k | 0 <= k < dConv ensures Window([], o, dConv)[k] == 0.0 {
        assert Window([], o, dConv)[k] == InputAt([], o, k - dConv);
      }
    }
    ZeroMatrix(conv, dConv, m);
    ZeroMatrix(ssm, dState, ScanRows(exp, [], dInner, dState));
  }

  class MambaState {
    const dInner: nat
    const dState: nat
    const dConv: nat
    /** The exponential the scan uses. */
    const exp: real -> real
    const conv: array<real>
    const ssm: array<real>
    /** Everything fed in since creation or reset. */
    ghost var inputs: seq<Vector>
    ghost var steps: seq<ScanStep>

    /** Each window holds the last inputs, oldest first; each scan state is the closed sum over the steps. */
    ghost predicate Valid()
      reads this, conv, ssm
    {
      && conv != ssm
      && IsMatrix(conv[..], dConv, Windows(inputs, dInner, dConv))
      && AllShaped(steps, dInner, dState)
      && IsMatrix(ssm[..], dState, ScanRows(exp, steps, dInner, dState))
    }

    constructor (dInner: nat, dState: nat, dConv: nat, exp: real -> real)
      ensures Valid() && fresh(conv) && fresh(ssm) && inputs == [] && steps == []
      ensures this.dInner == dInner && this.dState == dState && this.dConv == dConv && this.exp == exp
    {
      this.dInner, this.dState, this.dConv, this.exp := dInner, dState, dConv, exp;
      conv := new real[dInner * dConv](_ => 0.0);
      ssm := new real[dInner * dState](_ => 0.0);
      inputs, steps := [], [];
      new;
      hide IsMatrix;
      BlankState(conv[..], ssm[..], exp, dInner, dState, dConv);
    }

    /** `reset`. */
    method Clear()
      requires Valid()
      modifies this, conv, ssm
      ensures Valid() && inputs == [] && steps == []
    {
      hide IsMatrix;
      SameLength(conv[..], dConv, Windows(inputs, dInner, dConv));
      SameLength(ssm[..], dState, ScanRows(exp, steps, dInner, dState));
      for p := 0 to conv.Length
        invariant forall q :: 0 <= q < p ==> conv[q] == 0.0
      {
        conv[p] := 0.0;
      }
      for p := 0 to ssm.Length
        invariant forall q :: 0 <= q < p ==> ssm[q] == 0.0
        invariant forall q :: 0 <= q < conv.Length ==> conv[q] == 0.0
      {
        ssm[p] := 0.0;
      }
      inputs, steps := [], [];
      BlankState(conv[..], ssm[..], exp, dInner, dState, dConv);
    }

    /** Drops the oldest value of the window at `base`, moves the others down and appends `x`. */
    method ShiftWindow(base: nat, x: real)
      requires base + dConv <= conv.Length && dConv > 0
      modifies conv
      ensures conv[..base] == old(conv[..base]) && conv[base + dConv..] == old(conv[base + dConv..])
      ensures conv[base..base + dConv] == old(conv[base..base + dConv])[1..] + [x]
    {
      ghost var before := conv[base..base + dConv];
      for k := 0 to dConv - 1
        invariant forall q :: base <= q < base + k ==> conv[q] == before[q - base + 1]
        invariant forall q :: 0 <= q < conv.Length && !(base <= q < base + k) ==> conv[q] == old(conv[q])
      {
        assert conv[base + k + 1] == before[k + 1];
        conv[base + k] := conv[base + k + 1];
      }
      conv[base + dConv - 1] := x;
      ghost var after, want := conv[base..base + dConv], before[1..] + [x];
      assert forall k :: 0 <= k < dConv ==> after[k] == conv[base + k] == want[k];
      assert after == want;
    }

    /** `conv1d_depthwise_update`: the outputs are the causal convolution of every input so far. */
    method ConvUpdate(x: Vector, weight: Vector, bias: Vector) returns (y: Vector)
      requires Valid() && dConv > 0 && |x| == dInner && |weight| == dInner * dConv
      modifies this, conv
      ensures Valid() && inputs == old(inputs) + [x] && steps == old(steps)
      ensures |y| == dInner
      ensures forall o :: 0 <= o < dInner ==>
                o * dConv + dConv <= |weight|
                && y[o] == (if |bias| == dInner then bias[o] else 0.0)
                           + Causal(inputs, o, |inputs| - 1, Row(weight, o, dConv), dConv)
    {
      hide IsMatrix, Halfway, Row, Window, Causal, OnlyRow, Weighed, Times;
      ghost var next := inputs + [x];
      ghost var before, after := Windows(inputs, dInner, dConv), Windows(next, dInner, dConv);
      HalfwayEnds(before, after);
      y := [];
      for o := 0 to dInner
        invariant |y| == o && inputs == old(inputs) && steps == old(steps)
        invariant IsMatrix(conv[..], dConv, Halfway(before, after, o)) && ssm[..] == old(ssm[..])
        invariant forall p :: 0 <= p < o ==>
                    p * dConv + dConv <= |weight|
                    && y[p] == (if |bias| == dInner then bias[p] else 0.0)
                               + Causal(next, p, |next| - 1, Row(weight, p, dConv), dConv)
      {
        ghost var was := conv[..];
        RowInside(o, dInner, dConv);
        SameLength(was, dConv, Halfway(before, after, o));
        RowOf(was, dConv, Halfway(before, after, o), o);
        ShiftWindow(o * dConv, x[o]);
        RowIs(was, o, dConv);
        RowIs(conv[..], o, dConv);
        OnlyRowIs(was, conv[..], o, dConv);
        HalfwayOn(before, after, o);
        WindowShift(inputs, x, o, dConv);
        ReplaceRow(was, conv[..], dConv, Halfway(before, after, o), o);
        var acc := WindowDot(o, Row(weight, o, dConv), if |bias| == dInner then bias[o] else 0.0);
        WindowIsConvolution(next, o, Row(weight, o, dConv), if |bias| == dInner then bias[o] else 0.0);
        y := y + [acc];
      }
      inputs := next;
    }

    /** The inner sum of the convolution. */
    method WindowDot(o: nat, weight: Vector, init: real) returns (acc: real)
      requires o * dConv + dConv <= conv.Length && |weight| == dConv
      ensures acc == Weighed(Row(conv[..], o, dConv), weight, init, dConv)
    {
      hide Times;
      ghost var v := Row(conv[..], o, dConv);
      acc := init;
      for k := 0 to dConv
        invariant acc == Weighed(v, weight, init, k)
      {
        assert v[k] == conv[o * dConv + k];
        acc := acc + Times(conv[o * dConv + k], weight[k]);
      }
    }

    /** The inner loop of the scan: the cells of one channel, in place. */
    method ScanChannel(row: nat, x: real, dt: real, a: Vector, b: Vector, c: Vector) returns (acc: real)
      requires row + dState <= ssm.Length && |a| == |b| == |c| == dState
      modifies ssm
      ensures ssm[..row] == old(ssm[..row]) && ssm[row + dState..] == old(ssm[row + dState..])
      ensures ssm[row..row + dState] == Advanced(exp, old(ssm[row..row + dState]), x, dt, a, b)
      ensures acc == Weighed(ssm[row..row + dState], c, 0.0, dState)
    {
      hide Times, Advanced;
      ghost var h := ssm[row..row + dState];
      ghost var v := Advanced(exp, h, x, dt, a, b);
      acc := 0.0;
      for i := 0 to dState
        invariant forall q :: 0 <= q < ssm.Length && !(row <= q < row + i) ==> ssm[q] == old(ssm[q])
        invariant forall q :: row <= q < row + i ==> ssm[q] == v[q - row]
        invariant acc == Weighed(v, c, 0.0, i)
      {
        assert h[i] == ssm[row + i];
        AdvancedAt(exp, h, x, dt, a, b, i);
        var aD := exp(Times(dt, a[i]));
        ssm[row + i] := Times(ssm[row + i], aD) + Times(Times(x, b[i]), dt);
        acc := acc + Times(ssm[row + i], c[i]);
      }
      assert ssm[row..row + dState] == v;
    }

    /** `selective_scan_update`: the state is the closed sum over every step so far, the outputs read it through `c`. */
    method ScanUpdate(x: Vector, dt: Vector, a: Vector, b: Vector, c: Vector, d: Vector) returns (y: Vector)
      requires Valid() && Shaped(ScanStep(x, dt, a, b), dInner, dState) && |c| == dState
      modifies this, ssm
      ensures Valid() && steps == old(steps) + [ScanStep(x, dt, a, b)] && inputs == old(inputs)
      ensures |y| == dInner
      ensures forall o :: 0 <= o < dInner ==>
                y[o] == Weighed(ScanRow(exp, steps, dInner, dState, o), c, 0.0, dState)
                        + Times(if |d| == dInner then d[o] else 0.0, x[o])
    {
      hide IsMatrix, Halfway, Row, Window, OnlyRow, Weighed, Times, ScanRow, Advanced, Decay, Inject;
      var s := ScanStep(x, dt, a, b);
      ghost var next := steps + [s];
      ghost var before, after := ScanRows(exp, steps, dInner, dState), ScanRows(exp, next, dInner, dState);
      HalfwayEnds(before, after);
      y := [];
      for o := 0 to dInner
        invariant |y| == o && inputs == old(inputs) && steps == old(steps)
        invariant IsMatrix(ssm[..], dState, Halfway(before, after, o)) && conv[..] == old(conv[..])
        invariant forall p :: 0 <= p < o ==>
                    y[p] == Weighed(ScanRow(exp, next, dInner, dState, p), c, 0.0, dState)
                            + Times(if |d| == dInner then d[p] else 0.0, x[p])
      {
        ghost var was := ssm[..];
        SameLength(was, dState, Halfway(before, after, o));
        RowOf(was, dState, Halfway(before, after, o), o);
        RowInside(o, dInner, dState);
        var acc := ScanChannel(o * dState, x[o], dt[o], Row(a, o, dState), b, c);
        RowIs(was, o, dState);
        RowIs(ssm[..], o, dState);
        OnlyRowIs(was, ssm[..], o, dState);
        HalfwayOn(before, after, o);
        ScanRowAdvanced(exp, steps, s, dInner, dState, o);
        ReplaceRow(was, ssm[..], dState, Halfway(before, after, o), o);
        y := y + [acc + Times(if |d| == dInner then d[o] else 0.0, x[o])];
      }
      steps := next;
    }
  }

  lemma RowIs(s: Vector, o: nat, w: nat)
    requires o * w + w <= |s|
    ensures Row(s, o, w) == s[o * w..o * w + w]
  {
  }

  lemma OnlyRowIs(s: Vector, t: Vector, o: nat, w: nat)
    requires |s| == |t| && o * w + w <= |s| && s[..o * w] == t[..o * w] && s[o * w + w..] == t[o * w + w..]
    ensures OnlyRow(s, t, o, w)
  {
  }

  lemma SameLength(s: Vector, w: nat, m: seq<Vector>)
    requires IsMatrix(s, w, m)
    ensures |s| == |m| * w
  {
  }

  lemma RowOf(s: Vector, w: nat, m: seq<Vector>, o: nat)
    requires IsMatrix(s, w, m) && o < |m|
    ensures o * w + w <= |s| && Row(s, o, w) == m[o]
  {
  }

  // ---------------------------------------------------------------------
  // What the sums are
  // ---------------------------------------------------------------------

  /** An impulse at time `at` comes out as the weights in turn, the last first, and then nothing. */
  lemma {:induction false} ImpulseResponse(xs: seq<Vector>, o: nat, at: nat, t: int, weight: Vector, lags: nat)
    requires lags <= |weight| && at < |xs| && t < |xs|
    requires forall s :: 0 <= s < |xs| ==> InputAt(xs, o, s) == if s == at then 1.0 else 0.0
    ensures Causal(xs, o, t, weight, lags) ==
            if 0 <= t - at < lags then weight[|weight| - 1 - (t - at)] else 0.0
    decreases lags
  {
    if lags > 0 {
      ImpulseResponse(xs, o, at, t, weight, lags - 1);
    }
  }

  /** Reading a state out through a unit vector gives one cell. */
  lemma {:induction false} WeighedUnit(v: Vector, c: Vector, init: real, n: nat, k: nat)
    requires n <= |v| == |c| && k < |c| && forall i :: 0 <= i < |c| ==> c[i] == if i == k then 1.0 else 0.0
    ensures Weighed(v, c, init, n) == init + if k < n then v[k] else 0.0
  {
    if n > 0 {
      WeighedUnit(v, c, init, n - 1, k);
    }
  }

  /** Before the first step every cell of the scan is 0. */
  lemma ScanStarts(exp: real -> real, dInner: nat, dState: nat, o: nat, i: nat)
    requires o < dInner && i < dState
    ensures ScanRow(exp, [], dInner, dState, o)[i] == 0.0
  {
  }
}
