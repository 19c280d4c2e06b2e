/**
  The vectorised Q4_K dot product (src/matvec_quant.rs:287-356) on 16-byte integer
  registers and 8-lane float registers, and its equality with the plain dot product of
  the decoded super-block.
*/
module Avx2 {
  import opened Prelude
  import opened Arith
  import opened Quant
  import opened MatVec

  // ---------------------------------------------------------------------
  // Register operations
  // ---------------------------------------------------------------------

  /** Two neighbouring bytes as the 16-bit lane they form. */
  function Word(lo: Byte, hi: Byte): bv16 {
    (lo as bv16) | ((hi as bv16) << 8)
  }

  /** The bytes of a 16-bit lane shifted right by 4. */
  function ShiftedLow(lo: Byte, hi: Byte): Byte {
    ((Word(lo, hi) >> 4) & 0xFF) as Byte
  }

  function ShiftedHigh(lo: Byte, hi: Byte): Byte {
    (Word(lo, hi) >> 12) as Byte
  }

  function LowNibble(b: Byte): Byte {
    b & 0x0F
  }

  /** `_mm_srli_epi16` by 4: shifts 16-bit lanes, so a byte takes in bits of its neighbour. */
  function ShiftWords(r: seq<Byte>): (s: seq<Byte>)
    requires |r| == 16
    ensures |s| == 16
  {
    seq(16, i requires 0 <= i < 16 =>
      if i % 2 == 0 then ShiftedLow(r[i], r[i + 1]) else ShiftedHigh(r[i - 1], r[i]))
  }

  /** `_mm_and_si128` with 0x0F in every byte. */
  function MaskNibbles(r: seq<Byte>): (s: seq<Byte>)
    requires |r| == 16
    ensures |s| == 16
  {
    seq(16, i requires 0 <= i < 16 => LowNibble(r[i]))
  }

  /** `_mm_srli_si128` by 8 bytes. */
  function UpperHalf(r: seq<Byte>): (s: seq<Byte>)
    requires |r| == 16
    ensures |s| == 16
  {
    r[8..] + seq(8, _ => 0)
  }

  /** `_mm256_cvtepi8_epi32`: the low 8 bytes, sign-extended. */
  function Widen(r: seq<Byte>): (s: seq<int>)
    requires |r| == 16
    ensures |s| == 8
  {
    seq(8, i requires 0 <= i < 8 => Signed(r[i]))
  }

  /** `q * d - m` in every lane. */
  function AffineLanes(q: seq<int>, d: real, m: real): (s: seq<real>)
    requires |q| == 8
    ensures |s| == 8
  {
    seq(8, i requires 0 <= i < 8 => Affine(d, q[i], m))
  }

  /** `acc + v * x` in every lane. */
  function AddProducts(acc: seq<real>, v: seq<real>, x: seq<real>): (s: seq<real>)
    requires |acc| == |v| == |x| == 8
    ensures |s| == 8
  {
    seq(8, i requires 0 <= i < 8 => acc[i] + Times(v[i], x[i]))
  }

  /** The four additions that fold 8 lanes into one number. */
  function HorizontalSum(acc: seq<real>): real
    requires |acc| == 8
  {
    var s4 := seq(4, i requires 0 <= i < 4 => acc[i] + acc[i + 4]);
    var s2 := [s4[0] + s4[2], s4[1] + s4[3]];
    s2[0] + s2[1]
  }

  // ---------------------------------------------------------------------
  // What the registers hold
  // ---------------------------------------------------------------------

  lemma WordNibbles(lo: Byte, hi: Byte)
    ensures LowNibble(ShiftedLow(lo, hi)) == lo >> 4
    ensures LowNibble(ShiftedHigh(lo, hi)) == hi >> 4
  {
  }

  lemma NibbleSigned(b: Byte)
    ensures Signed(LowNibble(b)) == Low(b) && Signed(b >> 4) == High(b)
  {
    assert b & 0x0F < 16 && b >> 4 < 16;
  }

  /** Masking the bytes, with or without the lane shift, leaves each byte's own nibble. */
  lemma NibblesByByte(r: seq<Byte>, i: nat)
    requires |r| == 16 && i < 16
    ensures Signed(MaskNibbles(r)[i]) == Low(r[i])
    ensures Signed(MaskNibbles(ShiftWords(r))[i]) == High(r[i])
  {
    hide Signed, Low, High, ShiftedLow, ShiftedHigh, LowNibble;
    NibbleSigned(r[i]);
    if i % 2 == 0 {
      WordNibbles(r[i], r[i + 1]);
    } else {
      WordNibbles(r[i - 1], r[i]);
    }
  }

  /** The register of a job: 16 nibbles out of the 32 bytes of a chunk. */
  function JobRegister(q0: seq<Byte>, q1: seq<Byte>, job: nat): (r: seq<Byte>)
    requires |q0| == |q1| == 16 && job < 8
    ensures |r| == 16
  {
    var q := if job % 4 < 2 then q0 else q1;
    var nib := MaskNibbles(if job < 4 then q else ShiftWords(q));
    if 8 * job % 16 == 0 then nib else UpperHalf(nib)
  }

  /** Lane `l` of a job is the nibble of byte `8 * job + l` modulo 32 of the chunk. */
  lemma JobNibbles(chunk: seq<Byte>, job: nat, l: nat)
    requires |chunk| == 32 && job < 8 && l < 8
    ensures Widen(JobRegister(chunk[..16], chunk[16..], job))[l] ==
      if job < 4 then Low(chunk[8 * (job % 4) + l]) else High(chunk[8 * (job % 4) + l])
  {
    hide Signed, Low, High, MaskNibbles, ShiftWords;
    var q := if job % 4 < 2 then chunk[..16] else chunk[16..];
    var i := 8 * (job % 2) + l;
    NibblesByByte(q, i);
    assert q[i] == chunk[8 * (job % 4) + l];
  }

  /** What a job computes in lane `l` is element `8 * (8 * c + job) + l` of the decoded super-block. */
  lemma JobElement(f: Floats, b: Block, c: nat, job: nat, l: nat)
    requires |b| == 144 && c < 4 && job < 8 && l < 8
    ensures var chunk := b[16 + 32 * c..48 + 32 * c];
            var sub := if job < 4 then 2 * c else 2 * c + 1;
            Affine(SubScale(f, b, sub), Widen(JobRegister(chunk[..16], chunk[16..], job))[l], SubMin(f, b, sub)) ==
            Q4KAt(f, b, 64 * c + 8 * job + l)
  {
    hide Low, High, SubScale, SubMin, Affine, Widen, JobRegister, Q4KAt;
    var chunk := b[16 + 32 * c..48 + 32 * c];
    var k := if job < 4 then 8 * job + l else 8 * (job - 4) + l;
    assert k == 8 * (job % 4) + l;
    JobNibbles(chunk, job, l);
    assert chunk[k] == b[16 + 32 * c + k];
    Q4KHere(f, b, c, k);
  }

  // ---------------------------------------------------------------------
  // Eight interleaved sums
  // ---------------------------------------------------------------------

  /** What lane `l` has gathered after `g` jobs. */
  ghost function LaneSum(x: seq<real>, v: seq<real>, g: nat, l: nat): real
    requires l < 8 && 8 * g <= |x| && 8 * g <= |v|
  {
    if g == 0 then 0.0 else LaneSum(x, v, g - 1, l) + Times(v[8 * (g - 1) + l], x[8 * (g - 1) + l])
  }

  lemma DotEight(x: seq<real>, v: seq<real>, m: nat)
    requires m + 8 <= |x| && m + 8 <= |v|
    ensures Dot(x, v, 0, m + 8) == Dot(x, v, 0, m)
      + Times(x[m], v[m]) + Times(x[m + 1], v[m + 1]) + Times(x[m + 2], v[m + 2]) + Times(x[m + 3], v[m + 3])
      + Times(x[m + 4], v[m + 4]) + Times(x[m + 5], v[m + 5]) + Times(x[m + 6], v[m + 6]) + Times(x[m + 7], v[m + 7])
  {
    hide Times;
    assert Dot(x, v, 0, m + 2) == Dot(x, v, 0, m) + Times(x[m], v[m]) + Times(x[m + 1], v[m + 1]);
    assert Dot(x, v, 0, m + 4) == Dot(x, v, 0, m + 2) + Times(x[m + 2], v[m + 2]) + Times(x[m + 3], v[m + 3]);
    assert Dot(x, v, 0, m + 6) == Dot(x, v, 0, m + 4) + Times(x[m + 4], v[m + 4]) + Times(x[m + 5], v[m + 5]);
    assert Dot(x, v, 0, m + 8) == Dot(x, v, 0, m + 6) + Times(x[m + 6], v[m + 6]) + Times(x[m + 7], v[m + 7]);
  }

  /** Together the lanes hold the dot product of everything visited: each element once. */
  lemma {:induction false} LanesAreDot(x: seq<real>, v: seq<real>, g: nat)
    requires 8 * g <= |x| && 8 * g <= |v|
    ensures LaneSum(x, v, g, 0) + LaneSum(x, v, g, 1) + LaneSum(x, v, g, 2) + LaneSum(x, v, g, 3)
      + LaneSum(x, v, g, 4) + LaneSum(x, v, g, 5) + LaneSum(x, v, g, 6) + LaneSum(x, v, g, 7) == Dot(x, v, 0, 8 * g)
  {
    hide Times, Dot;
    if g == 0 {
      DotNone(x, v);
    } else {
      var m := 8 * (g - 1);
      LanesAreDot(x, v, g - 1);
      DotEight(x, v, m);
      forall l | 0 <= l < 8 ensures LaneSum(x, v, g, l) == LaneSum(x, v, g - 1, l) + Times(x[m + l], v[m + l]) {
        TimesSwap(v[m + l], x[m + l]);
      }
    }
  }

  lemma DotNone(x: seq<real>, v: seq<real>)
    ensures Dot(x, v, 0, 0) == 0.0
  {
  }

  /** The two registers loaded for chunk `c` are the halves of its 32 bytes. */
  lemma ChunkHalves(b: Block, qs: seq<Byte>, c: nat)
    requires |b| == 144 && qs == b[16..] && c < 4
    ensures qs[32 * c..32 * c + 16] == b[16 + 32 * c..48 + 32 * c][..16]
    ensures qs[32 * c + 16..32 * c + 32] == b[16 + 32 * c..48 + 32 * c][16..]
  {
    assert b[16..] == b[16..144];
    SliceOfSlice(b, 16, 144, 32 * c, 32 * c + 16);
    SliceOfSlice(b, 16, 144, 32 * c + 16, 32 * c + 32);
    SliceOfSlice(b, 16 + 32 * c, 48 + 32 * c, 0, 16);
    SliceOfSlice(b, 16 + 32 * c, 48 + 32 * c, 16, 32);
  }

  /** `dot_q4k_superblock`: `qs` and `scales` are the parts of block `b` that hold nibbles and scales. */
  method DotSuperblock(ghost f: Floats, ghost b: Block, qs: seq<Byte>, scales: seq<Byte>, d: real, dmin: real,
      xseg: seq<real>,
                       ghost v: seq<real>) returns (s: real)
    requires |b| == 144 && qs == b[16..] && scales == b[4..16] && d == f.f16(b[0], b[1]) && dmin == f.f16(b[2], b[3])
    requires |xseg| == |v| == 256 && forall e :: 0 <= e < 256 ==> v[e] == Q4KAt(f, b, e)
    ensures s == Dot(xseg, v, 0, 256)
  {
    hide Times, Dot, SubScale, SubMin, ScaleMin, TimesByte, Affine, Q4KAt, Widen, JobRegister;
    var acc := seq(8, _ => 0.0);
    for c := 0 to 4
      invariant |acc| == 8 && forall l :: 0 <= l < 8 ==> acc[l] == LaneSum(xseg, v, 8 * c, l)
    {
      var (sc0, m0) := ScaleMin(2 * c, scales);
      var (sc1, m1) := ScaleMin(2 * c + 1, scales);
      var d0, mv0, d1, mv1 := TimesByte(d, sc0), TimesByte(dmin, m0), TimesByte(d, sc1), TimesByte(dmin, m1);
      SubScaleIs(f, b, 2 * c, d, dmin, scales);
      SubScaleIs(f, b, 2 * c + 1, d, dmin, scales);
      var q0, q1 := qs[32 * c..32 * c + 16], qs[32 * c + 16..32 * c + 32];
      ghost var chunk := b[16 + 32 * c..48 + 32 * c];
      ChunkHalves(b, qs, c);
      for job := 0 to 8
        invariant |acc| == 8 && forall l :: 0 <= l < 8 ==> acc[l] == LaneSum(xseg, v, 8 * c + job, l)
      {
        var qi := Widen(JobRegister(q0, q1, job));
        var vals := AffineLanes(qi, if job < 4 then d0 else d1, if job < 4 then mv0 else mv1);
        var at := 64 * c + 8 * job;
        forall l | 0 <= l < 8 ensures vals[l] == v[at + l] {
          JobElement(f, b, c, job, l);
        }
        acc := AddProducts(acc, vals, xseg[at..at + 8]);
      }
    }
    LanesAreDot(xseg, v, 32);
    s := HorizontalSum(acc);
  }
}
