/**
  The TEMPORAL region (src/memory.rs:655-668, 816-839): a ring of `physical` bytes
  addressed through a logical space of `logical` bytes, a multiple of it. It is
  proved to behave like an unbounded log of everything pushed, as far back as the
  ring can hold.
*/
module TemporalRing {
  import opened Prelude
  import opened Arith

  datatype RingError = TooLarge

  /** The ring's prefix in the 128-bit address space. */
  const ORIGIN: nat := 0x1000_0000_0000_0000_0000_0000_0000_0000

  /** `s` is where the log can be read from a ring: the last `p` bytes of it, byte `i` in cell `i mod p`. */
  ghost predicate Holds(cells: seq<Byte>, log: seq<Byte>, p: nat)
    requires 0 < p == |cells|
  {
    forall i :: 0 <= i < |log| && |log| - p <= i ==> cells[i % p] == log[i]
  }

  /** Cells met when walking `n` bytes on from cell `c`. */
  function Cell(c: nat, i: nat, p: nat): nat
    requires 0 < p
  {
    (c + i) % p
  }

  lemma ModAdd(a: int, b: int, p: nat)
    requires p > 0
    ensures (a % p + b) % p == (a + b) % p
  {
    var q := a / p;
    var r := (a % p + b) % p;
    var s := (a % p + b) / p;
    MulAdd(q, s, p);
    assert a + b == (q + s) * p + r;
    DivModUnique(a + b, p, q + s, r);
  }

  /** A modulus that divides another can be taken first. */
  lemma ModMod(a: nat, p: nat, l: nat)
    requires 0 < p && 0 < l && l % p == 0
    ensures (a % l) % p == a % p
  {
    var m, q := l / p, a / l;
    assert l == m * p;
    MulAssoc(q, m, p);
    var s, r := (a % l) / p, (a % l) % p;
    MulAdd(q * m, s, p);
    assert a == (q * m + s) * p + r;
    DivModUnique(a, p, q * m + s, r);
  }

  /** Two log positions less than `p` apart are in different cells. */
  lemma ModDistinct(i: nat, j: nat, p: nat)
    requires 0 < p && i < j < i + p
    ensures i % p != j % p
  {
    if i % p == j % p {
      MulAdd(j / p, i / p, p);
      assert (j / p - i / p) * p == j - i;
      if j / p - i / p >= 1 {
        MulMono(1, j / p - i / p, p);
      } else {
        MulMono(j / p - i / p, 0, p);
      }
      assert false;
    }
  }

  /** Walking on from cell `c < p` without or with one wrap. */
  lemma WrapOnce(c: nat, i: nat, p: nat)
    requires c < p && c + i < 2 * p
    ensures Cell(c, i, p) == if c + i < p then c + i else c + i - p
  {
    DivModUnique(c + i, p, if c + i < p then 0 else 1, if c + i < p then c + i else c + i - p);
  }

  /** The cells from the head on, with one wrap, are all met on the way. */
  lemma Touched(c: nat, head: nat, len: nat, p: nat)
    requires c < p && head < p && head + len <= 2 * p
    requires head <= c < head + len || c + p < head + len
    ensures exists i :: 0 <= i < len && Cell(head, i, p) == c
  {
    var i := if head <= c then c - head else c + p - head;
    WrapOnce(head, i, p);
    assert Cell(head, i, p) == c;
  }

  class Ring {
    const physical: nat
    const logical: nat
    const buffer: array<Byte>
    var head: nat
    var logicalHead: nat
    /** Everything ever pushed. */
    ghost var log: seq<Byte>

    ghost predicate Valid()
      reads this, buffer
    {
      && 0 < physical == buffer.Length
      && 0 < logical && logical % physical == 0
      && head == |log| % physical && logicalHead == |log| % logical
      && Holds(buffer[..], log, physical)
    }

    constructor (physical: nat, logical: nat)
      requires 0 < physical && 0 < logical && logical % physical == 0
      ensures Valid() && fresh(buffer) && log == [] && this.physical == physical && this.logical == logical
    {
      this.physical, this.logical := physical, logical;
      buffer := new Byte[physical](_ => 0);
      head, logicalHead, log := 0, 0, [];
    }

    /** The physical head is the logical head reduced once more. */
    lemma HeadsAgree()
      requires Valid()
      ensures head == logicalHead % physical
    {
      ModMod(|log|, physical, logical);
    }

    /** `temporal_push` */
    method Push(data: seq<Byte>) returns (r: Result<nat, RingError>)
      requires Valid()
      modifies this, buffer
      ensures Valid()
      ensures r == if |data| > physical then Err(TooLarge) else Ok(ORIGIN + old(|log|) % logical)
      ensures log == if |data| > physical then old(log) else old(log) + data
    {
      var len := |data|;
      if len > physical {
        return Err(TooLarge);
      }
      r := Ok(ORIGIN + logicalHead);
      ghost var before := buffer[..];
      var end := Lay(head, data);
      PushHolds(before, log, data, buffer[..], physical, head);
      ModAdd(|log|, len, logical);
      ModAdd(|log|, len, physical);
      logicalHead := (logicalHead + len) % logical;
      head := end;
      log := log + data;
    }

    /** The physical write, with its wrap; returns the cell behind it. */
    method Lay(at: nat, data: seq<Byte>) returns (end: nat)
      requires at < physical == buffer.Length && at + |data| <= 2 * physical
      modifies buffer
      ensures end == (at + |data|) % physical
      // Where the data wraps onto itself its later bytes stay.
      ensures forall i :: 0 <= i < |data| && |data| - physical <= i ==> buffer[Cell(at, i, physical)] == data[i]
      ensures forall c :: 0 <= c < physical && (forall i :: 0 <= i < |data| ==> Cell(at, i, physical) != c) ==>
                buffer[c] == old(buffer[c])
    {
      var len := |data|;
      if at + len <= physical {
        CopyIn(at, data);
        end := at + len;
      } else {
        var first := physical - at;
        CopyIn(at, data[..first]);
        CopyIn(0, data[first..]);
        end := len - first;
      }
      if end >= physical {
        end := 0;
      }
      forall i | 0 <= i <= len && at + i < 2 * physical
        ensures Cell(at, i, physical) == if at + i < physical then at + i else at + i - physical
      {
        WrapOnce(at, i, physical);
      }
      if at + len == 2 * physical {
        DivModUnique(at + len, physical, 2, 0);
      }
      assert Cell(at, len, physical) == end;
      forall c | 0 <= c < physical && (forall i :: 0 <= i < len ==> Cell(at, i, physical) != c)
        ensures buffer[c] == old(buffer[c])
      {
        if at <= c < at + len || c + physical < at + len {
          Touched(c, at, len, physical);
        }
      }
    }

    /** `copy_from_slice` into the buffer at `at`. */
    method CopyIn(at: nat, data: seq<Byte>)
      requires at + |data| <= buffer.Length
      modifies buffer
      ensures forall c :: 0 <= c < buffer.Length ==>
          buffer[c] == if at <= c < at + |data| then data[c - at] else old(buffer[c])
    {
      forall i | 0 <= i < |data| {
        buffer[at + i] := data[i];
      }
    }

    /** `write` in the TEMPORAL region: every log byte still held in a cell that is written becomes the data's.
      A write past the second lap makes the source panic. */
    method Write(addr: nat, data: seq<Byte>)
      requires Valid() && ORIGIN <= addr && (addr - ORIGIN) % physical + |data| <= 2 * physical
      modifies this`log, buffer
      ensures Valid() && log == Edited(old(log), physical, (addr - ORIGIN) % physical, data)
      ensures var at := (addr - ORIGIN) % physical;
              && (forall i :: 0 <= i < |data| && |data| - physical <= i ==> buffer[Cell(at, i, physical)] == data[i])
              && (forall c :: 0 <= c < physical && (forall i :: 0 <= i < |data| ==> Cell(at, i, physical) != c) ==>
                buffer[c] == old(buffer[c]))
    {
      var at := (addr - ORIGIN) % physical;
      ghost var before := buffer[..];
      var _ := Lay(at, data);
      EditHolds(before, log, data, buffer[..], physical, at);
      log := Edited(log, physical, at, data);
    }

    /** `read` in the TEMPORAL region. A read past the second lap makes the source panic. */
    method Read(addr: nat, len: nat) returns (out: seq<Byte>)
      requires Valid() && ORIGIN <= addr && (addr - ORIGIN) % physical + len <= 2 * physical
      ensures |out| == len
      ensures forall i :: 0 <= i < len ==> out[i] == buffer[Cell((addr - ORIGIN) % physical, i, physical)]
      // What was pushed is read back, while no more than the ring holds has been pushed from there on.
      ensures forall start ::
                0 <= start && start % logical == addr - ORIGIN && start + len <= |log| <= start + physical ==>
                  out == log[start..start + len]
    {
      var at := (addr - ORIGIN) % physical;
      if at + len <= physical {
        out := buffer[at..at + len];
      } else {
        var first := physical - at;
        out := buffer[at..] + buffer[..len - first];
      }
      forall i | 0 <= i < len ensures out[i] == buffer[Cell(at, i, physical)] {
        WrapOnce(at, i, physical);
      }
      forall start | 0 <= start && start % logical == addr - ORIGIN && start + len <= |log| <= start + physical
        ensures out == log[start..start + len]
      {
        ModMod(start, physical, logical);
        forall i | 0 <= i < len ensures out[i] == log[start + i] {
          ModAdd(start, i, physical);
          assert buffer[..][(start + i) % physical] == log[start + i];
        }
      }
    }
  }

  /** Laying `data` over the cells from the head on keeps the ring in step with the longer log. */
  lemma PushHolds(before: seq<Byte>, log: seq<Byte>, data: seq<Byte>, after: seq<Byte>, p: nat, head: nat)
    requires 0 < p == |before| == |after| && |data| <= p && head == |log| % p
    requires Holds(before, log, p)
    requires forall i :: 0 <= i < |data| ==> after[Cell(head, i, p)] == data[i]
    requires forall c :: 0 <= c < p && (forall i :: 0 <= i < |data| ==> Cell(head, i, p) != c) ==> after[c] == before[c]
    ensures Holds(after, log + data, p)
  {
    var all := log + data;
    forall j | 0 <= j < |all| && |all| - p <= j ensures after[j % p] == all[j] {
      if j >= |log| {
        ModAdd(|log|, j - |log|, p);
      } else {
        forall i | 0 <= i < |data| ensures Cell(head, i, p) != j % p {
          ModAdd(|log|, i, p);
          ModDistinct(j, |log| + i, p);
        }
      }
    }
  }

  /** Steps around the ring from cell `at` to the cell of log byte `j`. */
  function Steps(j: nat, at: nat, p: nat): nat
    requires 0 < p
  {
    (j - at) % p
  }

  /**
    Which byte of data laid from cell `at` on is left in the cell `i` further on: the later one if it
    wraps onto itself.
  */
  function Landed(i: nat, len: nat, p: nat): nat {
    if i + p < len then i + p else i
  }

  /** The log with `data` over the cells from `at` on, as far back as the ring reaches. */
  ghost function Edited(log: seq<Byte>, p: nat, at: nat, data: seq<Byte>): (r: seq<Byte>)
    requires at < p
    ensures |r| == |log|
  {
    seq(|log|, j requires 0 <= j < |log| =>
      if |log| - p <= j && Steps(j, at, p) < |data| then data[Landed(Steps(j, at, p), |data|, p)] else log[j])
  }

  /** Writing at the address of a stretch of the log that is still held replaces just that stretch. */
  lemma EditIsSplice(log: seq<Byte>, p: nat, l: nat, start: nat, data: seq<Byte>)
    requires 0 < p && 0 < l && l % p == 0 && |data| <= p && start + |data| <= |log| <= start + p
    ensures Edited(log, p, (start % l) % p, data) == log[..start] + data + log[start + |data|..]
  {
    ModMod(start, p, l);
    EditAtStart(log, p, start % p, start, data);
  }

  lemma EditAtStart(log: seq<Byte>, p: nat, at: nat, start: nat, data: seq<Byte>)
    requires 0 < p && at == start % p && |data| <= p && start + |data| <= |log| <= start + p
    ensures Edited(log, p, at, data) == log[..start] + data + log[start + |data|..]
  {
    hide Steps;
    var splice := log[..start] + data + log[start + |data|..];
    forall j | 0 <= j < |log| ensures Edited(log, p, at, data)[j] == splice[j] {
      if |log| - p <= j {
        SpliceStep(j, start, at, p);
      }
    }
  }

  /** How far byte `j` of a held stretch lies from the start of a write, in steps around the ring. */
  lemma SpliceStep(j: nat, start: nat, at: nat, p: nat)
    requires 0 < p && at == start % p && start - p <= j < start + p
    ensures Steps(j, at, p) == if j < start then j - start + p else j - start
  {
    ModSub(j, start, p);
    ModOfSmall(j - start, p, if j < start then j - start + p else j - start);
  }

  lemma ModSub(j: int, start: nat, p: nat)
    requires p > 0
    ensures (j - start % p) % p == (j - start) % p
  {
    ModAdd(j - start, 0, p);
    var q := start / p;
    var r := (j - start) / p;
    MulAdd(q, r, p);
    DivModUnique(j - start % p, p, q + r, (j - start) % p);
  }

  lemma ModOfSmall(x: int, p: nat, r: nat)
    requires r < p && (x == r || x == r - p)
    ensures x % p == r
  {
    DivModUnique(x, p, if x == r then 0 else -1, r);
  }

  lemma EditHolds(before: seq<Byte>, log: seq<Byte>, data: seq<Byte>, after: seq<Byte>, p: nat, at: nat)
    requires 0 < p == |before| == |after| && at < p && at + |data| <= 2 * p
    requires Holds(before, log, p)
    requires forall i :: 0 <= i < |data| && |data| - p <= i ==> after[Cell(at, i, p)] == data[i]
    requires forall c :: 0 <= c < p && (forall i :: 0 <= i < |data| ==> Cell(at, i, p) != c) ==> after[c] == before[c]
    ensures Holds(after, Edited(log, p, at, data), p)
  {
    hide Steps;
    var edited := Edited(log, p, at, data);
    forall j | 0 <= j < |log| && |log| - p <= j ensures after[j % p] == edited[j] {
      EditCell(at, j, p);
      var i := Steps(j, at, p);
      if i >= |data| {
        forall k | 0 <= k < |data| ensures Cell(at, k, p) != j % p {
          CellsDiffer(at, k, i, p);
        }
      } else {
        assert after[Cell(at, Landed(i, |data|, p), p)] == data[Landed(i, |data|, p)];
      }
    }
  }

  /** The two walks from `at` that end in the cell of log byte `j`. */
  lemma EditCell(at: nat, j: nat, p: nat)
    requires at < p
    ensures Steps(j, at, p) < p && Cell(at, Steps(j, at, p), p) == Cell(at, Steps(j, at, p) + p, p) == j % p
  {
    var i := (j - at) % p;
    ModAdd(j - at, at, p);
    DivModUnique(at + i + p, p, (at + i) / p + 1, (at + i) % p);
    MulAdd((at + i) / p, 1, p);
  }

  lemma CellsDiffer(at: nat, k: nat, i: nat, p: nat)
    requires k < i < p
    ensures Cell(at, k, p) != Cell(at, i, p)
  {
    ModDistinct(at + k, at + i, p);
  }
}
