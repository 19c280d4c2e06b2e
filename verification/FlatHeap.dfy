/**
  The block heap as a flat byte map (src/memory.rs:628-654, 718-751).

  `read` and `write` look for a block that contains the address by walking a hash
  map in an unspecified order. These lemmas show that once the blocks are laid
  out by the bump cursor the order cannot matter: both operations are those of
  one flat array of bytes.
*/
module FlatHeap {
  import opened Prelude
  import opened CowHeap

  /** First offset handed out; the 4 KiB below are reserved. */
  const HEAP_START: nat := 0x1000

  /** Some block `b` contains the `len` addresses from `a` on. */
  predicate Covers(m: Flat, b: Addr, a: nat, len: nat) {
    b in m && b.at <= a && a + len <= b.at + |m[b]|
  }

  ghost predicate Apart(m: Flat) {
    forall b, c :: b in m && c in m && b != c ==> b.at + |m[b]| <= c.at || c.at + |m[c]| <= b.at
  }

  /** Blocks are disjoint, not empty, and lie between the reserved page and the cursor. */
  ghost predicate Laid(m: Flat, origin: nat, next: nat) {
    && (forall b :: b in m ==> |m[b]| > 0 && origin + HEAP_START <= b.at && b.at + |m[b]| <= origin + next)
    && Apart(m)
  }

  /** What an address means: the offset from the region's prefix is cut to 64 bits. */
  function Canon(origin: nat, addr: Addr): nat
    requires origin <= addr.at
  {
    origin + (addr.at - origin) % TWO64
  }

  /** The byte at `a`, if any block holds one. */
  ghost function ByteAt(m: Flat, a: nat): Option<Byte> {
    if exists b :: Covers(m, b, a, 1) then
      var b :| Covers(m, b, a, 1);
      Some(m[b][a - b.at])
    else None
  }

  lemma OneOwner(m: Flat, b: Addr, c: Addr, a: nat)
    requires Apart(m) && Covers(m, b, a, 1) && Covers(m, c, a, 1)
    ensures b == c
  {
  }

  lemma ByteOf(m: Flat, b: Addr, a: nat)
    requires Apart(m) && Covers(m, b, a, 1)
    ensures ByteAt(m, a) == Some(m[b][a - b.at])
  {
    var c :| Covers(m, c, a, 1) && ByteAt(m, a) == Some(m[c][a - c.at]);
    OneOwner(m, b, c, a);
  }

  lemma Wrapped(x: nat, y: nat)
    requires x < TWO64 && x <= y
    ensures (y - x) % TWO64 == if x <= y % TWO64 then y % TWO64 - x else y % TWO64 - x + TWO64
  {
  }

  /** The search stops exactly at the blocks that contain the range the address means. */
  lemma HitsCovers(m: Flat, origin: nat, next: nat, b: Addr, addr: Addr, len: nat)
    requires Laid(m, origin, next) && next < TWO64 && origin <= addr.at
    ensures Hits(m, b, addr, len) <==> Covers(m, b, Canon(origin, addr), len)
    ensures Hits(m, b, addr, len) ==> Offset(b, addr) == Canon(origin, addr) - b.at
  {
    if b in m && b.at <= addr.at {
      Wrapped(b.at - origin, addr.at - origin);
    }
  }

  /** An address that is a base is covered by that block alone. */
  lemma BaseCovers(m: Flat, origin: nat, next: nat, b: Addr, c: Addr, len: nat)
    requires Laid(m, origin, next) && next < TWO64 && b in m && Covers(m, c, b.at, len)
    ensures len > 0 ==> c == b
    ensures Canon(origin, b) == b.at
  {
    assert Covers(m, b, b.at, 1);
    if len > 0 {
      assert Covers(m, c, b.at, 1);
    }
  }

  /** `data` is what the flat array holds from `a` on. */
  ghost predicate HoldsAt(m: Flat, a: nat, data: seq<Byte>) {
    forall i :: 0 <= i < |data| ==> ByteAt(m, a + i) == Some(data[i])
  }

  /**
    Reading is reading the flat array: it succeeds exactly when one block contains
    the whole range, and then returns the bytes that are there.
  */
  lemma ReadIsFlat(m: Flat, origin: nat, next: nat, addr: Addr, len: nat, r: Result<seq<Byte>, MemError>)
    requires Laid(m, origin, next) && next < TWO64 && origin <= addr.at && Reads(m, addr, len, r)
    ensures r.Ok? <==> exists b :: Covers(m, b, Canon(origin, addr), len)
    ensures r.Ok? ==> |r.value| == len && HoldsAt(m, Canon(origin, addr), r.value)
    ensures r.Err? ==> r.error == if addr in m then TooLong else Unmapped
  {
    hide Apart, Covers, HoldsAt, Hits;
    if addr in m {
      ReadAtBase(m, origin, next, addr, len, r);
    } else {
      ReadInside(m, origin, next, addr, len, r);
    }
  }

  lemma ReadAtBase(m: Flat, origin: nat, next: nat, addr: Addr, len: nat, r: Result<seq<Byte>, MemError>)
    requires Laid(m, origin, next) && next < TWO64 && origin <= addr.at && Reads(m, addr, len, r) && addr in m
    ensures r.Ok? <==> exists b :: Covers(m, b, Canon(origin, addr), len)
    ensures r.Ok? ==> |r.value| == len && HoldsAt(m, Canon(origin, addr), r.value)
    ensures r.Err? ==> r.error == TooLong
  {
    var a := Canon(origin, addr);
    BaseCovers(m, origin, next, addr, addr, 0);
    if b :| Covers(m, b, a, len) && len > 0 {
      BaseCovers(m, origin, next, addr, b, len);
    }
    if len <= |m[addr]| {
      assert Covers(m, addr, a, len);
      SliceHolds(m, addr, a, r.value);
    }
  }

  lemma ReadInside(m: Flat, origin: nat, next: nat, addr: Addr, len: nat, r: Result<seq<Byte>, MemError>)
    requires Laid(m, origin, next) && next < TWO64 && origin <= addr.at && Reads(m, addr, len, r) && addr !in m
    ensures r.Ok? <==> exists b :: Covers(m, b, Canon(origin, addr), len)
    ensures r.Ok? ==> |r.value| == len && HoldsAt(m, Canon(origin, addr), r.value)
    ensures r.Err? ==> r.error == Unmapped
  {
    hide HoldsAt, Apart;
    var a := Canon(origin, addr);
    forall b ensures Hits(m, b, addr, len) <==> Covers(m, b, a, len) {
      HitsCovers(m, origin, next, b, addr, len);
    }
    if r.Ok? {
      var b :| Hits(m, b, addr, len) && r == Ok(m[b][Offset(b, addr)..Offset(b, addr) + len]);
      HitsCovers(m, origin, next, b, addr, len);
      SliceHolds(m, b, a, r.value);
    }
  }

  lemma SliceHolds(m: Flat, b: Addr, a: nat, data: seq<Byte>)
    requires Apart(m) && Covers(m, b, a, |data|) && data == m[b][a - b.at..a - b.at + |data|]
    ensures HoldsAt(m, a, data)
  {
    forall i | 0 <= i < |data| ensures ByteAt(m, a + i) == Some(data[i]) {
      assert Covers(m, b, a + i, 1);
      ByteOf(m, b, a + i);
    }
  }

  /** The order in which the blocks are searched cannot be seen in the answer. */
  lemma ReadIsUnique(m: Flat, origin: nat, next: nat, addr: Addr, len: nat,
      r: Result<seq<Byte>, MemError>, r': Result<seq<Byte>, MemError>)
    requires Laid(m, origin, next) && next < TWO64 && origin <= addr.at
    requires Reads(m, addr, len, r) && Reads(m, addr, len, r')
    ensures r == r'
  {
    ReadIsFlat(m, origin, next, addr, len, r);
    ReadIsFlat(m, origin, next, addr, len, r');
    if r.Ok? {
      forall i | 0 <= i < len ensures r.value[i] == r'.value[i] {
        assert ByteAt(m, Canon(origin, addr) + i) == Some(r.value[i]);
      }
      assert r.value == r'.value;
    }
  }

  /** A block with `data` laid over the addresses from `a` on. */
  ghost function Overlaid(base: Addr, block: seq<Byte>, a: nat, data: seq<Byte>): (r: seq<Byte>)
    ensures |r| == |block|
    ensures forall i :: 0 <= i < |block| ==>
              r[i] == if a <= base.at + i < a + |data| then data[base.at + i - a] else block[i]
  {
    seq(|block|, i requires 0 <= i < |block| =>
      if a <= base.at + i < a + |data| then data[base.at + i - a] else block[i])
  }

  /** The heap with `data` laid over the addresses from `a` on, whichever blocks they are in. */
  ghost function FlatWrite(m: Flat, a: nat, data: seq<Byte>): Flat {
    map b | b in m :: Overlaid(b, m[b], a, data)
  }

  /** In the block that contains the range the data is a patch. */
  lemma OverlaidHome(m: Flat, b: Addr, a: nat, data: seq<Byte>)
    requires Covers(m, b, a, |data|)
    ensures Overlaid(b, m[b], a, data) == Patch(m[b], a - b.at, data)
  {
  }

  /** No other block is touched. */
  lemma OverlaidElsewhere(m: Flat, b: Addr, c: Addr, a: nat, data: seq<Byte>)
    requires Apart(m) && Covers(m, b, a, |data|) && c in m && c != b
    ensures Overlaid(c, m[c], a, data) == m[c]
  {
    assert b.at + |m[b]| <= c.at || c.at + |m[c]| <= b.at;
  }

  lemma PatchIsFlat(m: Flat, b: Addr, a: nat, data: seq<Byte>)
    requires Apart(m) && Covers(m, b, a, |data|)
    ensures m[b := Patch(m[b], a - b.at, data)] == FlatWrite(m, a, data)
  {
    var n, w := m[b := Patch(m[b], a - b.at, data)], FlatWrite(m, a, data);
    OverlaidHome(m, b, a, data);
    forall c | c in m ensures n[c] == w[c] {
      hide Overlaid, Patch, Apart;
      if c != b {
        OverlaidElsewhere(m, b, c, a, data);
      }
    }
    assert n.Keys == w.Keys;
  }

  /**
    Writing is writing the flat array: it succeeds exactly when one block contains
    the range, and then lays the data over it; otherwise nothing changes.
  */
  lemma WriteIsFlat(m: Flat, origin: nat, next: nat, addr: Addr, data: seq<Byte>, r: Result<(), MemError>, m': Flat)
    requires Laid(m, origin, next) && next < TWO64 && origin <= addr.at && Writes(m, addr, data, r, m')
    ensures r.Ok? <==> exists b :: Covers(m, b, Canon(origin, addr), |data|)
    ensures m' == if r.Ok? then FlatWrite(m, Canon(origin, addr), data) else m
    ensures r.Err? ==> r.error == if addr in m then TooLong else Unmapped
  {
    hide Apart, Covers, Hits, Patch, FlatWrite;
    if addr in m {
      WriteAtBase(m, origin, next, addr, data, r, m');
    } else {
      WriteInside(m, origin, next, addr, data, r, m');
    }
  }

  lemma WriteAtBase(m: Flat, origin: nat, next: nat, addr: Addr, data: seq<Byte>, r: Result<(), MemError>, m': Flat)
    requires Laid(m, origin, next) && next < TWO64 && origin <= addr.at && Writes(m, addr, data, r, m') && addr in m
    ensures r.Ok? <==> exists b :: Covers(m, b, Canon(origin, addr), |data|)
    ensures m' == if r.Ok? then FlatWrite(m, Canon(origin, addr), data) else m
    ensures r.Err? ==> r.error == TooLong
  {
    hide Apart, Patch, FlatWrite;
    var a := Canon(origin, addr);
    BaseCovers(m, origin, next, addr, addr, 0);
    if b :| Covers(m, b, a, |data|) && |data| > 0 {
      BaseCovers(m, origin, next, addr, b, |data|);
    }
    if |data| <= |m[addr]| {
      assert Covers(m, addr, a, |data|);
      PatchIsFlat(m, addr, a, data);
    }
  }

  lemma WriteInside(m: Flat, origin: nat, next: nat, addr: Addr, data: seq<Byte>, r: Result<(), MemError>, m': Flat)
    requires Laid(m, origin, next) && next < TWO64 && origin <= addr.at && Writes(m, addr, data, r, m') && addr !in m
    ensures r.Ok? <==> exists b :: Covers(m, b, Canon(origin, addr), |data|)
    ensures m' == if r.Ok? then FlatWrite(m, Canon(origin, addr), data) else m
    ensures r.Err? ==> r.error == Unmapped
  {
    hide Apart, Patch, FlatWrite;
    var a := Canon(origin, addr);
    forall b ensures Hits(m, b, addr, |data|) <==> Covers(m, b, a, |data|) {
      HitsCovers(m, origin, next, b, addr, |data|);
    }
    if r.Ok? {
      var b :| Hits(m, b, addr, |data|) && m' == m[b := Patch(m[b], Offset(b, addr), data)];
      HitsCovers(m, origin, next, b, addr, |data|);
      PatchIsFlat(m, b, a, data);
    }
  }

  /** A write moves and resizes no block. */
  lemma WriteKeepsBlocks(m: Flat, a: nat, data: seq<Byte>)
    ensures FlatWrite(m, a, data).Keys == m.Keys
    ensures forall b :: b in m ==> |FlatWrite(m, a, data)[b]| == |m[b]|
    ensures Apart(m) ==> Apart(FlatWrite(m, a, data))
    ensures forall origin, next :: Laid(m, origin, next) ==> Laid(FlatWrite(m, a, data), origin, next)
  {
  }

  /** A write inside one block changes exactly its own bytes. */
  lemma WriteChangesOnly(m: Flat, a: nat, data: seq<Byte>, x: nat)
    requires Apart(m) && exists b :: Covers(m, b, a, |data|)
    ensures ByteAt(FlatWrite(m, a, data), x) == if a <= x < a + |data| then Some(data[x - a]) else ByteAt(m, x)
  {
    hide Apart, Covers, FlatWrite;
    WriteKeepsBlocks(m, a, data);
    var home :| Covers(m, home, a, |data|);
    if a <= x < a + |data| {
      WrittenByte(m, home, a, data, x);
    } else {
      UnwrittenByte(m, a, data, x);
    }
  }

  lemma WrittenByte(m: Flat, home: Addr, a: nat, data: seq<Byte>, x: nat)
    requires Apart(m) && Covers(m, home, a, |data|) && a <= x < a + |data|
    ensures ByteAt(FlatWrite(m, a, data), x) == Some(data[x - a])
  {
    WriteKeepsBlocks(m, a, data);
    ByteOf(FlatWrite(m, a, data), home, x);
  }

  lemma UnwrittenByte(m: Flat, a: nat, data: seq<Byte>, x: nat)
    requires Apart(m) && !(a <= x < a + |data|)
    ensures ByteAt(FlatWrite(m, a, data), x) == ByteAt(m, x)
  {
    var w := FlatWrite(m, a, data);
    WriteKeepsBlocks(m, a, data);
    if b :| Covers(m, b, x, 1) {
      ByteOf(m, b, x);
      ByteOf(w, b, x);
    } else {
      assert forall b :: Covers(w, b, x, 1) ==> Covers(m, b, x, 1);
    }
  }
}
