/**
  A block heap with copy-on-write snapshots (src/memory.rs).

  The source keeps `HashMap<u128, Arc<Vec<u8>>>` for the GLOBAL and the KV_CACHE
  regions, plus one map of such maps holding the snapshots. Cloning a map copies
  only the `Arc`s, and every write goes through `Arc::make_mut`. `CowHeap` models
  one region with real sharing; the view gives the heap a reader sees, in which
  nothing is shared. Each method is proved to act on the view as if every
  snapshot were a deep copy.
*/
module CowHeap {
  import opened Prelude

  /** A 128-bit address. */
  datatype Addr = Addr(at: nat)

  /** A snapshot's id. */
  datatype Version = Version(n: nat)

  /** What one region holds: base address to block contents. */
  type Flat = map<Addr, seq<Byte>>

  /** The unshared meaning of a region: its live heap and its retained snapshots. */
  datatype Region = Region(live: Flat, saved: map<Version, Flat>)

  datatype MemError = ZeroSize | TooLong | Unmapped

  function Align64(size: nat): nat {
    (size + 63) / 64 * 64
  }

  function Zeros(n: nat): seq<Byte> {
    seq(n, _ => 0 as Byte)
  }

  /** `addr - base` cut to a `usize`, as the search over the blocks computes it. */
  function Offset(base: Addr, addr: Addr): nat
    requires base.at <= addr.at
  {
    (addr.at - base.at) % TWO64
  }

  /** The search of `read` and `write` may stop at block `base`. */
  predicate Hits(m: Flat, base: Addr, addr: Addr, len: nat) {
    base in m && base.at <= addr.at && Offset(base, addr) + len <= |m[base]|
  }

  function Patch(block: seq<Byte>, off: nat, data: seq<Byte>): (r: seq<Byte>)
    requires off + |data| <= |block|
    ensures |r| == |block|
    ensures forall i :: 0 <= i < |block| ==> r[i] == if off <= i < off + |data| then data[i - off] else block[i]
  {
    block[..off] + data + block[off + |data|..]
  }

  // ---------------------------------------------------------------------
  // Reference counts
  // ---------------------------------------------------------------------

  /** `Arc<Vec<u8>>`: a shared buffer, its strong count, and (for the proof) the places that hold it. */
  class ArcBlock {
    var bytes: seq<Byte>
    var refs: nat
    ghost var owners: set<Place>

    constructor (bytes: seq<Byte>, ghost owner: Place)
      ensures this.bytes == bytes && refs == 1 && owners == {owner}
    {
      this.bytes, refs, owners := bytes, 1, {owner};
    }
  }

  type Table = map<Addr, ArcBlock>

  /** Where a reference is kept: a table (the live heap, or a snapshot) and a base address in it. */
  datatype Place = Place(table: Option<Version>, base: Addr)

  /** All references there are: each place and the block it points at. */
  type Holdings = map<Place, ArcBlock>

  /** Every referenced block is known, and its count is exactly the number of places that hold it. */
  ghost predicate Counted(held: Holdings, bs: set<ArcBlock>)
    reads bs`refs, bs`owners
  {
    && (forall p :: p in held ==> held[p] in bs && p in held[p].owners)
    && (forall b :: b in bs ==> b.refs == |b.owners| && b.owners != {})
    && (forall b, p :: b in bs && p in b.owners ==> p in held && held[p] == b)
  }

  /** The bytes behind each place. */
  ghost predicate Carries(held: Holdings, contents: map<Place, seq<Byte>>)
    reads held.Values`bytes
  {
    contents.Keys == held.Keys && forall p :: p in held ==> held[p].bytes == contents[p]
  }

  /** A block with count one is held in one place only, so writing it in place is unseen elsewhere. */
  lemma SoleOwner(held: Holdings, bs: set<ArcBlock>, p: Place, q: Place)
    requires Counted(held, bs) && p in held && q in held
    requires held[p] == held[q] && held[p].refs == 1
    ensures p == q
  {
    assert |held[p].owners - {p}| == 0;
  }

  /** `Arc::clone` into a fresh place: one more reference to the block. */
  method Retain(ghost held: Holdings, ghost p: Place, b: ArcBlock, ghost bs: set<ArcBlock>)
    requires Counted(held, bs) && b in bs && p !in held
    modifies b`refs, b`owners
    ensures Counted(held[p := b], bs)
  {
    b.refs := b.refs + 1;
    b.owners := b.owners + {p};
  }

  /** Dropping one reference; the block is freed with its last one. */
  method Release(ghost held: Holdings, ghost p: Place, b: ArcBlock, ghost bs: set<ArcBlock>)
      returns (ghost cs: set<ArcBlock>)
    requires Counted(held, bs) && p in held && held[p] == b
    modifies b`refs, b`owners
    ensures Counted(held - {p}, cs) && cs <= bs
  {
    assert |b.owners - {p}| == |b.owners| - 1;
    b.refs := b.refs - 1;
    b.owners := b.owners - {p};
    cs := if b.refs == 0 then bs - {b} else bs;
    forall q | q in held - {p} ensures held[q] in cs && q in held[q].owners {
      if held[q] == b {
        assert q in b.owners;
        assert b.refs != 0;
      }
    }
  }

  lemma NonEmpty(s: set<Addr>)
    requires s != {}
    ensures exists a :: a in s
  {
  }

  /** Cloning a map of `Arc`s: one more reference to each block, no byte copied. */
  method CloneTable(src: Table, ghost held: Holdings, ghost t: Option<Version>, ghost bs: set<ArcBlock>)
      returns (dst: Table, ghost held': Holdings)
    requires Counted(held, bs) && forall a :: a in src ==> src[a] in bs
    requires forall p :: p in held ==> p.table != t
    modifies bs`refs, bs`owners
    ensures dst == src && Counted(held', bs) && Grafts(held, t, src, held')
  {
    dst, held' := map[], held;
    var rest := src.Keys;
    while rest != {}
      invariant rest <= src.Keys && dst.Keys == src.Keys - rest
      invariant forall a :: a in dst ==> dst[a] == src[a]
      invariant Counted(held', bs)
      invariant forall p :: p in held' <==> p in held || (p.table == t && p.base in dst)
      invariant forall p :: p in held' ==> held'[p] == if p.table == t then src[p.base] else held[p]
    {
      NonEmpty(rest);
      var a :| a in rest;
      Retain(held', Place(t, a), src[a], bs);
      held' := held'[Place(t, a) := src[a]];
      dst := dst[a := src[a]];
      rest := rest - {a};
    }
  }

  /** Dropping a map of `Arc`s. */
  method DropTable(src: Table, ghost held: Holdings, ghost t: Option<Version>, ghost bs: set<ArcBlock>)
      returns (ghost held': Holdings, ghost cs: set<ArcBlock>)
    requires Counted(held, bs)
    requires forall p :: p in held && p.table == t <==> p.table == t && p.base in src
    requires forall a :: a in src ==> held[Place(t, a)] == src[a]
    modifies bs`refs, bs`owners
    ensures Counted(held', cs) && cs <= bs && Prunes(held, t, held')
  {
    held', cs := held, bs;
    var rest := src.Keys;
    while rest != {}
      invariant rest <= src.Keys && cs <= bs && Counted(held', cs)
      invariant forall p :: p in held' <==> p in held && (p.table == t ==> p.base in rest)
      invariant forall p :: p in held' ==> held'[p] == held[p]
    {
      NonEmpty(rest);
      var a :| a in rest;
      cs := Release(held', Place(t, a), src[a], cs);
      held' := held' - {Place(t, a)};
      rest := rest - {a};
    }
  }

  // ---------------------------------------------------------------------
  // Flat listings of live and saved tables
  // ---------------------------------------------------------------------

  /** `flat` lists every entry of the live map and of the saved maps under its place. */
  ghost predicate Flattens<V>(live: map<Addr, V>, saved: map<Version, map<Addr, V>>, flat: map<Place, V>) {
    && (forall p :: p in flat ==>
          if p.table == None then p.base in live && flat[p] == live[p.base]
          else p.table.value in saved && p.base in saved[p.table.value] && flat[p] == saved[p.table.value][p.base])
    && (forall a :: a in live ==> Place(None, a) in flat)
    && (forall v, a :: v in saved && a in saved[v] ==> Place(Some(v), a) in flat)
  }

  lemma FlattensInsert<V>(live: map<Addr, V>, saved: map<Version, map<Addr, V>>, flat: map<Place, V>, a: Addr, v: V)
    requires Flattens(live, saved, flat)
    ensures Flattens(live[a := v], saved, flat[Place(None, a) := v])
  {
  }

  lemma FlattensRemove<V>(live: map<Addr, V>, saved: map<Version, map<Addr, V>>, flat: map<Place, V>, a: Addr)
    requires Flattens(live, saved, flat)
    ensures Flattens(live - {a}, saved, flat - {Place(None, a)})
  {
  }

  // ---------------------------------------------------------------------
  // The region
  // ---------------------------------------------------------------------

  /** `flat'` is `flat` with a copy of `table` as table `t`. */
  ghost predicate Grafts<V>(flat: map<Place, V>, t: Option<Version>, table: map<Addr, V>, flat': map<Place, V>) {
    && (forall p :: p in flat' <==> (p in flat && p.table != t) || (p.table == t && p.base in table))
    && (forall p :: p in flat' ==> flat'[p] == if p.table == t then table[p.base] else flat[p])
  }

  /** `flat'` is `flat` without table `t`. */
  ghost predicate Prunes<V>(flat: map<Place, V>, t: Option<Version>, flat': map<Place, V>) {
    && (forall p :: p in flat' <==> p in flat && p.table != t)
    && (forall p :: p in flat' ==> flat'[p] == flat[p])
  }

  lemma FlattensKeep<V>(live: map<Addr, V>, saved: map<Version, map<Addr, V>>, flat: map<Place, V>, v: Version,
      flat': map<Place, V>)
    requires Flattens(live, saved, flat) && v !in saved
    requires Grafts(flat, Some(v), live, flat')
    ensures Flattens(live, saved[v := live], flat')
  {
  }

  /** Table `t` names known blocks, whose bytes are `flat`. */
  ghost predicate Mirrors(bs: set<ArcBlock>, t: Table, flat: Flat)
    reads bs`bytes
  {
    && t.Keys == flat.Keys
    && (forall a :: a in t ==> t[a] in bs && t[a].bytes == flat[a])
  }

  datatype Books = Books(blocks: set<ArcBlock>, held: Holdings, contents: map<Place, seq<Byte>>, view: Region) {
    ghost predicate Balanced(live: Table, saved: map<Version, Table>)
      reads blocks
    {
      && Counted(held, blocks)
      && Carries(held, contents)
      && Flattens(live, saved, held)
      && Flattens(view.live, view.saved, contents)
      && saved.Keys == view.saved.Keys
    }

    lemma Open(live: Table, saved: map<Version, Table>)
      requires Balanced(live, saved)
      ensures Counted(held, blocks) && Carries(held, contents)
      ensures Flattens(live, saved, held) && Flattens(view.live, view.saved, contents)
      ensures saved.Keys == view.saved.Keys
    {
    }

    lemma Close(live: Table, saved: map<Version, Table>)
      requires Counted(held, blocks) && Carries(held, contents)
      requires Flattens(live, saved, held) && Flattens(view.live, view.saved, contents)
      requires saved.Keys == view.saved.Keys
      ensures Balanced(live, saved)
    {
    }

    /** The live table reads as the live view, and each saved one as its saved view. */
    lemma SameKeys(live: Table, saved: map<Version, Table>)
      requires Balanced(live, saved)
      ensures live.Keys == view.live.Keys && saved.Keys == view.saved.Keys
      ensures Mirrors(blocks, live, view.live)
      ensures forall v :: v in saved ==> Mirrors(blocks, saved[v], view.saved[v])
    {
      forall a ensures a in live <==> a in view.live {
        assert a in live <==> Place(None, a) in held;
      }
      forall v | v in saved ensures Mirrors(blocks, saved[v], view.saved[v]) {
        forall a ensures a in saved[v] <==> a in view.saved[v] {
          assert a in saved[v] <==> Place(Some(v), a) in held;
        }
        forall a | a in saved[v] ensures saved[v][a] in blocks && saved[v][a].bytes == view.saved[v][a] {
          assert Place(Some(v), a) in held;
        }
      }
      forall a | a in live ensures live[a] in blocks && live[a].bytes == view.live[a] {
        assert Place(None, a) in held;
      }
    }

    lemma SavedView(live: Table, saved: map<Version, Table>, v: Version) returns (flat: Flat)
      requires Balanced(live, saved) && v in saved
      ensures v in view.saved && flat == view.saved[v] && Mirrors(blocks, saved[v], flat)
    {
      SameKeys(live, saved);
      flat := view.saved[v];
    }

    lemma At(live: Table, saved: map<Version, Table>, a: Addr)
      requires Balanced(live, saved)
      ensures a in live <==> a in view.live
      ensures a in live ==> live[a] in blocks && live[a].bytes == view.live[a]
      ensures Place(None, a) in held <==> a in live
      ensures a in live ==> held[Place(None, a)] == live[a]
    {
      assert a in live <==> Place(None, a) in held;
    }
  }

  /** `HashMap::remove` of a key of the live map. */
  method Forget(live: Table, saved: map<Version, Table>, addr: Addr, b: ArcBlock, ghost books: Books)
      returns (ghost books': Books)
    requires books.Balanced(live, saved) && addr in live && live[addr] == b
    modifies b`refs, b`owners
    ensures books'.Balanced(live - {addr}, saved) && books'.blocks <= books.blocks
    ensures books'.view == books.view.(live := books.view.live - {addr})
  {
    hide Counted, Flattens, Books.Balanced;
    books.At(live, saved, addr);
    books.Open(live, saved);
    ghost var p := Place(None, addr);
    FlattensRemove(books.view.live, books.view.saved, books.contents, addr);
    FlattensRemove(live, saved, books.held, addr);
    ghost var cs := Release(books.held, p, b, books.blocks);
    books' := Books(cs, books.held - {p}, books.contents - {p}, books.view.(live := books.view.live - {addr}));
    books'.Close(live - {addr}, saved);
  }

  /** `HashMap::insert` of a new `Arc` under a fresh key of the live map. */
  method Record(live: Table, saved: map<Version, Table>, addr: Addr, bytes: seq<Byte>, ghost books: Books)
      returns (block: ArcBlock, ghost books': Books)
    requires books.Balanced(live, saved) && addr !in live
    ensures fresh(block) && block.refs == 1 && block.bytes == bytes
    ensures books'.Balanced(live[addr := block], saved) && books'.blocks == books.blocks + {block}
    ensures books'.view == books.view.(live := books.view.live[addr := bytes])
  {
    hide Flattens, Books.Balanced;
    books.At(live, saved, addr);
    books.Open(live, saved);
    ghost var p := Place(None, addr);
    block := new ArcBlock(bytes, p);
    FlattensInsert(books.view.live, books.view.saved, books.contents, addr, bytes);
    FlattensInsert(live, saved, books.held, addr, block);
    books' := Books(books.blocks + {block}, books.held[p := block], books.contents[p := bytes],
      books.view.(live := books.view.live[addr := bytes]));
    books'.Close(live[addr := block], saved);
  }

  /** The copying half of `Arc::make_mut`: the live heap gets a private copy of block `b`. */
  method CopyOut(live: Table, saved: map<Version, Table>, addr: Addr, b: ArcBlock, ghost books: Books)
      returns (block: ArcBlock, ghost books': Books)
    requires books.Balanced(live, saved) && addr in live && live[addr] == b
    modifies b`refs, b`owners
    ensures fresh(block) && block.refs == 1 && block.bytes == b.bytes
    ensures books'.Balanced(live[addr := block], saved)
    ensures books'.blocks <= books.blocks + {block} && books'.view == books.view
  {
    books.SameKeys(live, saved);
    Reinsert(books.view.live, addr, b.bytes);
    books' := Forget(live, saved, addr, b, books);
    block, books' := Record(live - {addr}, saved, addr, b.bytes, books');
    Overwrite(live, addr, block);
  }

  lemma Reinsert<V>(m: map<Addr, V>, a: Addr, v: V)
    requires a in m && m[a] == v
    ensures (m - {a})[a := v] == m
  {
  }

  /** Writing an unshared block in place changes the live heap at `addr` and nothing else. */
  method Poke(live: Table, saved: map<Version, Table>, addr: Addr, block: ArcBlock, bytes: seq<Byte>,
      ghost books: Books)
      returns (ghost books': Books)
    requires books.Balanced(live, saved) && addr in live && live[addr] == block && block.refs == 1
    modifies block`bytes
    ensures books'.Balanced(live, saved) && books'.blocks == books.blocks
    ensures books'.view == books.view.(live := books.view.live[addr := bytes])
  {
    ghost var p := Place(None, addr);
    forall q | q in books.held && books.held[q] == block ensures q == p {
      SoleOwner(books.held, books.blocks, p, q);
    }
    FlattensInsert(books.view.live, books.view.saved, books.contents, addr, bytes);
    block.bytes := bytes;
    assert Carries(books.held, books.contents[p := bytes]);
    books' := books.(contents := books.contents[p := bytes], view :=
      books.view.(live := books.view.live[addr := bytes]));
  }

  /** The live table is saved under a new id: its references are cloned, its bytes are not. */
  method Keep(live: Table, saved: map<Version, Table>, v: Version, ghost books: Books)
      returns (table: Table, ghost books': Books)
    requires books.Balanced(live, saved) && v !in saved
    modifies books.blocks`refs, books.blocks`owners
    ensures books'.Balanced(live, saved[v := table]) && books'.blocks == books.blocks
    ensures books'.view == books.view.(saved := books.view.saved[v := books.view.live])
  {
    hide Counted, Flattens, Grafts, Carries, Mirrors, Books.Balanced;
    books.Open(live, saved);
    books.SameKeys(live, saved);
    Unheld(live, saved, books.held, v);
    ghost var held;
    table, held := CloneTable(live, books.held, Some(v), books.blocks);
    books' := KeepBooks(live, saved, v, held, books);
  }

  lemma KeepBooks(live: Table, saved: map<Version, Table>, v: Version, held: Holdings, books: Books)
      returns (books': Books)
    requires v !in saved && saved.Keys == books.view.saved.Keys
    requires Counted(held, books.blocks) && Grafts(books.held, Some(v), live, held)
    requires Carries(books.held, books.contents) && Mirrors(books.blocks, live, books.view.live)
    requires Flattens(live, saved, books.held) && Flattens(books.view.live, books.view.saved, books.contents)
    ensures books'.Balanced(live, saved[v := live]) && books'.blocks == books.blocks
    ensures books'.view == books.view.(saved := books.view.saved[v := books.view.live])
  {
    hide Counted, Flattens, Grafts, Carries, Mirrors, Bytes, Books.Balanced;
    var contents := Bytes(held);
    GraftBytes(books.blocks, books.held, books.contents, Some(v), live, books.view.live, held);
    FlattensKeep(live, saved, books.held, v, held);
    FlattensKeep(books.view.live, books.view.saved, books.contents, v, contents);
    books' := Books(books.blocks, held, contents, books.view.(saved := books.view.saved[v := books.view.live]));
    books'.Close(live, saved[v := live]);
  }

  lemma Unheld<V>(live: map<Addr, V>, saved: map<Version, map<Addr, V>>, flat: map<Place, V>, v: Version)
    requires Flattens(live, saved, flat) && v !in saved
    ensures forall p :: p in flat ==> p.table != Some(v)
  {
  }

  /** A saved table is dropped with the references it held. */
  method Discard(src: Table, live: Table, saved: map<Version, Table>, ghost v: Version, ghost books: Books)
      returns (ghost books': Books)
    requires books.Balanced(live, saved) && v in saved && saved[v] == src
    modifies books.blocks`refs, books.blocks`owners
    ensures books'.Balanced(live, saved - {v}) && books'.blocks <= books.blocks
    ensures books'.view == books.view.(saved := books.view.saved - {v})
  {
    hide Counted, Flattens, Prunes, Carries, Bytes, Books.Balanced;
    books.Open(live, saved);
    HeldIn(live, saved, books.held, v);
    ghost var held, blocks;
    held, blocks := DropTable(src, books.held, Some(v), books.blocks);
    ghost var contents := Bytes(held);
    PruneBytes(books.held, books.contents, Some(v), held);
    FlattensDrop(live, saved, books.held, v, held);
    FlattensDrop(books.view.live, books.view.saved, books.contents, v, contents);
    books' := Books(blocks, held, contents, books.view.(saved := books.view.saved - {v}));
    books'.Close(live, saved - {v});
  }

  lemma HeldIn<V>(live: map<Addr, V>, saved: map<Version, map<Addr, V>>, flat: map<Place, V>, v: Version)
    requires Flattens(live, saved, flat) && v in saved
    ensures forall p :: p in flat && p.table == Some(v) <==> p.table == Some(v) && p.base in saved[v]
    ensures forall a :: a in saved[v] ==> flat[Place(Some(v), a)] == saved[v][a]
  {
  }

  lemma PruneBytes(held: Holdings, contents: map<Place, seq<Byte>>, t: Option<Version>, held': Holdings)
    requires Carries(held, contents)
    requires Prunes(held, t, held')
    ensures Carries(held', Bytes(held')) && Prunes(contents, t, Bytes(held'))
  {
  }

  lemma FlattensDrop<V>(live: map<Addr, V>, saved: map<Version, map<Addr, V>>, flat: map<Place, V>, v: Version,
      flat': map<Place, V>)
    requires Flattens(live, saved, flat)
    requires Prunes(flat, Some(v), flat')
    ensures Flattens(live, saved - {v}, flat')
  {
  }

  /** The old live map is dropped. */
  method Empty(live: Table, saved: map<Version, Table>, ghost books: Books) returns (ghost books': Books)
    requires books.Balanced(live, saved)
    modifies books.blocks`refs, books.blocks`owners
    ensures books'.Balanced(map[], saved) && books'.blocks <= books.blocks
    ensures books'.view == books.view.(live := map[])
  {
    hide Counted, Flattens, Books.Balanced;
    books.Open(live, saved);
    ghost var held, blocks;
    held, blocks := DropTable(live, books.held, None, books.blocks);
    ghost var contents := Bytes(held);
    FlattensEmpty(live, saved, books.held, held);
    FlattensEmpty(books.view.live, books.view.saved, books.contents, contents);
    books' := Books(blocks, held, contents, books.view.(live := map[]));
    books'.Close(map[], saved);
  }

  lemma FlattensEmpty<V>(live: map<Addr, V>, saved: map<Version, map<Addr, V>>, flat: map<Place, V>,
      flat': map<Place, V>)
    requires Flattens(live, saved, flat)
    requires Prunes(flat, None, flat')
    ensures Flattens(map[], saved, flat')
  {
  }

  /** The empty live table is filled with clones of the references of a saved one. */
  method Refill(src: Table, saved: map<Version, Table>, ghost v: Version, ghost books: Books)
      returns (table: Table, ghost books': Books)
    requires books.Balanced(map[], saved) && books.view.live == map[] && v in saved && saved[v] == src
    modifies books.blocks`refs, books.blocks`owners
    ensures books'.Balanced(table, saved) && books'.blocks == books.blocks
    ensures books'.view == books.view.(live := books.view.saved[v])
  {
    hide Counted, Flattens, Grafts, Carries, Mirrors, Books.Balanced;
    books.Open(map[], saved);
    ghost var flat := books.SavedView(map[], saved, v);
    Cleared(saved, books.held);
    ghost var held;
    table, held := CloneTable(src, books.held, None, books.blocks);
    books' := RefillBooks(src, saved, v, held, flat, books);
  }

  lemma RefillBooks(src: Table, saved: map<Version, Table>, v: Version, held: Holdings, flat: Flat, books: Books)
      returns (books': Books)
    requires v in saved && saved[v] == src && saved.Keys == books.view.saved.Keys && flat == books.view.saved[v]
    requires Counted(held, books.blocks) && Grafts(books.held, None, src, held)
    requires Carries(books.held, books.contents) && Mirrors(books.blocks, src, flat)
    requires Flattens(map[], saved, books.held) && Flattens(map[], books.view.saved, books.contents)
    ensures books'.Balanced(src, saved) && books'.blocks == books.blocks
    ensures books'.view == books.view.(live := flat)
  {
    hide Counted, Flattens, Grafts, Carries, Mirrors, Bytes, Books.Balanced;
    var contents := Bytes(held);
    GraftBytes(books.blocks, books.held, books.contents, None, src, flat, held);
    FlattensRefill(saved, books.held, v, held);
    FlattensRefill(books.view.saved, books.contents, v, contents);
    books' := Books(books.blocks, held, contents, books.view.(live := flat));
    books'.Close(src, saved);
  }

  lemma Cleared<V>(saved: map<Version, map<Addr, V>>, flat: map<Place, V>)
    requires Flattens(map[], saved, flat)
    ensures forall p :: p in flat ==> p.table != None
  {
  }

  lemma FlattensRefill<V>(saved: map<Version, map<Addr, V>>, flat: map<Place, V>, v: Version, flat': map<Place, V>)
    requires Flattens(map[], saved, flat) && v in saved
    requires Grafts(flat, None, saved[v], flat')
    ensures Flattens(saved[v], saved, flat')
  {
  }

  lemma GraftBytes(bs: set<ArcBlock>, held: Holdings, contents: map<Place, seq<Byte>>, t: Option<Version>, src: Table,
      flat: Flat, held': Holdings)
    requires Carries(held, contents) && Mirrors(bs, src, flat) && Grafts(held, t, src, held')
    ensures Grafts(contents, t, flat, Bytes(held')) && Carries(held', Bytes(held'))
  {
  }

  ghost function Bytes(held: Holdings): map<Place, seq<Byte>>
    reads held.Values`bytes
  {
    map p | p in held :: held[p].bytes
  }

  lemma Overwrite<V>(m: map<Addr, V>, a: Addr, v: V)
    ensures (m - {a})[a := v] == m[a := v]
  {
  }

  class Heap {
    /** The region's prefix in the 128-bit address space. */
    const origin: nat
    var live: Table
    var saved: map<Version, Table>
    /** Bump cursor, relative to the prefix. */
    var next: nat
    /** All blocks, who holds them, and what the region reads as. */
    ghost var books: Books

    ghost predicate Valid()
      reads `live, `saved, `books, books.blocks
    {
      books.Balanced(live, saved)
    }

    constructor (origin: nat, start: nat)
      ensures Valid() && fresh(books.blocks) && this.origin == origin && next == start
      ensures books.view == Region(map[], map[])
    {
      this.origin, next := origin, start;
      live, saved := map[], map[];
      books := Books({}, map[], map[], Region(map[], map[]));
    }

    /** `HashMap::remove` on the live heap. */
    method Remove(addr: Addr) returns (found: bool)
      requires Valid()
      modifies `live, `books, books.blocks
      ensures Valid() && books.blocks <= old(books).blocks
      ensures found == (addr in old(books).view.live)
      ensures books.view == old(books).view.(live := old(books).view.live - {addr})
    {
      hide Books.Balanced;
      books.SameKeys(live, saved);
      found := addr in live;
      if !found {
        assert books.view.live - {addr} == books.view.live;
        return;
      }
      books.At(live, saved, addr);
      ghost var after := Forget(live, saved, addr, live[addr], books);
      live, books := live - {addr}, after;
    }

    /** `HashMap::insert` of a new `Arc`: a block already there is dropped. */
    method Insert(addr: Addr, bytes: seq<Byte>)
      requires Valid()
      modifies `live, `books, books.blocks
      ensures Valid() && fresh(books.blocks - old(books).blocks)
      ensures books.view == old(books).view.(live := old(books).view.live[addr := bytes])
    {
      hide Books.Balanced;
      Overwrite(books.view.live, addr, bytes);
      var _ := Remove(addr);
      books.At(live, saved, addr);
      var block;
      ghost var after;
      block, after := Record(live, saved, addr, bytes, books);
      live, books := live[addr := block], after;
    }

    /** `alloc_global`, `alloc_kv_tensor`. */
    method Alloc(size: nat) returns (r: Result<Addr, MemError>)
      requires Valid()
      modifies this, books.blocks
      ensures Valid() && fresh(books.blocks - old(books).blocks)
      ensures size == 0 ==> r == Err(ZeroSize) && books.view == old(books).view && next == old(next)
      ensures size > 0 ==> r == Ok(Addr(origin + old(next))) && next == old(next) + Align64(size)
      ensures size > 0 ==> books.view ==
                             old(books).view.(live :=
                               old(books).view.live[Addr(origin + old(next)) := Zeros(Align64(size))])
    {
      hide Books.Balanced;
      if size == 0 {
        return Err(ZeroSize);
      }
      var addr := Addr(origin + next);
      next := next + Align64(size);
      Insert(addr, Zeros(Align64(size)));
      r := Ok(addr);
    }

    /** The loop over all blocks for one that contains `addr .. addr + len`. Which one it meets first is left open. */
    method Search(addr: Addr, len: nat) returns (found: Option<Addr>)
      requires Valid()
      ensures found.Some? ==> found.value in live && Hits(books.view.live, found.value, addr, len)
      ensures found.None? ==> forall base :: !Hits(books.view.live, base, addr, len)
    {
      hide Books.Balanced;
      books.SameKeys(live, saved);
      var rest := live.Keys;
      while rest != {}
        invariant rest <= live.Keys
        invariant forall base :: Hits(books.view.live, base, addr, len) ==> base in rest
      {
        NonEmpty(rest);
        var base :| base in rest;
        books.At(live, saved, base);
        if base.at <= addr.at && Offset(base, addr) + len <= |live[base].bytes| {
          return Some(base);
        }
        rest := rest - {base};
      }
      return None;
    }

    method Read(addr: Addr, len: nat) returns (r: Result<seq<Byte>, MemError>)
      requires Valid()
      ensures Reads(books.view.live, addr, len, r)
    {
      hide Books.Balanced;
      books.SameKeys(live, saved);
      if addr in live {
        books.At(live, saved, addr);
        if len > |live[addr].bytes| {
          return Err(TooLong);
        }
        return Ok(live[addr].bytes[..len]);
      }
      var found := Search(addr, len);
      if found.None? {
        return Err(Unmapped);
      }
      books.At(live, saved, found.value);
      var off := Offset(found.value, addr);
      return Ok(live[found.value].bytes[off..off + len]);
    }

    /** `Arc::make_mut` on the block at `base`, which leaves the view alone. */
    method MakeMut(base: Addr)
      requires Valid() && base in live
      modifies `live, `books, books.blocks
      ensures Valid() && fresh(books.blocks - old(books).blocks)
      ensures base in live && live[base].refs == 1 && books.view == old(books).view
      ensures live[base] in books.blocks
      ensures (live[base] == old(live[base])) == (old(live[base].refs) == 1)
    {
      hide Books.Balanced;
      books.At(live, saved, base);
      if live[base].refs == 1 {
        return;
      }
      var block;
      ghost var after;
      block, after := CopyOut(live, saved, base, live[base], books);
      after.At(live[base := block], saved, base);
      live, books := live[base := block], after;
    }

    /** The write itself: `make_mut`, then the length check, then the copy. */
    method Overlay(base: Addr, off: nat, data: seq<Byte>) returns (ok: bool)
      requires Valid() && base in books.view.live
      modifies `live, `books, books.blocks
      ensures Valid() && fresh(books.blocks - old(books).blocks)
      ensures ok == (off + |data| <= |old(books).view.live[base]|)
      ensures !ok ==> books.view == old(books).view
      ensures ok ==> books.view ==
                       old(books).view.(live :=
                         old(books).view.live[base := Patch(old(books).view.live[base], off, data)])
    {
      hide Books.Balanced;
      books.At(live, saved, base);
      MakeMut(base);
      books.At(live, saved, base);
      if off + |data| > |live[base].bytes| {
        return false;
      }
      books := Poke(live, saved, base, live[base], Patch(live[base].bytes, off, data), books);
      return true;
    }

    method Write(addr: Addr, data: seq<Byte>) returns (r: Result<(), MemError>)
      requires Valid()
      modifies `live, `books, books.blocks
      ensures Valid() && fresh(books.blocks - old(books).blocks)
      ensures books.view.saved == old(books).view.saved
      ensures Writes(old(books).view.live, addr, data, r, books.view.live)
    {
      var base, off := addr, 0;
      if addr !in live {
        var found := Search(addr, |data|);
        if found.None? {
          books.SameKeys(live, saved);
          return Err(Unmapped);
        }
        base, off := found.value, Offset(found.value, addr);
      }
      books.At(live, saved, base);
      var ok := Overlay(base, off, data);
      return if ok then Ok(()) else Err(TooLong);
    }

    method Snapshot(v: Version)
      requires Valid() && v !in saved
      modifies `saved, `books, books.blocks
      ensures Valid() && books.blocks == old(books).blocks
      ensures books.view == old(books).view.(saved := old(books).view.saved[v := old(books).view.live])
    {
      hide Books.Balanced;
      var table;
      ghost var after;
      table, after := Keep(live, saved, v, books);
      saved, books := saved[v := table], after;
    }

    method Evict(v: Version)
      requires Valid() && v in saved
      modifies `saved, `books, books.blocks
      ensures Valid() && books.blocks <= old(books).blocks
      ensures books.view == old(books).view.(saved := old(books).view.saved - {v})
    {
      hide Books.Balanced;
      ghost var after := Discard(saved[v], live, saved, v, books);
      saved, books := saved - {v}, after;
    }

    /** The lookup of one snapshot map in `restore`; which of the two maps is visited first cannot be observed. */
    method Restore(v: Version) returns (ok: bool)
      requires Valid()
      modifies `live, `books, books.blocks
      ensures Valid() && books.blocks <= old(books).blocks
      ensures ok == (v in old(books).view.saved)
      ensures books.view == if ok then old(books).view.(live := old(books).view.saved[v]) else old(books).view
    {
      hide Books.Balanced;
      books.SameKeys(live, saved);
      ok := v in saved;
      if ok {
        ghost var after := Empty(live, saved, books);
        var table;
        table, after := Refill(saved[v], saved, v, after);
        live, books := table, after;
      }
    }
  }

  /** What `read` may answer: the exact block if `addr` is a base, else any block the search can stop at. */
  ghost predicate Reads(m: Flat, addr: Addr, len: nat, r: Result<seq<Byte>, MemError>) {
    if addr in m then
      r == if len > |m[addr]| then Err(TooLong) else Ok(m[addr][..len])
    else if exists base :: Hits(m, base, addr, len) then
      exists base :: Hits(m, base, addr, len) && r == Ok(m[base][Offset(base, addr)..Offset(base, addr) + len])
    else
      r == Err(Unmapped)
  }

  /** What `write` may do, in the same two cases. */
  ghost predicate Writes(m: Flat, addr: Addr, data: seq<Byte>, r: Result<(), MemError>, m': Flat) {
    if addr in m then
      if |data| > |m[addr]| then r == Err(TooLong) && m' == m
      else r == Ok(()) && m' == m[addr := Patch(m[addr], 0, data)]
    else if exists base :: Hits(m, base, addr, |data|) then
      && r == Ok(())
      && exists base :: Hits(m, base, addr, |data|) && m' == m[base := Patch(m[base], Offset(base, addr), data)]
    else
      r == Err(Unmapped) && m' == m
  }
}
