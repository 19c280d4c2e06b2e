/**
  `MemoryManager` (src/memory.rs): two copy-on-write heaps, the tensor and K/V
  stores, and six parallel snapshot maps, updated in place. Each method is proved
  to take the step of `MemoryModel` it stands for, so every theorem about runs
  there holds of the object, block sharing notwithstanding.
*/
module MemoryManager {
  import opened Prelude
  import opened CowHeap
  import opened FlatHeap
  import opened KvCache
  import opened MemoryModel
  import MemoryLaws

  /** The six snapshot maps hold the same ids, and together the saved images. */
  ghost predicate Shelved(saved: map<Version, Image>, heap: map<Version, Flat>,
      meta: map<Version, map<Addr, TensorMeta>>, sparse: map<Version, map<Addr, Sparse>>,
      kv: map<Version, Store>, extra: map<Version, map<Sid, Store>>, kvHeap: map<Version, Flat>)
  {
    && heap.Keys == saved.Keys && meta.Keys == saved.Keys && sparse.Keys == saved.Keys
    && kv.Keys == saved.Keys && extra.Keys == saved.Keys && kvHeap.Keys == saved.Keys
    && forall v :: v in saved ==> saved[v] == Image(heap[v], meta[v], sparse[v], kv[v], extra[v], kvHeap[v])
  }

  lemma ShelvedAdd(saved: map<Version, Image>, heap: map<Version, Flat>,
      meta: map<Version, map<Addr, TensorMeta>>, sparse: map<Version, map<Addr, Sparse>>,
      kv: map<Version, Store>, extra: map<Version, map<Sid, Store>>, kvHeap: map<Version, Flat>, v: Version, i: Image)
    requires Shelved(saved, heap, meta, sparse, kv, extra, kvHeap)
    ensures Shelved(saved[v := i], heap[v := i.heap], meta[v := i.meta], sparse[v := i.sparse], kv[v := i.kv],
              extra[v := i.extra], kvHeap[v := i.kvHeap])
  {
    KeysAdd(saved, heap, v, i, i.heap);
    KeysAdd(saved, meta, v, i, i.meta);
    KeysAdd(saved, sparse, v, i, i.sparse);
    KeysAdd(saved, kv, v, i, i.kv);
    KeysAdd(saved, extra, v, i, i.extra);
    KeysAdd(saved, kvHeap, v, i, i.kvHeap);
  }

  lemma KeysAdd<U, V>(a: map<Version, U>, b: map<Version, V>, v: Version, x: U, y: V)
    requires a.Keys == b.Keys
    ensures a[v := x].Keys == b[v := y].Keys
  {
  }

  lemma ShelvedDrop(saved: map<Version, Image>, heap: map<Version, Flat>,
      meta: map<Version, map<Addr, TensorMeta>>, sparse: map<Version, map<Addr, Sparse>>,
      kv: map<Version, Store>, extra: map<Version, map<Sid, Store>>, kvHeap: map<Version, Flat>, v: Version)
    requires Shelved(saved, heap, meta, sparse, kv, extra, kvHeap)
    ensures Shelved(saved - {v}, heap - {v}, meta - {v}, sparse - {v}, kv - {v}, extra - {v}, kvHeap - {v})
  {
  }

  lemma BeginInv()
    ensures Inv(Begin())
  {
    InvRun([]);
  }

  lemma ShelvedEmpty()
    ensures Shelved(map[], map[], map[], map[], map[], map[], map[])
  {
  }

  function Wrap<T>(r: Result<T, MemError>): Result<T, Failure> {
    match r
    case Ok(x) => Ok(x)
    case Err(e) => Err(Memory(e))
  }

  class MemoryManager {
    const globalHeap: Heap
    const kvHeap: Heap
    var tensorMeta: map<Addr, TensorMeta>
    var sparseHeap: map<Addr, Sparse>
    var kvLayers: Store
    var kvExtra: map<Sid, Store>
    var version: nat
    var maxSnapshots: nat
    var sparseSnapshots: map<Version, map<Addr, Sparse>>
    var kvSnapshots: map<Version, Store>
    var kvExtraSnapshots: map<Version, map<Sid, Store>>
    var metaSnapshots: map<Version, map<Addr, TensorMeta>>
    /** The run so far, as the model takes it. */
    ghost var history: History

    ghost function Repr(): set<object>
      reads this, globalHeap, kvHeap
    {
      {this, globalHeap, kvHeap} + globalHeap.books.blocks + kvHeap.books.blocks
    }

    ghost predicate Heaps()
      reads globalHeap, kvHeap, globalHeap.books.blocks, kvHeap.books.blocks
    {
      && globalHeap != kvHeap && globalHeap.books.blocks !! kvHeap.books.blocks
      && globalHeap.origin == 0 && kvHeap.origin == KV_ORIGIN
      && globalHeap.Valid() && kvHeap.Valid()
    }

    ghost function LiveImage(): Image
      reads `tensorMeta, `sparseHeap, `kvLayers, `kvExtra, globalHeap`books, kvHeap`books
    {
      Image(globalHeap.books.view.live, tensorMeta, sparseHeap, kvLayers, kvExtra, kvHeap.books.view.live)
    }

    ghost predicate Kept(saved: map<Version, Image>)
      reads `metaSnapshots, `sparseSnapshots, `kvSnapshots, `kvExtraSnapshots, globalHeap`books, kvHeap`books
    {
      Shelved(saved, globalHeap.books.view.saved, metaSnapshots, sparseSnapshots, kvSnapshots, kvExtraSnapshots,
        kvHeap.books.view.saved)
    }

    ghost predicate Represents(m: Machine)
      reads `tensorMeta, `sparseHeap, `kvLayers, `kvExtra, `version, `maxSnapshots, globalHeap, kvHeap
      reads `metaSnapshots, `sparseSnapshots, `kvSnapshots, `kvExtraSnapshots
    {
      && m.live == LiveImage() && Kept(m.saved)
      && m.version == version && m.window == maxSnapshots && m.next == globalHeap.next && m.kvNext == kvHeap.next
    }

    ghost predicate Valid()
      reads this, globalHeap, kvHeap, globalHeap.books.blocks, kvHeap.books.blocks
    {
      Heaps() && Represents(history.m) && Inv(history)
    }

    constructor ()
      ensures Valid() && fresh(Repr()) && history == Begin()
    {
      hide Heap.Valid, Shelved, Inv;
      globalHeap := new Heap(0, HEAP_START);
      kvHeap := new Heap(KV_ORIGIN, HEAP_START);
      tensorMeta, sparseHeap, kvLayers, kvExtra := map[], map[], [], map[];
      version, maxSnapshots := 0, DEFAULT_WINDOW;
      sparseSnapshots, kvSnapshots, kvExtraSnapshots, metaSnapshots := map[], map[], map[], map[];
      history := Begin();
      new;
      StartsValid();
    }

    /** No block is the memory itself. */
    lemma Outside()
      ensures var s: set<object> := globalHeap.books.blocks; this !in s
      ensures var s: set<object> := kvHeap.books.blocks; this !in s
    {
    }

    lemma StartsValid()
      requires Heaps() && LiveImage() == Init().live && history == Begin()
      requires globalHeap.books.view.saved == map[] && kvHeap.books.view.saved == map[]
      requires sparseSnapshots == map[] && kvSnapshots == map[] && kvExtraSnapshots == map[] && metaSnapshots == map[]
      requires version == 0 && maxSnapshots == DEFAULT_WINDOW && globalHeap.next == HEAP_START
          && kvHeap.next == HEAP_START
      ensures Valid()
    {
      hide Inv, Heaps, Shelved;
      BeginInv();
      ShelvedEmpty();
    }

    /** The heap part of an allocation. */
    method TakeBlock(size: nat, ghost m: Machine) returns (r: Result<Addr, Failure>)
      requires Heaps() && Represents(m)
      modifies globalHeap, globalHeap.books.blocks
      ensures Heaps() && Represents(Alloc(m, size).0) && r == Alloc(m, size).1
      ensures fresh(Repr() - old(Repr()))
    {
      hide Heap.Valid, Kept, Align64, Zeros;
      KeptNow(m);
      var got := globalHeap.Alloc(size);
      KeptAgain(m);
      r := Wrap(got);
    }

    /** What is kept depends on the blocks only through the views of the snapshots. */
    lemma KeptNow(m: Machine)
      requires Kept(m.saved)
      ensures Shelved(m.saved, globalHeap.books.view.saved, metaSnapshots, sparseSnapshots, kvSnapshots,
          kvExtraSnapshots,
                kvHeap.books.view.saved)
    {
      hide Shelved;
    }

    lemma KeptAgain(m: Machine)
      requires Shelved(m.saved, globalHeap.books.view.saved, metaSnapshots, sparseSnapshots, kvSnapshots,
          kvExtraSnapshots,
                 kvHeap.books.view.saved)
      ensures Kept(m.saved)
    {
      hide Shelved;
    }

    method PutMeta(addr: Addr, meta: TensorMeta, ghost m: Machine)
      requires Represents(m)
      modifies `tensorMeta
      ensures Represents(m.(live := m.live.(meta := m.live.meta[addr := meta])))
    {
      hide Kept;
      tensorMeta := tensorMeta[addr := meta];
    }

    method PutSparse(addr: Addr, contents: Sparse, ghost m: Machine)
      requires Represents(m)
      modifies `sparseHeap
      ensures Represents(m.(live := m.live.(sparse := m.live.sparse[addr := contents])))
    {
      hide Kept;
      sparseHeap := sparseHeap[addr := contents];
    }

    /** A block and its metadata. */
    method TakeTensor(shape: seq<nat>, dtype: DType, byteLen: nat, ghost m: Machine) returns (r: Result<Addr, Failure>)
      requires Heaps() && Represents(m)
      modifies globalHeap, globalHeap.books.blocks, `tensorMeta
      ensures Heaps() && Represents(AllocWithMeta(m, shape, dtype, byteLen).0)
          && r == AllocWithMeta(m, shape, dtype, byteLen).1
      ensures fresh(Repr() - old(Repr()))
    {
      hide Heaps, Represents, Alloc;
      r := TakeBlock(byteLen, m);
      if r.Ok? {
        Outside();
        PutMeta(r.value, TensorMeta(r.value, shape, dtype, byteLen, false, 1.0), Alloc(m, byteLen).0);
      }
    }

    /** `alloc_global` */
    method AllocGlobal(size: nat) returns (r: Result<Addr, Failure>)
      requires Valid()
      modifies Repr()
      ensures Valid() && fresh(Repr() - old(Repr()))
      ensures history == Advance(old(history), AllocRaw(size)) && r == Alloc(old(history).m, size).1
    {
      hide Inv, Heaps, Represents, Advance, Alloc;
      InvStep(history, AllocRaw(size));
      AllocSteps(history, size, [], F32);
      r := TakeBlock(size, history.m);
      Outside();
      history := Advance(history, AllocRaw(size));
    }

    /** `alloc_tensor_bytes` */
    method AllocTensorBytes(shape: seq<nat>, dtype: DType, byteLen: nat) returns (r: Result<Addr, Failure>)
      requires Valid()
      modifies Repr()
      ensures Valid() && fresh(Repr() - old(Repr()))
      ensures history == Advance(old(history), AllocBytes(shape, dtype, byteLen))
      ensures r == AllocWithMeta(old(history).m, shape, dtype, byteLen).1
    {
      hide Inv, Heaps, Represents, Advance, AllocWithMeta;
      InvStep(history, AllocBytes(shape, dtype, byteLen));
      AllocSteps(history, byteLen, shape, dtype);
      r := TakeTensor(shape, dtype, byteLen, history.m);
      Outside();
      history := Advance(history, AllocBytes(shape, dtype, byteLen));
    }

    /** `alloc_tensor`, with no GGUF model loaded. */
    method AllocTensor(shape: seq<nat>, dtype: DType) returns (r: Result<Addr, Failure>)
      requires Valid()
      modifies Repr()
      ensures Valid() && fresh(Repr() - old(Repr()))
      ensures history == Advance(old(history), MemoryModel.AllocTensor(shape, dtype))
      ensures r == AllocWithMeta(old(history).m, shape, dtype, TensorBytes(shape, dtype)).1
    {
      hide Inv, Heaps, Represents, Advance, AllocWithMeta, TensorBytes;
      InvStep(history, MemoryModel.AllocTensor(shape, dtype));
      AllocSteps(history, 0, shape, dtype);
      var byteLen := TensorBytes(shape, dtype);
      r := TakeTensor(shape, dtype, byteLen, history.m);
      Outside();
      history := Advance(history, MemoryModel.AllocTensor(shape, dtype));
    }

    /** `alloc_sparse_tensor` */
    method AllocSparse(shape: seq<nat>, dtype: DType, density: real, contents: Sparse)
        returns (r: Result<Addr, Failure>)
      requires Valid()
      modifies Repr()
      ensures Valid() && fresh(Repr() - old(Repr()))
      ensures history == Advance(old(history), MemoryModel.AllocSparse(shape, dtype, density, contents))
      ensures r == AllocSparseTensor(old(history).m, shape, dtype, density, contents).1
    {
      hide Inv, Heaps, Represents, Advance, AllocSparseTensor;
      InvStep(history, MemoryModel.AllocSparse(shape, dtype, density, contents));
      SparseStep(history, shape, dtype, density, contents);
      r := TakeSparse(shape, dtype, density, contents, history.m);
      Outside();
      history := Advance(history, MemoryModel.AllocSparse(shape, dtype, density, contents));
    }

    /** A block, its contents and its metadata. */
    method TakeSparse(shape: seq<nat>, dtype: DType, density: real, contents: Sparse, ghost m: Machine)
        returns (r: Result<Addr, Failure>)
      requires Heaps() && Represents(m)
      modifies globalHeap, globalHeap.books.blocks, `tensorMeta, `sparseHeap
      ensures Heaps() && Represents(AllocSparseTensor(m, shape, dtype, density, contents).0)
      ensures r == AllocSparseTensor(m, shape, dtype, density, contents).1 && fresh(Repr() - old(Repr()))
    {
      hide Heaps, Represents, Alloc, SparseBytes, Clamp;
      if |shape| != 2 {
        return Err(NotMatrix);
      }
      var d := Clamp(density, 0.01, 1.0);
      var byteLen := SparseBytes(shape, dtype, d);
      var size := if byteLen < 64 then 64 else byteLen;
      r := TakeBlock(size, m);
      if r.Ok? {
        ghost var n := Alloc(m, size).0;
        Outside();
        PutSparse(r.value, contents, n);
        PutMeta(r.value, TensorMeta(r.value, shape, dtype, byteLen, true, d),
          n.(live := n.live.(sparse := n.live.sparse[r.value := contents])));
      }
    }

    /** A caller's update through `get_sparse_mut`. */
    method SetSparse(addr: Addr, contents: Sparse)
      requires Valid()
      modifies `sparseHeap, `history
      ensures Valid() && history == Advance(old(history), MutateSparse(addr, contents))
    {
      hide Inv, Shelved, Heap.Valid, TensorBytes, Align64, Zeros;
      InvStep(history, MutateSparse(addr, contents));
      Outside();
      if addr in sparseHeap {
        sparseHeap := sparseHeap[addr := contents];
      }
      history := Advance(history, MutateSparse(addr, contents));
    }

    /** `read` in the GLOBAL region: the bytes of the flat address space. */
    method ReadGlobal(addr: Addr, len: nat) returns (r: Result<seq<Byte>, MemError>)
      requires Valid() && globalHeap.next < TWO64
      ensures r.Ok? <==> exists b :: Covers(history.m.live.heap, b, Canon(0, addr), len)
      ensures r.Ok? ==> |r.value| == len && HoldsAt(history.m.live.heap, Canon(0, addr), r.value)
      ensures r.Err? ==> r.error == if addr in history.m.live.heap then TooLong else Unmapped
    {
      hide Inv, Shelved, Heap.Valid, HoldsAt, Reads;
      HeapLaid(history);
      r := globalHeap.Read(addr, len);
      ReadIsFlat(history.m.live.heap, 0, globalHeap.next, addr, len, r);
    }

    /** The heap part of a write. */
    method PutBytes(addr: Addr, data: seq<Byte>, ghost m: Machine) returns (r: Result<(), MemError>)
      requires Heaps() && Represents(m) && Laid(m.live.heap, 0, m.next) && m.next < TWO64
      modifies globalHeap, globalHeap.books.blocks
      ensures Heaps() && Represents(WriteGlobal(m, addr, data).0) && fresh(Repr() - old(Repr()))
      ensures Wrap(r) == WriteGlobal(m, addr, data).1
    {
      hide Kept, Heap.Valid, Writes, FlatWrite, Laid, Covers;
      KeptNow(m);
      r := globalHeap.Write(addr, data);
      WriteIsFlat(m.live.heap, 0, m.next, addr, data, r, globalHeap.books.view.live);
      KeptAgain(m);
    }

    /** `write` in the GLOBAL region. */
    method WriteBytes(addr: Addr, data: seq<Byte>) returns (r: Result<(), MemError>)
      requires Valid() && globalHeap.next < TWO64
      modifies Repr()
      ensures Valid() && fresh(Repr() - old(Repr()))
      ensures history == Advance(old(history), Write(addr, data))
      ensures Wrap(r) == WriteGlobal(old(history).m, addr, data).1
      ensures r.Ok? <==> exists b :: Covers(old(history).m.live.heap, b, Canon(0, addr), |data|)
      ensures r.Err? ==> r.error == if addr in old(history).m.live.heap then TooLong else Unmapped
      ensures r.Err? ==> history.m == old(history).m
      ensures r.Ok? ==> history.m == old(history).m.(live := old(history).m.live.(heap := history.m.live.heap))
      ensures r.Ok? ==> MemoryLaws.Overwritten(old(history).m.live.heap, history.m.live.heap, Canon(0, addr), data)
    {
      hide Inv, Heaps, Advance, Laid, Covers, MemoryLaws.Overwritten;
      HeapLaid(history);
      MemoryLaws.WriteLands(history.m, addr, data);
      Advanced(history, Write(addr, data));
      InvStep(history, Write(addr, data));
      BlockSteps(history, addr, data);
      r := PutBytes(addr, data, history.m);
      Outside();
      hide Represents;
      history := Advance(history, Write(addr, data));
    }

    /** The three removals of `remove_tensor`. */
    method DropTensor(addr: Addr, ghost m: Machine) returns (out: bool)
      requires Heaps() && Represents(m)
      modifies globalHeap, globalHeap.books.blocks, `tensorMeta, `sparseHeap
      ensures Heaps() && Represents(Remove(m, addr).0) && Repr() <= old(Repr()) && out == Remove(m, addr).1
    {
      hide Kept, Heap.Valid;
      KeptNow(m);
      Outside();
      out := globalHeap.Remove(addr);
      KeptAgain(m);
      out := out || addr in tensorMeta || addr in sparseHeap;
      tensorMeta, sparseHeap := tensorMeta - {addr}, sparseHeap - {addr};
    }

    /** `remove_tensor` */
    method RemoveTensor(addr: Addr) returns (out: bool)
      requires Valid()
      modifies Repr()
      ensures Valid() && fresh(Repr() - old(Repr()))
      ensures history == Advance(old(history), MemoryModel.RemoveTensor(addr)) && out == Remove(old(history).m, addr).1
    {
      hide Inv, Heaps, Represents, Advance, Remove;
      InvStep(history, MemoryModel.RemoveTensor(addr));
      BlockSteps(history, addr, []);
      out := DropTensor(addr, history.m);
      Outside();
      history := Advance(history, MemoryModel.RemoveTensor(addr));
    }

    // -------------------------------------------------------------------
    // KV_CACHE
    // -------------------------------------------------------------------

    /** `alloc_kv_tensor` */
    method AllocKvTensor(size: nat) returns (r: Result<Addr, Failure>)
      requires Valid()
      modifies Repr()
      ensures Valid() && fresh(Repr() - old(Repr()))
      ensures history == Advance(old(history), AllocKv(size))
      ensures r == if size == 0 then Err(Memory(ZeroSize)) else Ok(Addr(KV_ORIGIN + old(history).m.kvNext))
    {
      hide Inv, Shelved, Heap.Valid, Align64, Zeros;
      InvStep(history, AllocKv(size));
      Outside();
      ghost var after := Advance(history, AllocKv(size));
      var got := kvHeap.Alloc(size);
      r := Wrap(got);
      history := after;
    }

    /** The heap part of a write. */
    method PutKvBytes(addr: Addr, data: seq<Byte>, ghost m: Machine)
        returns (r: Result<(), Failure>, ghost hit: Option<Addr>)
      requires Heaps() && Represents(m)
      modifies kvHeap, kvHeap.books.blocks
      ensures Heaps() && Represents(WriteKvHeap(m, addr, data, hit).0) && fresh(Repr() - old(Repr()))
      ensures r == WriteKvHeap(m, addr, data, hit).1
      ensures r.Err? ==> forall base :: Hits(m.live.kvHeap, base, addr, |data|) ==> addr in m.live.kvHeap
    {
      hide Kept, Heap.Valid, Patch;
      KeptNow(m);
      var got := kvHeap.Write(addr, data);
      hit := WriteChoice(m.live.kvHeap, addr, data, got, kvHeap.books.view.live);
      KeptAgain(m);
      r := Wrap(got);
    }

    /** `write` in the KV_CACHE region. */
    method WriteKvBytes(addr: Addr, data: seq<Byte>) returns (r: Result<(), Failure>, ghost hit: Option<Addr>)
      requires Valid()
      modifies Repr()
      ensures Valid() && fresh(Repr() - old(Repr()))
      ensures history == Advance(old(history), WriteKv(addr, data, hit))
      ensures r == WriteKvHeap(old(history).m, addr, data, hit).1
      ensures r.Err? ==> forall base :: Hits(old(history).m.live.kvHeap, base, addr, |data|) ==>
          addr in old(history).m.live.kvHeap
    {
      hide Inv, Heaps, Represents, Advance, WriteKvHeap;
      r, hit := PutKvBytes(addr, data, history.m);
      InvStep(history, WriteKv(addr, data, hit));
      KvBlockStep(history, addr, data, hit);
      Outside();
      history := Advance(history, WriteKv(addr, data, hit));
    }

    /** Every layer of every stream is cleared in place. */
    method ClearAllStreams(ghost m: Machine)
      requires Represents(m)
      modifies `kvLayers, `kvExtra
      ensures Represents(ClearKv(m))
    {
      hide Kept, ClearAll, ClearStreams;
      kvLayers := ClearLayers(kvLayers);
      kvExtra := ClearExtra(kvExtra);
    }

    /** A fresh stream 0, and the cursor of the region set back. */
    method RebuildStreams(layers: nat, hidden: nat, ghost m: Machine)
      requires Represents(m) && globalHeap != kvHeap
      modifies `kvLayers, kvHeap`next
      ensures Represents(m.(live := m.live.(kv := FreshStore(layers, hidden)), kvNext := HEAP_START))
    {
      hide Kept, FreshStore;
      kvLayers := FreshStore(layers, hidden);
      kvHeap.next := HEAP_START;
    }

    /** `kv_cache_init` */
    method KvCacheInit(layers: nat, hidden: nat)
      requires Valid()
      modifies `kvLayers, `kvExtra, `history, kvHeap`next
      ensures Valid() && history == Advance(old(history), KvInit(layers, hidden))
    {
      hide Inv, Kept, Heap.Valid, ClearKv, FreshStore, Advance;
      InvStep(history, KvInit(layers, hidden));
      KvSteps(history, layers, hidden);
      Outside();
      if |kvLayers| == layers && layers > 0 && kvLayers[0].hidden == hidden {
        ClearAllStreams(history.m);
      } else {
        RebuildStreams(layers, hidden, history.m);
      }
      history := Advance(history, KvInit(layers, hidden));
    }

    /** `kv_cache_clear` */
    method KvCacheClear()
      requires Valid()
      modifies `kvLayers, `kvExtra, `history
      ensures Valid() && history == Advance(old(history), KvClear)
    {
      hide Inv, Heaps, Represents, Advance, ClearKv;
      InvStep(history, KvClear);
      KvSteps(history, 0, 0);
      Outside();
      ClearAllStreams(history.m);
      history := Advance(history, KvClear);
    }

    /** `kv_cache_append_stream` */
    method KvCacheAppend(sid: Sid, layer: nat, k: Row, v: Row) returns (r: Result<(), Failure>)
      requires Valid()
      modifies `kvLayers, `kvExtra, `history
      ensures Valid() && history == Advance(old(history), KvAppend(sid, layer, k, v))
      ensures r == AppendKv(old(history).m, sid, layer, k, v).1
    {
      hide Advance, Inv, Shelved, Heap.Valid, FreshStore;
      InvStep(history, KvAppend(sid, layer, k, v));
      Outside();
      AppendStep(history, sid, layer, k, v);
      ghost var after := Advance(history, KvAppend(sid, layer, k, v));
      var store := kvLayers;
      if sid != Sid(0) {
        if kvLayers == [] {
          history := after;
          return Err(Kv(NoStream));
        }
        if sid !in kvExtra {
          kvExtra := kvExtra[sid := FreshStore(|kvLayers|, kvLayers[0].hidden)];
        }
        store := kvExtra[sid];
      }
      if layer >= |store| {
        history := after;
        return Err(Kv(NoLayer));
      }
      var hidden := store[layer].hidden;
      if |k| != hidden || |v| != hidden {
        history := after;
        return Err(Kv(BadWidth));
      }
      if store[layer].seqLen >= MAX_SEQ {
        history := after;
        return Err(Kv(Full));
      }
      store := store[layer := PushRow(store[layer], k, v)];
      if sid == Sid(0) {
        kvLayers := store;
      } else {
        kvExtra := kvExtra[sid := store];
      }
      history := after;
      return Ok(());
    }

    method TruncateStream(sid: Sid, len: nat, ghost m: Machine)
      requires Represents(m)
      modifies `kvLayers, `kvExtra
      ensures Represents(TruncateKv(m, sid, len))
    {
      hide Kept, TruncateAll;
      if sid == Sid(0) {
        kvLayers := TruncateLayers(kvLayers, len);
      } else if sid in kvExtra {
        var store := TruncateLayers(kvExtra[sid], len);
        kvExtra := kvExtra[sid := store];
      }
    }

    /** `kv_cache_truncate_stream` */
    method KvCacheTruncate(sid: Sid, len: nat)
      requires Valid()
      modifies `kvLayers, `kvExtra, `history
      ensures Valid() && history == Advance(old(history), KvTruncate(sid, len))
    {
      hide Inv, Heaps, Represents, Advance, TruncateKv, CompressKv;
      InvStep(history, KvTruncate(sid, len));
      CutSteps(history, sid, len, 0, 0);
      Outside();
      TruncateStream(sid, len, history.m);
      history := Advance(history, KvTruncate(sid, len));
    }

    method CompressStream(sid: Sid, sink: nat, window: nat, ghost m: Machine)
      requires Represents(m) && StreamsWf(m.live.kv, m.live.extra)
      modifies `kvLayers, `kvExtra
      ensures Represents(CompressKv(m, sid, sink, window))
    {
      hide Kept, CompressAll, StoreWf;
      if sid == Sid(0) {
        kvLayers := CompressLayers(kvLayers, sink, window);
      } else if sid in kvExtra {
        var store := CompressLayers(kvExtra[sid], sink, window);
        kvExtra := kvExtra[sid := store];
      }
    }

    /** `kv_cache_compress_sink_window_stream` */
    method KvCacheCompress(sid: Sid, sink: nat, window: nat)
      requires Valid()
      modifies `kvLayers, `kvExtra, `history
      ensures Valid() && history == Advance(old(history), KvCompress(sid, sink, window))
    {
      hide Inv, Heaps, Represents, Advance, TruncateKv, CompressKv, StreamsWf;
      LayersWf(history);
      InvStep(history, KvCompress(sid, sink, window));
      CutSteps(history, sid, 0, sink, window);
      Outside();
      CompressStream(sid, sink, window, history.m);
      history := Advance(history, KvCompress(sid, sink, window));
    }

    // -------------------------------------------------------------------
    // Snapshots
    // -------------------------------------------------------------------

    method DropBlocks(v: Version)
      requires Heaps() && v in globalHeap.saved && v in kvHeap.saved
      modifies globalHeap, kvHeap, globalHeap.books.blocks, kvHeap.books.blocks
      ensures Heaps() && Repr() <= old(Repr())
      ensures globalHeap.next == old(globalHeap.next) && kvHeap.next == old(kvHeap.next)
      ensures globalHeap.books.view == old(globalHeap.books.view).(saved := old(globalHeap.books.view).saved - {v})
      ensures kvHeap.books.view == old(kvHeap.books.view).(saved := old(kvHeap.books.view).saved - {v})
    {
      hide Heap.Valid;
      globalHeap.Evict(v);
      kvHeap.Evict(v);
    }

    method AddBlocks(v: Version)
      requires Heaps() && v !in globalHeap.saved && v !in kvHeap.saved
      modifies globalHeap, kvHeap, globalHeap.books.blocks, kvHeap.books.blocks
      ensures Heaps() && Repr() <= old(Repr())
      ensures globalHeap.next == old(globalHeap.next) && kvHeap.next == old(kvHeap.next)
      ensures globalHeap.books.view == SaveView(old(globalHeap.books.view), v)
      ensures kvHeap.books.view == SaveView(old(kvHeap.books.view), v)
    {
      hide Heap.Valid;
      globalHeap.Snapshot(v);
      kvHeap.Snapshot(v);
    }

    method DropStores(v: Version)
      modifies `sparseSnapshots, `kvSnapshots, `kvExtraSnapshots, `metaSnapshots
      ensures sparseSnapshots == old(sparseSnapshots) - {v} && kvSnapshots == old(kvSnapshots) - {v}
      ensures kvExtraSnapshots == old(kvExtraSnapshots) - {v} && metaSnapshots == old(metaSnapshots) - {v}
    {
      sparseSnapshots, kvSnapshots := sparseSnapshots - {v}, kvSnapshots - {v};
      kvExtraSnapshots, metaSnapshots := kvExtraSnapshots - {v}, metaSnapshots - {v};
    }

    method AddStores(v: Version)
      modifies `sparseSnapshots, `kvSnapshots, `kvExtraSnapshots, `metaSnapshots
      ensures sparseSnapshots == old(sparseSnapshots)[v := sparseHeap] && kvSnapshots == old(kvSnapshots)[v := kvLayers]
      ensures kvExtraSnapshots == old(kvExtraSnapshots)[v := kvExtra]
          && metaSnapshots == old(metaSnapshots)[v := tensorMeta]
    {
      sparseSnapshots, kvSnapshots := sparseSnapshots[v := sparseHeap], kvSnapshots[v := kvLayers];
      kvExtraSnapshots, metaSnapshots := kvExtraSnapshots[v := kvExtra], metaSnapshots[v := tensorMeta];
    }

    /** One id leaves all six maps. */
    method DropVersion(v: Version, ghost m: Machine)
      requires Heaps() && Represents(m) && v in globalHeap.saved && v in kvHeap.saved
      modifies Repr()
      ensures Heaps() && Represents(m.(saved := m.saved - {v})) && Repr() <= old(Repr())
      ensures history == old(history) && maxSnapshots == old(maxSnapshots)
    {
      hide Heaps, Shelved;
      Outside();
      ShelvedDrop(m.saved, globalHeap.books.view.saved, metaSnapshots, sparseSnapshots, kvSnapshots, kvExtraSnapshots,
        kvHeap.books.view.saved, v);
      DropStores(v);
      DropBlocks(v);
    }

    /** The live state enters all six maps under a new id. */
    method AddVersion(v: Version, ghost m: Machine)
      requires Heaps() && Represents(m) && v !in m.saved
      modifies Repr()
      ensures Heaps() && Represents(m.(saved := m.saved[v := m.live])) && Repr() <= old(Repr())
      ensures history == old(history) && maxSnapshots == old(maxSnapshots)
    {
      hide Heaps, Shelved;
      Outside();
      SizesAgree(m);
      ShelvedAdd(m.saved, globalHeap.books.view.saved, metaSnapshots, sparseSnapshots, kvSnapshots, kvExtraSnapshots,
        kvHeap.books.view.saved, v, m.live);
      AddStores(v);
      AddBlocks(v);
    }

    /** The lowest id leaves all six maps at once. */
    method EvictOldest(ghost m: Machine) returns (ghost next: Machine)
      requires Heaps() && Represents(m) && m.window != 0 && |m.saved| > m.window
      modifies Repr()
      ensures Heaps() && Represents(next) && Repr() <= old(Repr()) && history == old(history)
      ensures Evict(next) == Evict(m) && |next.saved| < |m.saved| && next.window == m.window
    {
      hide Heaps, Represents, Evict;
      SizesAgree(m);
      NotEmpty(globalHeap.saved);
      var oldest := MinKey(globalHeap.saved.Keys);
      EvictOne(m, oldest);
      next := m.(saved := m.saved - {oldest});
      DropVersion(oldest, m);
    }

    /** The loop of `evict_old_snapshots`. */
    method EvictOldSnapshots(ghost m: Machine)
      requires Heaps() && Represents(m)
      modifies Repr()
      ensures Heaps() && Represents(Evict(m)) && Repr() <= old(Repr()) && history == old(history)
    {
      hide Heaps, Represents, Evict;
      ghost var now := m;
      SizesAgree(m);
      while maxSnapshots != 0 && |globalHeap.saved| > maxSnapshots
        invariant Heaps() && Represents(now) && Repr() <= old(Repr()) && history == old(history)
        invariant Evict(now) == Evict(m) && now.window == maxSnapshots && |globalHeap.saved| == |now.saved|
        decreases |now.saved|
      {
        now := EvictOldest(now);
        SizesAgree(now);
      }
      EvictDone(now);
    }

    lemma SizesAgree(m: Machine)
      requires Heaps() && Represents(m)
      ensures globalHeap.saved.Keys == m.saved.Keys && kvHeap.saved.Keys == m.saved.Keys
      ensures |globalHeap.saved| == |m.saved| && m.window == maxSnapshots
    {
      globalHeap.books.SameKeys(globalHeap.live, globalHeap.saved);
      kvHeap.books.SameKeys(kvHeap.live, kvHeap.saved);
      assert |globalHeap.saved| == |globalHeap.saved.Keys| && |m.saved| == |m.saved.Keys|;
    }

    method SetWindowField(max: nat, ghost m: Machine)
      requires Represents(m)
      modifies `maxSnapshots
      ensures Represents(m.(window := max))
    {
      hide Kept;
      maxSnapshots := max;
    }

    /** `set_snapshot_window` */
    method SetSnapshotWindow(max: nat)
      requires Valid()
      modifies Repr()
      ensures Valid() && Repr() <= old(Repr()) && history == Advance(old(history), SetWindow(max))
    {
      hide Inv, Heaps, Represents, Evict, Advance;
      InvStep(history, SetWindow(max));
      SnapshotSteps(history, max);
      Outside();
      SetWindowField(max, history.m);
      EvictOldSnapshots(history.m.(window := max));
      Outside();
      history := Advance(history, SetWindow(max));
    }

    method NextId(ghost m: Machine) returns (id: Version)
      requires Represents(m)
      modifies `version
      ensures Represents(m.(version := m.version + 1)) && id == Version(m.version + 1)
    {
      hide Kept;
      version := version + 1;
      id := Version(version);
    }

    /** `snapshot` */
    method Snapshot() returns (id: Version)
      requires Valid()
      modifies Repr()
      ensures Valid() && Repr() <= old(Repr()) && history == Advance(old(history), TakeSnapshot)
      ensures id == Version(old(history).m.version + 1)
    {
      hide Inv, Heaps, Represents, Evict, Advance;
      InvStep(history, TakeSnapshot);
      SnapshotSteps(history, 0);
      NewId(history);
      Outside();
      ghost var m := history.m;
      id := NextId(m);
      AddVersion(id, m.(version := m.version + 1));
      EvictOldSnapshots(m.(version := m.version + 1, saved := m.saved[id := m.live]));
      Outside();
      history := Advance(history, TakeSnapshot);
    }

    /** The two lookups of `restore` that concern blocks. */
    method RestoreBlocks(v: Version) returns (ok: bool)
      requires Heaps()
      modifies globalHeap, kvHeap, globalHeap.books.blocks, kvHeap.books.blocks
      ensures Heaps() && Repr() <= old(Repr())
      ensures globalHeap.next == old(globalHeap.next) && kvHeap.next == old(kvHeap.next)
      ensures globalHeap.books.view.saved == old(globalHeap.books.view).saved
      ensures kvHeap.books.view.saved == old(kvHeap.books.view).saved
      ensures globalHeap.books.view.live == RestoredTo(old(globalHeap.books.view), v)
      ensures kvHeap.books.view.live == RestoredTo(old(kvHeap.books.view), v)
      ensures ok == (v in old(globalHeap.books.view).saved || v in old(kvHeap.books.view).saved)
    {
      hide Heap.Valid;
      ok := globalHeap.Restore(v);
      var again := kvHeap.Restore(v);
      ok := ok || again;
    }

    /** The four lookups of `restore` that concern plain values. */
    method RestoreStores(v: Version) returns (ok: bool)
      modifies `sparseHeap, `kvLayers, `kvExtra, `tensorMeta
      ensures sparseHeap == if v in sparseSnapshots then sparseSnapshots[v] else old(sparseHeap)
      ensures kvLayers == if v in kvSnapshots then kvSnapshots[v] else old(kvLayers)
      ensures kvExtra == if v in kvExtraSnapshots then kvExtraSnapshots[v] else old(kvExtra)
      ensures tensorMeta == if v in metaSnapshots then metaSnapshots[v] else old(tensorMeta)
      ensures ok == (v in sparseSnapshots || v in kvSnapshots || v in kvExtraSnapshots || v in metaSnapshots)
    {
      ok := false;
      if v in sparseSnapshots {
        sparseHeap, ok := sparseSnapshots[v], true;
      }
      if v in kvSnapshots {
        kvLayers, ok := kvSnapshots[v], true;
      }
      if v in kvExtraSnapshots {
        kvExtra, ok := kvExtraSnapshots[v], true;
      }
      if v in metaSnapshots {
        tensorMeta, ok := metaSnapshots[v], true;
      }
    }

    /** The six lookups of `restore`, each of which replaces its part of the live state. */
    method RestoreVersion(v: Version, ghost m: Machine) returns (ok: bool)
      requires Heaps() && Represents(m)
      modifies Repr()
      ensures Heaps() && Represents(m.(live := if v in m.saved then m.saved[v] else m.live)) && Repr() <= old(Repr())
      ensures history == old(history) && ok == (v in m.saved)
    {
      hide Heaps, Shelved, RestoredTo;
      Outside();
      RestoredImage(m, globalHeap.books.view, kvHeap.books.view, sparseHeap, kvLayers, kvExtra, tensorMeta,
        metaSnapshots, sparseSnapshots, kvSnapshots, kvExtraSnapshots, v);
      var stores := RestoreStores(v);
      var blocks := RestoreBlocks(v);
      ok := blocks || stores;
    }

    /** `restore` */
    method Restore(v: Version) returns (r: Result<(), Failure>)
      requires Valid()
      modifies Repr()
      ensures Valid() && Repr() <= old(Repr()) && history == Advance(old(history), MemoryModel.Restore(v))
      ensures r == RestoreTo(old(history).m, v).1
    {
      hide Inv, Heaps, Represents, Advance, RestoreTo;
      InvStep(history, MemoryModel.Restore(v));
      ghost var live := RestoreStep(history, v);
      var ok := RestoreVersion(v, history.m);
      Outside();
      history := Advance(history, MemoryModel.Restore(v));
      r := if ok then Ok(()) else Err(NoVersion);
    }
  }

  lemma SparseStep(h: History, shape: seq<nat>, dtype: DType, density: real, contents: Sparse)
    ensures Advance(h, AllocSparse(shape, dtype, density, contents)).m ==
        AllocSparseTensor(h.m, shape, dtype, density, contents).0
  {
    hide AllocSparseTensor;
  }

  lemma AllocSteps(h: History, size: nat, shape: seq<nat>, dtype: DType)
    ensures Advance(h, AllocRaw(size)).m == Alloc(h.m, size).0
    ensures Advance(h, AllocBytes(shape, dtype, size)).m == AllocWithMeta(h.m, shape, dtype, size).0
    ensures Advance(h, AllocTensor(shape, dtype)).m == AllocWithMeta(h.m, shape, dtype, TensorBytes(shape, dtype)).0
  {
    hide Alloc, AllocWithMeta, TensorBytes;
  }

  lemma BlockSteps(h: History, addr: Addr, data: seq<Byte>)
    ensures Advance(h, Write(addr, data)).m == WriteGlobal(h.m, addr, data).0
    ensures Advance(h, RemoveTensor(addr)).m == Remove(h.m, addr).0
  {
    hide WriteGlobal, Remove;
  }

  lemma KvBlockStep(h: History, addr: Addr, data: seq<Byte>, hit: Option<Addr>)
    ensures Advance(h, WriteKv(addr, data, hit)).m == WriteKvHeap(h.m, addr, data, hit).0
  {
    hide WriteKvHeap;
  }

  lemma KvSteps(h: History, layers: nat, hidden: nat)
    ensures Advance(h, KvClear).m == ClearKv(h.m)
    ensures Advance(h, KvInit(layers, hidden)).m == InitKv(h.m, layers, hidden)
  {
    hide ClearKv, InitKv;
  }

  lemma SnapshotSteps(h: History, max: nat)
    ensures Advance(h, TakeSnapshot).m ==
      Evict(h.m.(version := h.m.version + 1, saved := h.m.saved[Version(h.m.version + 1) := h.m.live]))
    ensures Advance(h, SetWindow(max)).m == Evict(h.m.(window := max))
  {
    hide Evict;
  }

  lemma CutSteps(h: History, sid: Sid, len: nat, sink: nat, window: nat)
    ensures Advance(h, KvTruncate(sid, len)).m == TruncateKv(h.m, sid, len)
    ensures Advance(h, KvCompress(sid, sink, window)).m == CompressKv(h.m, sid, sink, window)
  {
    hide TruncateKv, CompressKv;
  }

  lemma AppendStep(h: History, sid: Sid, layer: nat, k: Row, v: Row)
    ensures Advance(h, KvAppend(sid, layer, k, v)).m == AppendKv(h.m, sid, layer, k, v).0
  {
    hide AppendKv;
  }

  /** The six lookups together give the saved image, or leave the live one. */
  lemma RestoredImage(m: Machine, heap: Region, kvHeap: Region,
      sparse: map<Addr, Sparse>, kv: Store, extra: map<Sid, Store>, meta: map<Addr, TensorMeta>,
      metas: map<Version, map<Addr, TensorMeta>>, sparses: map<Version, map<Addr, Sparse>>,
      kvs: map<Version, Store>, extras: map<Version, map<Sid, Store>>, v: Version)
    requires m.live == Image(heap.live, meta, sparse, kv, extra, kvHeap.live)
    requires Shelved(m.saved, heap.saved, metas, sparses, kvs, extras, kvHeap.saved)
    ensures (if v in m.saved then m.saved[v] else m.live) ==
      Image(RestoredTo(heap, v), if v in metas then metas[v] else meta, if v in sparses then sparses[v] else sparse,
        if v in kvs then kvs[v] else kv, if v in extras then extras[v] else extra, RestoredTo(kvHeap, v))
    ensures (v in m.saved) == (v in heap.saved || v in kvHeap.saved) ==
        (v in metas || v in sparses || v in kvs || v in extras)
  {
  }

  lemma RestoreStep(h: History, v: Version) returns (live: Image)
    ensures live == if v in h.m.saved then h.m.saved[v] else h.m.live
    ensures Advance(h, Restore(v)).m == h.m.(live := live)
    ensures RestoreTo(h.m, v).1 == if v in h.m.saved then Ok(()) else Err(NoVersion)
  {
    live := if v in h.m.saved then h.m.saved[v] else h.m.live;
  }

  ghost function SaveView(r: Region, v: Version): Region {
    r.(saved := r.saved[v := r.live])
  }

  ghost function RestoredTo(r: Region, v: Version): Flat {
    if v in r.saved then r.saved[v] else r.live
  }

  /** The smallest of the ids. */
  method MinKey(keys: set<Version>) returns (least: Version)
    requires keys != {}
    ensures least in keys && forall w :: w in keys ==> least.n <= w.n
  {
    least :| least in keys;
    var rest := keys - {least};
    while rest != {}
      invariant rest <= keys && least in keys
      invariant forall w :: w in keys && w !in rest ==> least.n <= w.n
    {
      var v :| v in rest;
      if v.n < least.n {
        least := v;
      }
      rest := rest - {v};
    }
  }

  lemma NotEmpty<V>(saved: map<Version, V>)
    requires |saved| > 0
    ensures saved.Keys != {}
  {
    assert |saved.Keys| == |saved|;
  }

  lemma EvictOne(m: Machine, v: Version)
    requires m.window != 0 && |m.saved| > m.window
    requires v in m.saved && forall w :: w in m.saved.Keys ==> v.n <= w.n
    ensures Evict(m) == Evict(m.(saved := m.saved - {v})) && |m.saved - {v}| < |m.saved|
  {
    OldestIs(m.saved, v);
    DropOne(m.saved, v);
  }

  lemma EvictDone(m: Machine)
    requires m.window == 0 || |m.saved| <= m.window
    ensures Evict(m) == m
  {
  }

  lemma OldestIs(saved: map<Version, Image>, v: Version)
    requires v in saved && forall w :: w in saved ==> v.n <= w.n
    ensures |saved| > 0 && v == Oldest(saved)
  {
    assert |saved.Keys - {v}| == |saved| - 1;
  }

  lemma DropOne(saved: map<Version, Image>, v: Version)
    requires v in saved
    ensures |saved - {v}| == |saved| - 1
  {
    assert (saved - {v}).Keys == saved.Keys - {v};
  }

  lemma NewId(h: History)
    requires Inv(h)
    ensures Version(h.m.version + 1) !in h.m.saved
  {
  }

  method ClearExtra(extra: map<Sid, Store>) returns (r: map<Sid, Store>)
    ensures r == ClearStreams(extra)
  {
    r := extra;
    var rest := extra.Keys;
    while rest != {}
      invariant rest <= extra.Keys && r.Keys == extra.Keys
      invariant forall sid :: sid in extra ==> r[sid] == if sid in rest then extra[sid] else ClearAll(extra[sid])
    {
      var sid :| sid in rest;
      var store := ClearLayers(r[sid]);
      r := r[sid := store];
      rest := rest - {sid};
    }
  }

  lemma LayersWf(h: History)
    requires Inv(h)
    ensures StreamsWf(h.m.live.kv, h.m.live.extra)
  {
  }

  /** The block a search of the KV region stopped at. */
  lemma WriteChoice(m: Flat, addr: Addr, data: seq<Byte>, r: Result<(), MemError>, m': Flat) returns (hit: Option<Addr>)
    requires Writes(m, addr, data, r, m')
    ensures addr !in m ==> (hit.Some? <==> r.Ok?)
    ensures addr !in m && hit.Some? ==>
              Hits(m, hit.value, addr, |data|)
                && m' == m[hit.value := Patch(m[hit.value], Offset(hit.value, addr), data)]
    ensures addr !in m && r.Err? ==> forall base :: !Hits(m, base, addr, |data|)
  {
    hit := None;
    if addr !in m && r.Ok? {
      var base :| Hits(m, base, addr, |data|) && m' == m[base := Patch(m[base], Offset(base, addr), data)];
      hit := Some(base);
    }
  }
}
