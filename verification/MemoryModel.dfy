/**
  The versioned memory as a state machine (src/memory.rs, `MemoryManager`), with
  every snapshot a value of its own: the meaning the copy-on-write class is proved
  to have. Over every run: snapshot ids are never reused, the retained ones form a
  window, restoring brings back the state of the snapshot, and no two GLOBAL
  blocks ever granted overlap.
*/
module MemoryModel {
  import opened Prelude
  import opened CowHeap
  import opened FlatHeap
  import opened KvCache

  /** A K/V stream id; 0 is the stream the cache is initialised with. */
  datatype Sid = Sid(n: nat)

  /** A sparse tensor's CSR contents, which the memory stores and copies whole. */
  datatype Sparse = Sparse(nnz: nat, values: seq<real>)

  datatype DType = F32 | F16 | I8 | U8 | Q4_0 | Q4_1 | Q5_0 | Q8_0 | Q4_K | Q5_K | Q6_K | Q8_K | BF16 {
    function ByteWidth(): nat {
      match this
      case F32 => 4
      case F16 => 2
      case BF16 => 2
      case Q4_0 => 18
      case Q4_K => 144 / 256 * 4
      case _ => 1
    }
  }

  datatype TensorMeta = TensorMeta(addr: Addr, shape: seq<nat>, dtype: DType, byteLen: nat, isSparse: bool,
      density: real)

  /** Everything a snapshot captures. */
  datatype Image = Image(
    heap: Flat,
    meta: map<Addr, TensorMeta>,
    sparse: map<Addr, Sparse>,
    kv: Store,
    extra: map<Sid, Store>,
    kvHeap: Flat)

  datatype Machine = Machine(
    live: Image,
    saved: map<Version, Image>,
    version: nat,
    window: nat,
    next: nat,
    kvNext: nat)

  const DEFAULT_WINDOW: nat := 16
  const KV_ORIGIN: nat := 0x3000_0000_0000_0000_0000_0000_0000_0000

  function Init(): Machine {
    Machine(Image(map[], map[], map[], [], map[], map[]), map[], 0, DEFAULT_WINDOW, HEAP_START, HEAP_START)
  }

  datatype Failure = Memory(e: MemError) | Kv(k: KvError) | NoVersion | NotMatrix

  // ---------------------------------------------------------------------
  // Operations
  // ---------------------------------------------------------------------

  datatype Op =
    | AllocBytes(shape: seq<nat>, dtype: DType, byteLen: nat)
    | AllocTensor(shape: seq<nat>, dtype: DType)
    | AllocSparse(shape: seq<nat>, dtype: DType, density: real, contents: Sparse)
    | AllocRaw(size: nat)
    | MutateSparse(addr: Addr, contents: Sparse)
    | Write(addr: Addr, data: seq<Byte>)
    | RemoveTensor(addr: Addr)
    | AllocKv(size: nat)
    | WriteKv(addr: Addr, data: seq<Byte>, hit: Option<Addr>)
    | KvInit(layers: nat, hidden: nat)
    | KvAppend(sid: Sid, layer: nat, k: Row, v: Row)
    | KvTruncate(sid: Sid, len: nat)
    | KvClear
    | KvCompress(sid: Sid, sink: nat, window: nat)
    | TakeSnapshot
    | SetWindow(max: nat)
    | Restore(version: Version)

  function Product(shape: seq<nat>): nat {
    if shape == [] then 1 else Product(shape[..|shape| - 1]) * shape[|shape| - 1]
  }

  /** The dense size of a tensor; block formats get the width the source gives them here, which is 0 for Q4_K. */
  function TensorBytes(shape: seq<nat>, dtype: DType): nat {
    Product(shape) * dtype.ByteWidth()
  }

  /** `alloc_global` */
  function Alloc(m: Machine, size: nat): (Machine, Result<Addr, Failure>) {
    if size == 0 then (m, Err(Memory(ZeroSize)))
    else
      var addr := Addr(m.next);
      (m.(live := m.live.(heap := m.live.heap[addr := Zeros(Align64(size))]), next := m.next + Align64(size)), Ok(addr))
  }

  /** A block and its metadata: `alloc_tensor_bytes`, and `alloc_tensor` when no GGUF model is loaded. */
  function AllocWithMeta(m: Machine, shape: seq<nat>, dtype: DType, byteLen: nat): (Machine, Result<Addr, Failure>) {
    var (n, r) := Alloc(m, byteLen);
    if r.Err? then (n, r)
    else (n.(live := n.live.(meta := n.live.meta[r.value := TensorMeta(r.value, shape, dtype, byteLen, false, 1.0)])),
      r)
  }

  function Clamp(x: real, lo: real, hi: real): (r: real)
    requires lo <= hi
    ensures lo <= r <= hi
  {
    if x < lo then lo else if x > hi then hi else x
  }

  function NnzEstimate(elems: nat, density: real): (r: nat)
    requires density >= 0.0
  {
    (elems as real * density).Floor
  }

  /** The space reserved for a CSR tensor: its values, its row offsets and its column indices. */
  function SparseBytes(shape: seq<nat>, dtype: DType, density: real): nat
    requires |shape| == 2 && density >= 0.0
  {
    var nnz := NnzEstimate(shape[0] * shape[1], density);
    nnz * dtype.ByteWidth() + (shape[0] + 1) * 4 + nnz * 4
  }

  /** `alloc_sparse_tensor`; the random contents the source draws are a parameter. */
  function AllocSparseTensor(m: Machine, shape: seq<nat>, dtype: DType, density: real, contents: Sparse): (Machine,
      Result<Addr, Failure>) {
    if |shape| != 2 then (m, Err(NotMatrix))
    else
      var d := Clamp(density, 0.01, 1.0);
      var byteLen := SparseBytes(shape, dtype, d);
      var (n, r) := Alloc(m, if byteLen < 64 then 64 else byteLen);
      if r.Err? then (n, r)
      else
        var meta := TensorMeta(r.value, shape, dtype, byteLen, true, d);
        (n.(live := n.live.(sparse := n.live.sparse[r.value := contents], meta := n.live.meta[r.value := meta])), r)
  }

  /** `write` in the GLOBAL region. */
  ghost function WriteGlobal(m: Machine, addr: Addr, data: seq<Byte>): (Machine, Result<(), Failure>) {
    if exists b :: Covers(m.live.heap, b, Canon(0, addr), |data|) then
      (m.(live := m.live.(heap := FlatWrite(m.live.heap, Canon(0, addr), data))), Ok(()))
    else (m, Err(Memory(if addr in m.live.heap then TooLong else Unmapped)))
  }

  /** `write` in the KV_CACHE region, where blocks may overlap; `hit` is the block the search stopped at. */
  function WriteKvHeap(m: Machine, addr: Addr, data: seq<Byte>, hit: Option<Addr>): (Machine, Result<(), Failure>) {
    var h := m.live.kvHeap;
    if addr in h then
      if |data| > |h[addr]| then (m, Err(Memory(TooLong)))
      else (m.(live := m.live.(kvHeap := h[addr := Patch(h[addr], 0, data)])), Ok(()))
    else if hit.Some? && Hits(h, hit.value, addr, |data|) then
      (m.(live := m.live.(kvHeap := h[hit.value := Patch(h[hit.value], Offset(hit.value, addr), data)])), Ok(()))
    else (m, Err(Memory(Unmapped)))
  }

  /** `remove_tensor` */
  function Remove(m: Machine, addr: Addr): (Machine, bool) {
    (m.(live := m.live.(heap := m.live.heap - {addr}, meta := m.live.meta - {addr}, sparse := m.live.sparse - {addr})),
     addr in m.live.heap || addr in m.live.meta || addr in m.live.sparse)
  }

  function FreshStore(layers: nat, hidden: nat): Store {
    seq(layers, _ => NewLayer(hidden))
  }

  ghost function ClearStreams(extra: map<Sid, Store>): map<Sid, Store> {
    map sid | sid in extra :: ClearAll(extra[sid])
  }

  ghost function InitKv(m: Machine, layers: nat, hidden: nat): Machine {
    if |m.live.kv| == layers && layers > 0 && m.live.kv[0].hidden == hidden then ClearKv(m)
    else m.(live := m.live.(kv := FreshStore(layers, hidden)), kvNext := HEAP_START)
  }

  ghost function ClearKv(m: Machine): Machine {
    m.(live := m.live.(kv := ClearAll(m.live.kv), extra := ClearStreams(m.live.extra)))
  }

  /** `kv_store`: the layers of a stream, if it exists. */
  function StreamOf(i: Image, sid: Sid): Option<Store> {
    if sid == Sid(0) then Some(i.kv) else if sid in i.extra then Some(i.extra[sid]) else None
  }

  function WithStream(i: Image, sid: Sid, store: Store): Image {
    if sid == Sid(0) then i.(kv := store) else i.(extra := i.extra[sid := store])
  }

  /** `kv_store_mut`: extra streams are created on first use, with the shape of stream 0. */
  function Materialise(i: Image, sid: Sid): (r: Result<Image, KvError>)
    ensures r.Ok? ==> StreamOf(r.value, sid).Some?
  {
    if sid == Sid(0) then Ok(i)
    else if i.kv == [] then Err(NoStream)
    else if sid in i.extra then Ok(i)
    else Ok(WithStream(i, sid, FreshStore(|i.kv|, i.kv[0].hidden)))
  }

  /** `kv_cache_append_stream`; the stream is created even when the row is then refused. */
  function AppendKv(m: Machine, sid: Sid, layer: nat, k: Row, v: Row): (Machine, Result<(), Failure>) {
    match Materialise(m.live, sid)
    case Err(e) => (m, Err(Kv(e)))
    case Ok(i) =>
      match AppendTo(StreamOf(i, sid).value, layer, k, v)
      case Err(e) => (m.(live := i), Err(Kv(e)))
      case Ok(store) => (m.(live := WithStream(i, sid, store)), Ok(()))
  }

  ghost function TruncateKv(m: Machine, sid: Sid, len: nat): Machine {
    match StreamOf(m.live, sid)
    case None => m
    case Some(store) => m.(live := WithStream(m.live, sid, TruncateAll(store, len)))
  }

  ghost function CompressKv(m: Machine, sid: Sid, sink: nat, window: nat): Machine {
    match StreamOf(m.live, sid)
    case Some(store) =>
      if StoreWf(store) then m.(live := WithStream(m.live, sid, CompressAll(store, sink, window))) else m
    case None => m
  }

  ghost predicate IsOldest<V>(saved: map<Version, V>, v: Version) {
    v in saved && forall w :: w in saved ==> v.n <= w.n
  }

  lemma HasOldest<V>(saved: map<Version, V>)
    requires |saved| > 0
    ensures exists v :: IsOldest(saved, v)
    decreases |saved|
  {
    assert saved.Keys != {};
    var w :| w in saved;
    var rest := saved - {w};
    assert rest.Keys == saved.Keys - {w};
    if |rest| == 0 {
      assert rest.Keys == {};
      assert IsOldest(saved, w);
    } else {
      HasOldest(rest);
      var v :| IsOldest(rest, v);
      assert IsOldest(saved, if w.n <= v.n then w else v);
    }
  }

  /** The smallest retained id. */
  ghost function Oldest<V>(saved: map<Version, V>): (v: Version)
    requires |saved| > 0
    ensures IsOldest(saved, v)
  {
    HasOldest(saved);
    var v :| IsOldest(saved, v);
    v
  }

  ghost predicate Agrees<V>(a: map<Version, V>, b: map<Version, V>) {
    forall v :: v in a ==> v in b && a[v] == b[v]
  }

  /** `evict_old_snapshots` */
  ghost function Evict(m: Machine): (r: Machine)
    ensures r.live == m.live && r.version == m.version && r.window == m.window && r.next == m.next
        && r.kvNext == m.kvNext
    ensures Agrees(r.saved, m.saved)
    decreases |m.saved|
  {
    if m.window == 0 || |m.saved| <= m.window then m
    else
      var v := Oldest(m.saved);
      assert (m.saved - {v}).Keys == m.saved.Keys - {v};
      Evict(m.(saved := m.saved - {v}))
  }

  ghost function Snapshot(m: Machine): (Machine, Version) {
    var id := Version(m.version + 1);
    (Evict(m.(version := m.version + 1, saved := m.saved[id := m.live])), id)
  }

  function RestoreTo(m: Machine, v: Version): (Machine, Result<(), Failure>) {
    if v in m.saved then (m.(live := m.saved[v]), Ok(())) else (m, Err(NoVersion))
  }

  ghost function Step(m: Machine, op: Op): Machine {
    match op
    case AllocBytes(shape, dtype, byteLen) => AllocWithMeta(m, shape, dtype, byteLen).0
    case AllocTensor(shape, dtype) => AllocWithMeta(m, shape, dtype, TensorBytes(shape, dtype)).0
    case AllocSparse(shape, dtype, density, contents) => AllocSparseTensor(m, shape, dtype, density, contents).0
    case AllocRaw(size) => Alloc(m, size).0
    case MutateSparse(addr, contents) =>
      if addr in m.live.sparse then m.(live := m.live.(sparse := m.live.sparse[addr := contents])) else m
    case Write(addr, data) => WriteGlobal(m, addr, data).0
    case RemoveTensor(addr) => Remove(m, addr).0
    case AllocKv(size) =>
      if size == 0 then m
      else m.(live := m.live.(kvHeap := m.live.kvHeap[Addr(KV_ORIGIN + m.kvNext) := Zeros(Align64(size))]),
              kvNext := m.kvNext + Align64(size))
    case WriteKv(addr, data, hit) => WriteKvHeap(m, addr, data, hit).0
    case KvInit(layers, hidden) => InitKv(m, layers, hidden)
    case KvAppend(sid, layer, k, v) => AppendKv(m, sid, layer, k, v).0
    case KvTruncate(sid, len) => TruncateKv(m, sid, len)
    case KvClear => ClearKv(m)
    case KvCompress(sid, sink, window) => CompressKv(m, sid, sink, window)
    case TakeSnapshot => Snapshot(m).0
    case SetWindow(max) => Evict(m.(window := max))
    case Restore(v) => RestoreTo(m, v).0
  }

  // ---------------------------------------------------------------------
  // Runs
  // ---------------------------------------------------------------------

  /** The machine with a memory of its own past: every image ever captured, every block ever granted. */
  datatype History = History(m: Machine, taken: map<Version, Image>, granted: map<Addr, nat>)

  ghost function Begin(): History {
    History(Init(), map[], map[])
  }

  ghost function Advance(h: History, op: Op): History {
    var m := Step(h.m, op);
    History(m,
      if op.TakeSnapshot? then h.taken[Version(h.m.version + 1) := h.m.live] else h.taken,
      if m.next > h.m.next then h.granted[Addr(h.m.next) := m.next - h.m.next] else h.granted)
  }

  ghost function Run(h: History, ops: seq<Op>): History {
    if ops == [] then h else Advance(Run(h, ops[..|ops| - 1]), ops[|ops| - 1])
  }

  // ---------------------------------------------------------------------
  // Snapshot ids
  // ---------------------------------------------------------------------

  /** The keys are exactly the ids above `lo` up to `hi`. */
  ghost predicate Interval<V>(saved: map<Version, V>, lo: int, hi: int) {
    forall v :: v in saved <==> lo < v.n <= hi
  }

  lemma IntervalSize<V>(saved: map<Version, V>, lo: nat, hi: nat)
    requires lo <= hi && Interval(saved, lo, hi)
    ensures |saved| == hi - lo
    decreases hi - lo
  {
    if lo == hi {
      if v: Version :| v in saved {
        assert false;
      }
      assert saved.Keys == {};
    } else {
      var rest := saved - {Version(hi)};
      assert rest.Keys == saved.Keys - {Version(hi)};
      IntervalSize(rest, lo, hi - 1);
    }
  }

  /**
    The retained ids are the newest ones, no more of them than the window allows,
    and each still holds the image it was taken with; no id was ever issued twice.
  */
  ghost predicate Versions(m: Machine, taken: map<Version, Image>) {
    && |m.saved| <= m.version && Interval(m.saved, m.version - |m.saved|, m.version)
    && (m.window != 0 ==> |m.saved| <= m.window)
    && Interval(taken, 0, m.version)
    && Agrees(m.saved, taken)
  }

  /** Eviction drops the lowest ids, down to the window. */
  lemma EvictKeepsTop(m: Machine, lo: nat)
    requires lo <= m.version && Interval(m.saved, lo, m.version)
    ensures var r, n := Evict(m), m.version - lo;
            var keep := if m.window == 0 || n <= m.window then n else m.window;
            Interval(r.saved, m.version - keep, m.version) && |r.saved| == keep
    decreases m.version - lo
  {
    IntervalSize(m.saved, lo, m.version);
    if m.window != 0 && |m.saved| > m.window {
      var v := Oldest(m.saved);
      assert Version(lo + 1) in m.saved;
      assert v.n == lo + 1;
      EvictKeepsTop(m.(saved := m.saved - {v}), lo + 1);
    }
  }

  /** Only snapshots and window changes touch the retained ids. */
  lemma Undisturbed(m: Machine, op: Op)
    requires !op.TakeSnapshot? && !op.SetWindow?
    ensures var r := Step(m, op); r.saved == m.saved && r.version == m.version && r.window == m.window
  {
    hide TensorBytes, FlatWrite, FreshStore, Patch, ClearAll, CompressAll, TruncateAll, AppendTo, Zeros, Align64;
  }

  lemma IntervalGrow<V>(saved: map<Version, V>, lo: int, hi: nat, x: V)
    requires lo <= hi && Interval(saved, lo, hi)
    ensures Version(hi + 1) !in saved && Interval(saved[Version(hi + 1) := x], lo, hi + 1)
  {
  }

  lemma IntervalTop<V>(saved: map<Version, V>, lo: int, hi: nat)
    requires lo < hi && Interval(saved, lo, hi)
    ensures Version(hi) in saved
  {
  }

  lemma AgreesTrans<V>(a: map<Version, V>, b: map<Version, V>, c: map<Version, V>)
    requires Agrees(a, b) && Agrees(b, c)
    ensures Agrees(a, c)
  {
  }

  lemma AgreesGrow<V>(a: map<Version, V>, b: map<Version, V>, v: Version, x: V)
    requires Agrees(a, b)
    ensures Agrees(a[v := x], b[v := x])
  {
  }

  lemma VersionsSnapshot(m: Machine, taken: map<Version, Image>)
    requires Versions(m, taken)
    ensures Versions(Snapshot(m).0, taken[Version(m.version + 1) := m.live])
    ensures Version(m.version + 1) !in taken && Version(m.version + 1) in Snapshot(m).0.saved
  {
    hide Evict, Interval, Agrees;
    var lo, id := m.version - |m.saved|, Version(m.version + 1);
    var grown := m.(version := m.version + 1, saved := m.saved[id := m.live]);
    IntervalGrow(m.saved, lo, m.version, m.live);
    IntervalGrow(taken, 0, m.version, m.live);
    AgreesGrow(m.saved, taken, id, m.live);
    EvictKeepsTop(grown, lo);
    var r := Evict(grown);
    AgreesTrans(r.saved, grown.saved, taken[id := m.live]);
    IntervalTop(r.saved, r.version - |r.saved|, r.version);
  }

  lemma VersionsWindow(m: Machine, taken: map<Version, Image>, max: nat)
    requires Versions(m, taken)
    ensures Versions(Evict(m.(window := max)), taken)
  {
    hide Evict, Interval, Agrees;
    EvictKeepsTop(m.(window := max), m.version - |m.saved|);
    AgreesTrans(Evict(m.(window := max)).saved, m.saved, taken);
  }

  lemma VersionsStep(h: History, op: Op)
    requires Versions(h.m, h.taken)
    ensures Versions(Advance(h, op).m, Advance(h, op).taken)
  {
    hide Versions;
    if op.TakeSnapshot? {
      VersionsSnapshot(h.m, h.taken);
    } else if op.SetWindow? {
      VersionsWindow(h.m, h.taken, op.max);
    } else {
      Undisturbed(h.m, op);
      VersionsSame(h.m, Step(h.m, op), h.taken);
      hide Step;
    }
  }

  lemma VersionsSame(m: Machine, r: Machine, taken: map<Version, Image>)
    requires Versions(m, taken) && r.saved == m.saved && r.version == m.version && r.window == m.window
    ensures Versions(r, taken)
  {
  }

  // ---------------------------------------------------------------------
  // Blocks
  // ---------------------------------------------------------------------

  /** The blocks ever granted: aligned, disjoint, between the reserved page and the cursor. */
  ghost predicate Ledger(granted: map<Addr, nat>, next: nat) {
    && next >= HEAP_START && next % 64 == 0
    && (forall a :: a in granted ==> a.at % 64 == 0 && granted[a] % 64 == 0)
    && (forall a :: a in granted ==> granted[a] > 0 && HEAP_START <= a.at && a.at + granted[a] <= next)
    && (forall a, b :: a in granted && b in granted && a != b ==>
      a.at + granted[a] <= b.at || b.at + granted[b] <= a.at)
  }

  lemma LedgerGrow(granted: map<Addr, nat>, next: nat, n: nat)
    requires Ledger(granted, next) && n > 0 && n % 64 == 0
    ensures Addr(next) !in granted && Ledger(granted[Addr(next) := n], next + n)
  {
  }

  /** Every live block is one that was granted, at its granted size. */
  ghost predicate Granted(heap: Flat, granted: map<Addr, nat>) {
    forall b :: b in heap ==> b in granted && |heap[b]| == granted[b]
  }

  /** Every metadata entry names a live block of at least the size it claims. */
  ghost predicate MetaBacked(meta: map<Addr, TensorMeta>, heap: Flat) {
    forall a :: a in meta ==> a in heap && meta[a].addr == a && meta[a].byteLen <= |heap[a]|
  }

  ghost predicate StreamsWf(kv: Store, extra: map<Sid, Store>) {
    StoreWf(kv) && forall sid :: sid in extra ==> StoreWf(extra[sid])
  }

  ghost predicate Sound(i: Image, granted: map<Addr, nat>) {
    Granted(i.heap, granted) && MetaBacked(i.meta, i.heap) && StreamsWf(i.kv, i.extra)
  }

  lemma GrantedLaid(heap: Flat, granted: map<Addr, nat>, next: nat)
    requires Granted(heap, granted) && Ledger(granted, next)
    ensures Laid(heap, 0, next)
  {
  }

  lemma SoundGrow(i: Image, granted: map<Addr, nat>, a: Addr, n: nat)
    requires Sound(i, granted) && a !in granted
    ensures Sound(i, granted[a := n])
  {
  }

  lemma Aligned(size: nat)
    requires size > 0
    ensures Align64(size) % 64 == 0 && Align64(size) >= size
  {
  }

  /** A fresh block, with or without metadata that fits it. */
  lemma SoundAlloc(i: Image, granted: map<Addr, nat>, a: Addr, size: nat, meta: TensorMeta)
    requires Sound(i, granted) && a !in granted && size > 0
    requires meta.addr == a && meta.byteLen <= size
    ensures var g, heap := granted[a := Align64(size)], i.heap[a := Zeros(Align64(size))];
            && Sound(i.(heap := heap), g) && Sound(i.(heap := heap, meta := i.meta[a := meta]), g)
  {
    Aligned(size);
    assert a !in i.heap;
  }

  lemma SoundWrite(i: Image, granted: map<Addr, nat>, a: nat, data: seq<Byte>)
    requires Sound(i, granted)
    ensures Sound(i.(heap := FlatWrite(i.heap, a, data)), granted)
  {
    WriteKeepsBlocks(i.heap, a, data);
  }

  lemma SoundRemove(i: Image, granted: map<Addr, nat>, a: Addr)
    requires Sound(i, granted)
    ensures Sound(i.(heap := i.heap - {a}, meta := i.meta - {a}, sparse := i.sparse - {a}), granted)
  {
  }

  lemma FreshStoreWf(layers: nat, hidden: nat)
    ensures StoreWf(FreshStore(layers, hidden))
  {
  }

  lemma ClearWf(kv: Store, extra: map<Sid, Store>)
    requires StreamsWf(kv, extra)
    ensures StreamsWf(ClearAll(kv), ClearStreams(extra))
  {
    StoreStaysWf(kv);
    forall sid | sid in extra ensures StoreWf(ClearAll(extra[sid])) {
      StoreStaysWf(extra[sid]);
    }
  }

  lemma WithStreamWf(i: Image, sid: Sid, store: Store)
    requires StreamsWf(i.kv, i.extra) && StoreWf(store)
    ensures StreamsWf(WithStream(i, sid, store).kv, WithStream(i, sid, store).extra)
    ensures WithStream(i, sid, store).heap == i.heap && WithStream(i, sid, store).meta == i.meta
  {
    hide StoreWf;
  }

  lemma StreamWf(i: Image, sid: Sid)
    requires StreamsWf(i.kv, i.extra) && StreamOf(i, sid).Some?
    ensures StoreWf(StreamOf(i, sid).value)
  {
  }

  lemma SoundStreams(m: Machine, granted: map<Addr, nat>, op: Op)
    requires Sound(m.live, granted)
    requires op.KvInit? || op.KvAppend? || op.KvTruncate? || op.KvClear? || op.KvCompress?
    ensures Sound(Step(m, op).live, granted)
    ensures Step(m, op).next == m.next
  {
    hide StoreWf, CompressAll, TruncateAll, ClearAll, ClearStreams, FreshStore, Granted, MetaBacked, StreamsWf,
        AppendTo, StreamOf, WithStream;
    match op {
      case KvInit(layers, hidden) =>
        ClearWf(m.live.kv, m.live.extra);
        FreshStoreWf(layers, hidden);
        KvReplaced(m.live, FreshStore(layers, hidden));
      case KvAppend(sid, layer, k, v) =>
        SoundAppend(m, granted, sid, layer, k, v);
      case KvTruncate(sid, len) =>
        if StreamOf(m.live, sid).Some? {
          StreamWf(m.live, sid);
          StoreStaysWf(StreamOf(m.live, sid).value);
          WithStreamWf(m.live, sid, TruncateAll(StreamOf(m.live, sid).value, len));
        }
      case KvClear =>
        ClearWf(m.live.kv, m.live.extra);
      case KvCompress(sid, sink, window) =>
        if StreamOf(m.live, sid).Some? {
          StreamWf(m.live, sid);
          StoreStaysWf(StreamOf(m.live, sid).value);
          WithStreamWf(m.live, sid, CompressAll(StreamOf(m.live, sid).value, sink, window));
        }
    }
  }

  lemma KvReplaced(i: Image, kv: Store)
    requires StreamsWf(i.kv, i.extra) && StoreWf(kv)
    ensures StreamsWf(kv, i.extra)
  {
  }

  lemma SoundAppend(m: Machine, granted: map<Addr, nat>, sid: Sid, layer: nat, k: Row, v: Row)
    requires Sound(m.live, granted)
    ensures Sound(AppendKv(m, sid, layer, k, v).0.live, granted)
    ensures AppendKv(m, sid, layer, k, v).0.next == m.next
  {
    hide StoreWf, Granted, MetaBacked, StreamsWf, FreshStore, AppendTo, StreamOf, WithStream;
    var made := Materialise(m.live, sid);
    if made.Ok? {
      var i := made.value;
      MaterialiseWf(m.live, sid);
      StreamWf(i, sid);
      StoreStaysWf(StreamOf(i, sid).value);
      var r := AppendTo(StreamOf(i, sid).value, layer, k, v);
      if r.Ok? {
        WithStreamWf(i, sid, r.value);
      }
    }
  }

  lemma MaterialiseWf(i: Image, sid: Sid)
    requires StreamsWf(i.kv, i.extra) && Materialise(i, sid).Ok?
    ensures var r := Materialise(i, sid).value; StreamsWf(r.kv, r.extra) && r.heap == i.heap && r.meta == i.meta
  {
    if i.kv != [] {
      FreshStoreWf(|i.kv|, i.kv[0].hidden);
    }
  }

  // ---------------------------------------------------------------------
  // What every step keeps
  // ---------------------------------------------------------------------

  ghost predicate AllSound(saved: map<Version, Image>, granted: map<Addr, nat>) {
    forall v :: v in saved ==> Sound(saved[v], granted)
  }

  ghost predicate Inv(h: History) {
    && Versions(h.m, h.taken)
    && Ledger(h.granted, h.m.next)
    && Sound(h.m.live, h.granted) && AllSound(h.taken, h.granted)
  }

  lemma AllSoundGrow(saved: map<Version, Image>, granted: map<Addr, nat>, a: Addr, n: nat)
    requires AllSound(saved, granted) && a !in granted
    ensures AllSound(saved, granted[a := n])
  {
    forall v | v in saved ensures Sound(saved[v], granted[a := n]) {
      SoundGrow(saved[v], granted, a, n);
    }
  }

  lemma AllSoundAdd(saved: map<Version, Image>, granted: map<Addr, nat>, v: Version, i: Image)
    requires AllSound(saved, granted) && Sound(i, granted)
    ensures AllSound(saved[v := i], granted)
  {
  }

  /** The size the operation asks of the GLOBAL cursor, and the metadata it records. */
  function Request(op: Op): nat {
    match op
    case AllocBytes(_, _, byteLen) => byteLen
    case AllocTensor(shape, dtype) => TensorBytes(shape, dtype)
    case AllocRaw(size) => size
    case AllocSparse(shape, dtype, density, _) =>
      if |shape| != 2 then 0
      else
        var n := SparseBytes(shape, dtype, Clamp(density, 0.01, 1.0));
        if n < 64 then 64 else n
    case _ => 0
  }

  function MetaFor(op: Op, addr: Addr): TensorMeta {
    match op
    case AllocBytes(shape, dtype, byteLen) => TensorMeta(addr, shape, dtype, byteLen, false, 1.0)
    case AllocTensor(shape, dtype) => TensorMeta(addr, shape, dtype, TensorBytes(shape, dtype), false, 1.0)
    case AllocSparse(shape, dtype, density, _) =>
      var d := Clamp(density, 0.01, 1.0);
      TensorMeta(addr, shape, dtype, if |shape| == 2 then SparseBytes(shape, dtype, d) else 0, true, d)
    case _ => TensorMeta(addr, [], F32, 0, false, 1.0)
  }

  lemma SoundLive(h: History, op: Op)
    requires Inv(h)
    ensures Sound(Advance(h, op).m.live, Advance(h, op).granted)
    ensures Ledger(Advance(h, op).granted, Advance(h, op).m.next)
    ensures AllSound(h.taken, Advance(h, op).granted)
  {
    hide Ledger, Granted, MetaBacked, StreamsWf, TensorBytes, Align64, Zeros, FlatWrite, SparseBytes, Evict, Sound,
        AllSound, Versions;
    var m, g := h.m, h.granted;
    var n := Request(op);
    if n > 0 {
      Aligned(n);
      LedgerGrow(g, m.next, Align64(n));
      AllSoundGrow(h.taken, g, Addr(m.next), Align64(n));
      var meta := MetaFor(op, Addr(m.next));
      SoundAlloc(m.live, g, Addr(m.next), n, meta);
      if op.AllocSparse? {
        SparseFree(m.live.(heap := m.live.heap[Addr(m.next) := Zeros(Align64(n))], meta :=
          m.live.meta[Addr(m.next) := meta]),
          g[Addr(m.next) := Align64(n)], m.live.sparse[Addr(m.next) := op.contents]);
      }
    } else {
      match op {
        case Write(addr, data) =>
          SoundWrite(m.live, g, Canon(0, addr), data);
        case RemoveTensor(addr) =>
          SoundRemove(m.live, g, addr);
        case MutateSparse(addr, contents) =>
          SparseFree(m.live, g, m.live.sparse[addr := contents]);
        case AllocKv(size) =>
          KvHeapFree(m.live, g, Step(m, op).live.kvHeap);
        case WriteKv(addr, data, hit) =>
          KvHeapFree(m.live, g, Step(m, op).live.kvHeap);
        case KvInit(_, _) => SoundStreams(m, g, op);
        case KvAppend(_, _, _, _) => SoundStreams(m, g, op);
        case KvTruncate(_, _) => SoundStreams(m, g, op);
        case KvClear => SoundStreams(m, g, op);
        case KvCompress(_, _, _) => SoundStreams(m, g, op);
        case Restore(v) =>
          if v in m.saved {
            SavedSound(h, v);
          }
        case _ =>
      }
    }
  }

  lemma SavedSound(h: History, v: Version)
    requires Inv(h) && v in h.m.saved
    ensures Sound(h.m.saved[v], h.granted)
  {
  }

  lemma SparseFree(i: Image, granted: map<Addr, nat>, sparse: map<Addr, Sparse>)
    requires Sound(i, granted)
    ensures Sound(i.(sparse := sparse), granted)
  {
  }

  lemma KvHeapFree(i: Image, granted: map<Addr, nat>, kvHeap: Flat)
    requires Sound(i, granted)
    ensures Sound(i.(kvHeap := kvHeap), granted)
  {
  }

  lemma InvStep(h: History, op: Op)
    requires Inv(h)
    ensures Inv(Advance(h, op))
  {
    hide Ledger, Sound, AllSound, Versions, Step;
    SoundLive(h, op);
    VersionsStep(h, op);
    if op.TakeSnapshot? {
      SnapshotKeepsLive(h.m);
      AllSoundAdd(h.taken, h.granted, Version(h.m.version + 1), h.m.live);
    }
  }

  lemma SnapshotKeepsLive(m: Machine)
    ensures Step(m, TakeSnapshot).live == m.live && Step(m, TakeSnapshot).next == m.next
  {
    hide Evict;
  }

  /** Every reachable memory satisfies the invariant. */
  lemma {:induction false} InvRun(ops: seq<Op>)
    ensures Inv(Run(Begin(), ops))
  {
    if ops == [] {
    } else {
      InvRun(ops[..|ops| - 1]);
      InvStep(Run(Begin(), ops[..|ops| - 1]), ops[|ops| - 1]);
    }
  }

  // ---------------------------------------------------------------------
  // What the runs promise
  // ---------------------------------------------------------------------

  /**
    Restoring: it succeeds exactly for the retained ids, the newest ones up to the
    current version; it brings back the whole image taken under that id, and leaves
    the counter, the snapshots and the cursors alone. Otherwise it changes nothing.
  */
  lemma RestoreIsExact(ops: seq<Op>, v: Version)
    ensures var h := Run(Begin(), ops);
            var (r, res) := RestoreTo(h.m, v);
            && (res.Ok? <==> h.m.version - |h.m.saved| < v.n <= h.m.version)
            && (res.Ok? ==> v in h.taken && r == h.m.(live := h.taken[v]))
            && (res.Err? ==> r == h.m)
  {
    InvRun(ops);
  }

  /** The ids and images of a run's snapshots are never overwritten later. */
  lemma TakenStays(h: History, op: Op)
    requires Inv(h)
    ensures Agrees(h.taken, Advance(h, op).taken) && Advance(h, op).m.version >= h.m.version
    ensures op.TakeSnapshot? ==> Advance(h, op).m.version == h.m.version + 1
  {
    if op.TakeSnapshot? || op.SetWindow? {
    } else {
      Undisturbed(h.m, op);
      hide Step;
    }
  }

  lemma {:induction false} RunAppend(h: History, a: seq<Op>, b: seq<Op>)
    ensures Run(h, a + b) == Run(Run(h, a), b)
    decreases |b|
  {
    if b == [] {
      assert a + b == a;
    } else {
      var n := |b| - 1;
      assert (a + b)[..|a + b| - 1] == a + b[..n];
      RunAppend(h, a, b[..n]);
    }
  }

  lemma {:induction false} InvRunFrom(h: History, ops: seq<Op>)
    requires Inv(h)
    ensures Inv(Run(h, ops)) && Agrees(h.taken, Run(h, ops).taken) && Run(h, ops).m.version >= h.m.version
  {
    hide Inv, Agrees, Advance;
    if ops == [] {
      AgreesSelf(h.taken);
    } else {
      var mid := Run(h, ops[..|ops| - 1]);
      InvRunFrom(h, ops[..|ops| - 1]);
      InvStep(mid, ops[|ops| - 1]);
      TakenStays(mid, ops[|ops| - 1]);
      AgreesTrans(h.taken, mid.taken, Run(h, ops).taken);
    }
  }

  lemma AgreesSelf<V>(a: map<Version, V>)
    ensures Agrees(a, a)
  {
  }

  lemma SplitRun(ops: seq<Op>, more: seq<Op>)
    ensures Run(Begin(), ops + [TakeSnapshot] + more) == Run(Advance(Run(Begin(), ops), TakeSnapshot), more)
  {
    hide Advance;
    var h := Run(Begin(), ops);
    assert [TakeSnapshot][..0] == [];
    assert Run(h, [TakeSnapshot]) == Advance(Run(h, []), TakeSnapshot);
    RunAppend(Begin(), ops, [TakeSnapshot]);
    RunAppend(Begin(), ops + [TakeSnapshot], more);
  }

  lemma TakenAt(h: History)
    requires Inv(h)
    ensures var h1, id := Advance(h, TakeSnapshot), Version(h.m.version + 1);
            && id in h1.taken && h1.taken[id] == h.m.live
            && id in h1.m.saved && h1.m.version == id.n && h1.m.window == h.m.window
  {
    hide Evict;
    VersionsSnapshot(h.m, h.taken);
  }

  lemma SavedIsTaken(h: History, v: Version)
    requires Inv(h)
    ensures v in h.m.saved ==> v in h.taken && h.m.saved[v] == h.taken[v]
  {
  }

  /** Rollback: whatever runs after a snapshot, restoring its id brings back the state it was taken in, bit for bit. */
  lemma Rollback(ops: seq<Op>, more: seq<Op>)
    ensures var before := Run(Begin(), ops).m;
            var id := Version(before.version + 1);
            var (r, res) := RestoreTo(Run(Begin(), ops + [TakeSnapshot] + more).m, id);
            res.Ok? ==> r.live == before.live
  {
    hide Inv, Advance, Run;
    var h := Run(Begin(), ops);
    InvRun(ops);
    var h1 := Advance(h, TakeSnapshot);
    InvStep(h, TakeSnapshot);
    SplitRun(ops, more);
    InvRunFrom(h1, more);
    TakenAt(h);
    var id := Version(h.m.version + 1);
    SavedIsTaken(Run(h1, more), id);
    assert id in h1.taken;
  }

  ghost function SnapshotsIn(ops: seq<Op>): nat {
    if ops == [] then 0 else SnapshotsIn(ops[..|ops| - 1]) + if ops[|ops| - 1].TakeSnapshot? then 1 else 0
  }

  ghost predicate WindowFixed(ops: seq<Op>) {
    forall i :: 0 <= i < |ops| ==> !ops[i].SetWindow?
  }

  /**
    How long a snapshot can be restored: while the window is left alone, exactly
    until `window` further snapshots have been taken, and for ever if it is 0.
  */
  lemma RetainedExactly(ops: seq<Op>, more: seq<Op>)
    requires WindowFixed(more)
    ensures var before := Run(Begin(), ops).m;
            var after := Run(Begin(), ops + [TakeSnapshot] + more).m;
            RestoreTo(after, Version(before.version + 1)).1.Ok? <==>
              before.window == 0 || SnapshotsIn(more) < before.window
  {
    hide Inv, Advance, Run, SnapshotsIn;
    var h := Run(Begin(), ops);
    InvRun(ops);
    var h1 := Advance(h, TakeSnapshot);
    InvStep(h, TakeSnapshot);
    SplitRun(ops, more);
    TakenAt(h);
    RetainedFrom(h1, more, Version(h.m.version + 1));
  }

  lemma {:induction false} RetainedFrom(h: History, more: seq<Op>, v: Version)
    requires Inv(h) && WindowFixed(more) && v.n == h.m.version && v in h.m.saved
    ensures var r := Run(h, more).m;
            && r.window == h.m.window && r.version == v.n + SnapshotsIn(more)
            && (v in r.saved <==> h.m.window == 0 || SnapshotsIn(more) < h.m.window)
    decreases |more|
  {
    if more == [] {
      assert h.m.window != 0 ==> |h.m.saved| <= h.m.window;
      IntervalSize(h.m.saved, h.m.version - |h.m.saved|, h.m.version);
      assert |h.m.saved| > 0;
    } else {
      var n := |more| - 1;
      var mid, op := Run(h, more[..n]), more[n];
      RetainedFrom(h, more[..n], v);
      InvRunFrom(h, more[..n]);
      RetainedStep(mid, op, v);
    }
  }

  /** One step keeps an id unless it is a snapshot that pushes it out of the window. */
  lemma RetainedStep(h: History, op: Op, v: Version)
    requires Inv(h) && !op.SetWindow? && v.n <= h.m.version
    ensures var r := Advance(h, op).m;
            && r.window == h.m.window && r.version == h.m.version + (if op.TakeSnapshot? then 1 else 0)
            && (v in r.saved <==>
              v in h.m.saved && (op.TakeSnapshot? && h.m.window != 0 ==> h.m.version + 1 - v.n < h.m.window))
  {
    if op.TakeSnapshot? {
      RetainedSnapshot(h.m, h.taken, v);
    } else {
      Undisturbed(h.m, op);
      hide Step;
    }
  }

  lemma RetainedSnapshot(m: Machine, taken: map<Version, Image>, v: Version)
    requires Versions(m, taken) && v.n <= m.version
    ensures var r := Snapshot(m).0;
            && r.window == m.window && r.version == m.version + 1
            && (v in r.saved <==> v in m.saved && (m.window != 0 ==> m.version + 1 - v.n < m.window))
  {
    hide Evict, Interval, Agrees;
    var lo := m.version - |m.saved|;
    var grown := m.(version := m.version + 1, saved := m.saved[Version(m.version + 1) := m.live]);
    IntervalGrow(m.saved, lo, m.version, m.live);
    EvictKeepsTop(grown, lo);
    var r := Evict(grown);
    InInterval(m.saved, lo, m.version, v);
    InInterval(r.saved, r.version - |r.saved|, r.version, v);
  }

  lemma InInterval<V>(saved: map<Version, V>, lo: int, hi: int, v: Version)
    requires Interval(saved, lo, hi)
    ensures v in saved <==> lo < v.n <= hi
  {
  }

  /** The base block `a` of image `i`, if it has one, ends before or starts after block `b` of image `j`. */
  ghost predicate NoOverlap(i: Image, j: Image) {
    forall a, b :: a in i.heap && b in j.heap ==>
      if a == b then |i.heap[a]| == |j.heap[b]|
      else a.at + |i.heap[a]| <= b.at || b.at + |j.heap[b]| <= a.at
  }

  lemma SoundNoOverlap(i: Image, j: Image, granted: map<Addr, nat>, next: nat)
    requires Sound(i, granted) && Sound(j, granted) && Ledger(granted, next)
    ensures NoOverlap(i, j)
  {
  }

  /**
    GLOBAL blocks never overlap, whether both are live, both in snapshots, or one
    of each, because restoring leaves the cursor where it is. A base names a block
    of one size for ever.
  */
  lemma BlocksNeverOverlap(ops: seq<Op>, v: Version, w: Version)
    ensures var m := Run(Begin(), ops).m;
            && Laid(m.live.heap, 0, m.next) && NoOverlap(m.live, m.live)
            && (v in m.saved ==> NoOverlap(m.live, m.saved[v]))
            && (v in m.saved && w in m.saved ==> NoOverlap(m.saved[v], m.saved[w]))
  {
    hide Sound, Ledger, NoOverlap, Laid;
    InvRun(ops);
    var h := Run(Begin(), ops);
    HeapLaid(h);
    SoundNoOverlap(h.m.live, h.m.live, h.granted, h.m.next);
    if v in h.m.saved {
      SavedSound(h, v);
      SoundNoOverlap(h.m.live, h.m.saved[v], h.granted, h.m.next);
      if w in h.m.saved {
        SavedSound(h, w);
        SoundNoOverlap(h.m.saved[v], h.m.saved[w], h.granted, h.m.next);
      }
    }
  }

  lemma HeapLaid(h: History)
    requires Inv(h)
    ensures Laid(h.m.live.heap, 0, h.m.next)
  {
    GrantedLaid(h.m.live.heap, h.granted, h.m.next);
  }

  /** Every tensor's metadata names a live block that is large enough, in the live memory and in every snapshot. */
  lemma MetaNamesBlocks(ops: seq<Op>, v: Version)
    ensures var m := Run(Begin(), ops).m;
            && MetaBacked(m.live.meta, m.live.heap)
            && (v in m.saved ==> MetaBacked(m.saved[v].meta, m.saved[v].heap))
  {
    InvRun(ops);
    var h := Run(Begin(), ops);
    if v in h.m.saved {
      SavedSound(h, v);
    }
  }

  // ---------------------------------------------------------------------
  // K/V streams
  // ---------------------------------------------------------------------

  lemma OtherStream(i: Image, sid: Sid, store: Store, other: Sid)
    requires other != sid
    ensures var r := WithStream(i, sid, store);
            StreamOf(r, other) == StreamOf(i, other) && r == i.(kv := r.kv, extra := r.extra)
  {
  }

  lemma MaterialiseOther(i: Image, sid: Sid, other: Sid)
    requires other != sid && Materialise(i, sid).Ok?
    ensures var r := Materialise(i, sid).value;
            StreamOf(r, other) == StreamOf(i, other) && r == i.(kv := r.kv, extra := r.extra)
  {
    if i.kv != [] {
      OtherStream(i, sid, FreshStore(|i.kv|, i.kv[0].hidden), other);
    }
  }

  /** Operations on one stream leave every other stream, and everything that is not a stream, alone. */
  lemma StreamsAreIndependent(m: Machine, op: Op, sid: Sid, other: Sid)
    requires match op case KvAppend(s, _, _, _) => s == sid case KvTruncate(s, _) => s ==
        sid case KvCompress(s, _, _) => s == sid case _ => false
    requires other != sid
    ensures var r := Step(m, op);
            && StreamOf(r.live, other) == StreamOf(m.live, other)
            && r == m.(live := m.live.(kv := r.live.kv, extra := r.live.extra))
  {
    hide AppendTo, TruncateAll, CompressAll, FreshStore, StoreWf, StreamOf, WithStream, Materialise;
    match op {
      case KvAppend(_, layer, k, v) =>
        var made := Materialise(m.live, sid);
        if made.Ok? {
          MaterialiseOther(m.live, sid, other);
          var r := AppendTo(StreamOf(made.value, sid).value, layer, k, v);
          if r.Ok? {
            OtherStream(made.value, sid, r.value, other);
          }
        }
      case KvTruncate(_, len) =>
        if StreamOf(m.live, sid).Some? {
          OtherStream(m.live, sid, TruncateAll(StreamOf(m.live, sid).value, len), other);
        }
      case KvCompress(_, sink, window) =>
        if StreamOf(m.live, sid).Some? && StoreWf(StreamOf(m.live, sid).value) {
          OtherStream(m.live, sid, CompressAll(StreamOf(m.live, sid).value, sink, window), other);
        }
    }
  }

  /** Appending each row to its layer and compressing the stream after each. */
  function StreamOps(sid: Sid, feeds: seq<Feed>, sink: nat, window: nat): seq<Op> {
    if feeds == [] then []
    else
      var f := feeds[|feeds| - 1];
      StreamOps(sid, feeds[..|feeds| - 1], sink, window) +
        [KvAppend(sid, f.layer, f.k, f.v), KvCompress(sid, sink, window)]
  }

  lemma AppendThenCompress(m: Machine, sid: Sid, f: Feed, sink: nat, window: nat, s: Store, t: Store)
    requires m.live.kv != [] && StreamOf(m.live, sid) == Some(s)
    requires AppendTo(s, f.layer, f.k, f.v) == Ok(t) && StoreWf(t)
    ensures var r := CompressKv(AppendKv(m, sid, f.layer, f.k, f.v).0, sid, sink, window);
            StreamOf(r.live, sid) == Some(CompressAll(t, sink, window)) && r.live.kv != []
  {
    hide StoreWf, CompressAll;
    assert |CompressAll(t, sink, window)| == |t| by {
      SameLength(t, sink, window);
    }
  }

  lemma SameLength(t: Store, sink: nat, window: nat)
    requires StoreWf(t)
    ensures |CompressAll(t, sink, window)| == |t|
  {
  }

  /** In the memory, such a run does to its stream what `KvCache.Stream` does to the layers. */
  lemma {:induction false} StreamInMemory(h: History, sid: Sid, feeds: seq<Feed>, sink: nat, window: nat, store: Store)
    requires h.m.live.kv != [] && StreamOf(h.m.live, sid) == Some(store) && StoreWf(store)
    requires Stream(store, feeds, sink, window).Ok?
    ensures var r := Run(h, StreamOps(sid, feeds, sink, window)).m;
            StreamOf(r.live, sid) == Some(Stream(store, feeds, sink, window).value) && r.live.kv != []
    decreases |feeds|
  {
    hide StreamOf, AppendTo, CompressAll, Advance, StoreWf, CompressKv, AppendKv;
    if feeds != [] {
      var n := |feeds| - 1;
      var front, f := feeds[..n], feeds[n];
      StreamInMemory(h, sid, front, sink, window, store);
      var ops := StreamOps(sid, front, sink, window);
      var a, b := KvAppend(sid, f.layer, f.k, f.v), KvCompress(sid, sink, window);
      TwoSteps(h, ops, a, b);
      Advanced(Run(h, ops), a);
      Advanced(Advance(Run(h, ops), a), b);
      var s := Stream(store, front, sink, window).value;
      StoreStaysWf(s);
      AppendThenCompress(Run(h, ops).m, sid, f, sink, window, s, AppendTo(s, f.layer, f.k, f.v).value);
    }
  }

  lemma Advanced(h: History, op: Op)
    ensures Advance(h, op).m == Step(h.m, op)
  {
  }

  lemma TwoSteps(h: History, ops: seq<Op>, a: Op, b: Op)
    ensures Run(h, ops + [a, b]) == Advance(Advance(Run(h, ops), a), b)
  {
    hide Advance;
    assert (ops + [a, b])[..|ops| + 1] == ops + [a];
    assert (ops + [a])[..|ops|] == ops;
  }
}
