/**
  What the K/V and snapshot operations of the memory leave behind, said in rows, widths
  and retained ids (src/memory.rs, `kv_cache_*` and `snapshot`).
*/
module StreamLaws {
  import opened Prelude
  import opened CowHeap
  import opened FlatHeap
  import opened KvCache
  import opened MemoryModel
  import MemoryLaws

  // ---------------------------------------------------------------------
  // Streams
  // ---------------------------------------------------------------------

  /** All streams there are; 0 is always one of them. */
  function Streams(i: Image): map<Sid, Store> {
    i.extra[Sid(0) := i.kv]
  }

  /** Nothing but the streams differs. */
  predicate OnlyStreams(m: Machine, r: Machine) {
    r == m.(live := m.live.(kv := r.live.kv, extra := r.live.extra))
  }

  /** As many layers of the same widths, without a row. */
  predicate Emptied(was: Store, now: Store) {
    |now| == |was| && forall i :: 0 <= i < |now| ==> now[i] == KvLayer([], [], was[i].hidden, 0)
  }

  predicate AllEmptied(was: map<Sid, Store>, now: map<Sid, Store>) {
    now.Keys == was.Keys && forall sid :: sid in was ==> Emptied(was[sid], now[sid])
  }

  /** Clearing empties every layer of every stream and keeps the widths. */
  lemma ClearEmpties(m: Machine)
    ensures var r := Step(m, KvClear);
            OnlyStreams(m, r) && Emptied(m.live.kv, r.live.kv) && AllEmptied(m.live.extra, r.live.extra)
  {
  }

  /** All layers have one width. */
  predicate OneWidth(store: Store) {
    forall i :: 0 <= i < |store| ==> store[i].hidden == store[0].hidden
  }

  predicate AllOneWidth(saved: map<Version, Image>) {
    forall v :: v in saved ==> OneWidth(saved[v].kv)
  }

  /**
    Initialising, whatever ran before, leaves the layers asked for, of the width asked
    for, without a row. Other streams are emptied when the shape was that already, and
    left alone when it was not; then the K/V cursor starts again.
  */
  lemma InitEmpties(ops: seq<Op>, layers: nat, hidden: nat)
    ensures var m := Run(Begin(), ops).m;
            var r := Step(m, KvInit(layers, hidden));
            && |r.live.kv| == layers
            && (forall i :: 0 <= i < layers ==> r.live.kv[i] == KvLayer([], [], hidden, 0))
            && if SameShape(m.live.kv, layers, hidden) then OnlyStreams(m, r) && AllEmptied(m.live.extra, r.live.extra)
               else r == m.(live := m.live.(kv := r.live.kv), kvNext := 0x1000)
  {
    hide Step, Run, OneWidth;
    WidthRun(ops);
    var m := Run(Begin(), ops).m;
    if SameShape(m.live.kv, layers, hidden) {
      InitSame(m, layers, hidden);
    } else {
      InitFresh(m, layers, hidden);
    }
  }

  predicate SameShape(kv: Store, layers: nat, hidden: nat) {
    |kv| == layers && layers > 0 && kv[0].hidden == hidden
  }

  lemma InitSame(m: Machine, layers: nat, hidden: nat)
    requires OneWidth(m.live.kv) && SameShape(m.live.kv, layers, hidden)
    ensures var r := Step(m, KvInit(layers, hidden));
            && |r.live.kv| == layers && OnlyStreams(m, r) && AllEmptied(m.live.extra, r.live.extra)
            && (forall i :: 0 <= i < layers ==> r.live.kv[i] == KvLayer([], [], hidden, 0))
  {
    assert Step(m, KvInit(layers, hidden)) == Step(m, KvClear);
    ClearEmpties(m);
    hide *;
    hide Step;
    forall i | 0 <= i < layers ensures Step(m, KvInit(layers, hidden)).live.kv[i] == KvLayer([], [], hidden, 0) {
    }
  }

  lemma InitFresh(m: Machine, layers: nat, hidden: nat)
    requires !SameShape(m.live.kv, layers, hidden)
    ensures var r := Step(m, KvInit(layers, hidden));
            && |r.live.kv| == layers && r == m.(live := m.live.(kv := r.live.kv), kvNext := 0x1000)
            && (forall i :: 0 <= i < layers ==> r.live.kv[i] == KvLayer([], [], hidden, 0))
  {
  }

  /** Stream 0 has one width in every memory that can be reached, and in every snapshot taken. */
  lemma {:induction false} WidthRun(ops: seq<Op>)
    ensures var h := Run(Begin(), ops); OneWidth(h.m.live.kv) && AllOneWidth(h.taken)
  {
    hide Advance, OneWidth;
    if ops == [] {
      assert OneWidth([]) by {
        EmptyWidth();
      }
    } else {
      WidthRun(ops[..|ops| - 1]);
      InvRun(ops[..|ops| - 1]);
      WidthStep(Run(Begin(), ops[..|ops| - 1]), ops[|ops| - 1]);
    }
  }

  lemma EmptyWidth()
    ensures OneWidth([])
  {
  }

  lemma WidthStep(h: History, op: Op)
    requires Inv(h) && OneWidth(h.m.live.kv) && AllOneWidth(h.taken)
    ensures OneWidth(Advance(h, op).m.live.kv) && AllOneWidth(Advance(h, op).taken)
  {
    hide Inv, OneWidth, Step;
    match op {
      case KvInit(layers, hidden) => FreshWidth(h.m, layers, hidden);
      case KvClear => ClearedWidth(h.m);
      case KvAppend(sid, layer, k, v) => AppendWidth(h.m, sid, layer, k, v);
      case KvTruncate(sid, len) => TruncateWidth(h.m, sid, len);
      case KvCompress(sid, sink, window) => CompressWidth(h.m, sid, sink, window);
      case Restore(v) =>
        RestoreIs(h.m, v);
        SavedIsTaken(h, v);
      case _ => StreamsStay(h.m, op);
    }
  }

  lemma RestoreIs(m: Machine, v: Version)
    ensures Step(m, Restore(v)) == if v in m.saved then m.(live := m.saved[v]) else m
  {
  }

  lemma FreshWidth(m: Machine, layers: nat, hidden: nat)
    requires OneWidth(m.live.kv)
    ensures OneWidth(Step(m, KvInit(layers, hidden)).live.kv)
  {
    hide Step;
    if SameShape(m.live.kv, layers, hidden) {
      InitSame(m, layers, hidden);
    } else {
      InitFresh(m, layers, hidden);
    }
  }

  lemma ClearedWidth(m: Machine)
    requires OneWidth(m.live.kv)
    ensures OneWidth(Step(m, KvClear).live.kv)
  {
  }

  lemma AppendWidth(m: Machine, sid: Sid, layer: nat, k: Row, v: Row)
    requires OneWidth(m.live.kv)
    ensures OneWidth(Step(m, KvAppend(sid, layer, k, v)).live.kv)
  {
    if sid == Sid(0) {
      var r := AppendTo(m.live.kv, layer, k, v);
      if r.Ok? {
        assert forall i :: 0 <= i < |r.value| ==> r.value[i].hidden == m.live.kv[i].hidden;
      }
      hide FreshStore;
    } else {
      StreamsAreIndependent(m, KvAppend(sid, layer, k, v), sid, Sid(0));
      hide Step, OneWidth;
    }
  }

  lemma TruncateWidth(m: Machine, sid: Sid, len: nat)
    requires OneWidth(m.live.kv)
    ensures OneWidth(Step(m, KvTruncate(sid, len)).live.kv)
  {
    hide Take;
  }

  lemma CompressWidth(m: Machine, sid: Sid, sink: nat, window: nat)
    requires OneWidth(m.live.kv)
    ensures OneWidth(Step(m, KvCompress(sid, sink, window)).live.kv)
  {
    if StreamOf(m.live, sid).Some? && StoreWf(StreamOf(m.live, sid).value) {
      var store := StreamOf(m.live, sid).value;
      forall i | 0 <= i < |store| ensures CompressLayer(store[i], sink, window).hidden == store[i].hidden {
        CompressKeeps(store[i], sink, window);
      }
    }
  }

  /** The other operations leave the streams alone. */
  lemma StreamsStay(m: Machine, op: Op)
    requires !op.KvInit? && !op.KvClear? && !op.KvAppend? && !op.KvTruncate? && !op.KvCompress? && !op.Restore?
    ensures Step(m, op).live.kv == m.live.kv && Step(m, op).live.extra == m.live.extra
  {
    hide Step, MemoryLaws.Added, MemoryLaws.OnlyGone;
    match op {
      case AllocRaw(size) => MemoryLaws.AllocAdds(m, size);
      case AllocBytes(shape, dtype, n) => MemoryLaws.TensorAdds(m, shape, dtype, n);
      case AllocTensor(shape, dtype) =>
        MemoryLaws.DenseAdds(m, shape, dtype);
        MemoryLaws.TensorAdds(m, shape, dtype, TensorBytes(shape, dtype));
      case AllocSparse(shape, dtype, density, contents) => MemoryLaws.SparseAdds(m, shape, dtype, density, contents);
      case RemoveTensor(addr) => MemoryLaws.RemoveRemoves(m, addr);
      case MutateSparse(addr, contents) => MemoryLaws.SparseReplaces(m, addr, contents);
      case _ => OtherStay(m, op);
    }
  }

  lemma OtherStay(m: Machine, op: Op)
    requires op.Write? || op.AllocKv? || op.WriteKv? || op.TakeSnapshot? || op.SetWindow?
    ensures Step(m, op).live.kv == m.live.kv && Step(m, op).live.extra == m.live.extra
  {
    hide Evict, Zeros, Patch, Hits, FlatWrite, Covers, Align64;
  }

  /** The layers an append works on: those of the stream, or empty ones of the shape of stream 0. */
  function Target(i: Image, sid: Sid): Store
    requires i.kv != []
  {
    if sid in Streams(i) then Streams(i)[sid] else seq(|i.kv|, _ => KvLayer([], [], i.kv[0].hidden, 0))
  }

  /** Layer `i` has the row at its end in K and in V; no other layer changed. */
  ghost predicate RowAdded(was: Store, now: Store, i: nat, k: Row, v: Row)
    requires i < |was| && StoreWf(was)
  {
    && |now| == |was| && StoreWf(now) && now[i].hidden == was[i].hidden
    && KRows(now[i]) == KRows(was[i]) + [k] && VRows(now[i]) == VRows(was[i]) + [v]
    && forall j :: 0 <= j < |was| && j != i ==> now[j] == was[j]
  }

  /** The refusals of an append to a store, in the order they are tried. */
  function Refusal(store: Store, layer: nat, k: Row, v: Row): Option<KvError> {
    if layer >= |store| then Some(NoLayer)
    else if !(|k| == |v| == store[layer].hidden) then Some(BadWidth)
    else if store[layer].seqLen >= 2048 then Some(Full)
    else None
  }

  /**
    An append adds one row of K and one of V to one layer of one stream, which is
    created with the shape of stream 0 if it is new, even when the row is refused.
    Without layers there is no shape, and only stream 0 exists.
  */
  lemma AppendAdds(m: Machine, sid: Sid, layer: nat, k: Row, v: Row)
    requires StreamsWf(m.live.kv, m.live.extra)
    ensures var r, answer := Step(m, KvAppend(sid, layer, k, v)), AppendKv(m, sid, layer, k, v).1;
            && OnlyStreams(m, r)
            && (m.live.kv == [] ==> r == m && answer == Err(Kv(if sid == Sid(0) then NoLayer else NoStream)))
            && (m.live.kv != [] ==>
              var was := Target(m.live, sid);
              && StoreWf(was) && sid in Streams(r.live)
              && Streams(r.live) == Streams(m.live)[sid := Streams(r.live)[sid]]
              && match Refusal(was, layer, k, v)
                 case Some(e) => answer == Err(Kv(e)) && Streams(r.live)[sid] == was
                 case None => answer == Ok(()) && RowAdded(was, Streams(r.live)[sid], layer, k, v))
  {
    hide Step, StoreWf, Target, Streams, RowAdded, AppendKv, StreamsWf;
    assert Step(m, KvAppend(sid, layer, k, v)) == AppendKv(m, sid, layer, k, v).0 by {
      AppendIs(m, sid, layer, k, v);
    }
    if m.live.kv == [] {
      NoShape(m, sid, layer, k, v);
    } else {
      TargetWf(m.live, sid);
      AppendToTarget(m, sid, layer, k, v);
      if Refusal(Target(m.live, sid), layer, k, v).None? {
        RowLands(Target(m.live, sid), layer, k, v);
      }
    }
  }

  lemma AppendIs(m: Machine, sid: Sid, layer: nat, k: Row, v: Row)
    ensures Step(m, KvAppend(sid, layer, k, v)) == AppendKv(m, sid, layer, k, v).0
  {
    hide AppendKv;
  }

  lemma NoShape(m: Machine, sid: Sid, layer: nat, k: Row, v: Row)
    requires m.live.kv == []
    ensures AppendKv(m, sid, layer, k, v) == (m, Err(Kv(if sid == Sid(0) then NoLayer else NoStream)))
  {
  }

  lemma AppendToTarget(m: Machine, sid: Sid, layer: nat, k: Row, v: Row)
    requires m.live.kv != []
    ensures var (r, answer) := AppendKv(m, sid, layer, k, v);
            var was := Target(m.live, sid);
            && OnlyStreams(m, r) && sid in Streams(r.live)
            && Streams(r.live) == Streams(m.live)[sid := Streams(r.live)[sid]]
            && match Refusal(was, layer, k, v)
               case Some(e) => answer == Err(Kv(e)) && Streams(r.live)[sid] == was
               case None =>
                 && answer == Ok(()) && AppendTo(was, layer, k, v).Ok?
                 && Streams(r.live)[sid] == AppendTo(was, layer, k, v).value
  {
    hide Materialise, WithStream, Target, Streams, PushRow;
    var was := Target(m.live, sid);
    TargetIsStream(m.live, sid);
    var i := Materialise(m.live, sid).value;
    if Refusal(was, layer, k, v).None? {
      WithStreamIs(i, sid, AppendTo(was, layer, k, v).value);
    }
  }

  lemma WithStreamIs(i: Image, sid: Sid, store: Store)
    ensures var r := WithStream(i, sid, store);
            && sid in Streams(r) && Streams(r) == Streams(i)[sid := store]
            && r == i.(kv := r.kv, extra := r.extra)
  {
  }

  lemma TargetWf(i: Image, sid: Sid)
    requires StreamsWf(i.kv, i.extra) && i.kv != []
    ensures StoreWf(Target(i, sid))
  {
  }

  lemma TargetIsStream(i: Image, sid: Sid)
    requires i.kv != []
    ensures Materialise(i, sid).Ok? && StreamOf(Materialise(i, sid).value, sid) == Some(Target(i, sid))
    ensures var r := Materialise(i, sid).value; sid in Streams(r) && Streams(r) == Streams(i)[sid := Target(i, sid)]
    ensures var r := Materialise(i, sid).value; r == i.(kv := r.kv, extra := r.extra)
  {
    var made := FreshStore(|i.kv|, i.kv[0].hidden);
    assert sid !in Streams(i) ==> made == Target(i, sid);
  }

  lemma RowLands(was: Store, layer: nat, k: Row, v: Row)
    requires StoreWf(was) && Refusal(was, layer, k, v).None?
    ensures AppendTo(was, layer, k, v).Ok? && RowAdded(was, AppendTo(was, layer, k, v).value, layer, k, v)
  {
    StoreStaysWf(was);
    PushRowKeeps(was[layer], k, v);
  }

  /** The first row of a new stream is taken. */
  lemma FirstAppend(m: Machine, sid: Sid, layer: nat, k: Row, v: Row)
    requires StreamsWf(m.live.kv, m.live.extra) && sid !in Streams(m.live)
    ensures AppendKv(m, sid, layer, k, v).1.Ok? <==> layer < |m.live.kv| && |k| == |v| == m.live.kv[0].hidden
  {
    hide Step, AppendKv, StreamsWf, RowAdded, StoreWf;
    AppendAdds(m, sid, layer, k, v);
  }

  // ---------------------------------------------------------------------
  // Cutting streams
  // ---------------------------------------------------------------------

  /** The first `len` rows of K and of V, or all when there are fewer; none at width 0. */
  ghost predicate LayerTruncated(was: KvLayer, now: KvLayer, len: nat)
    requires was.Wf()
  {
    && now.Wf() && now.hidden == was.hidden
    && var keep := if was.hidden == 0 then 0 else if len <= was.seqLen then len else was.seqLen;
       KRows(now) == KRows(was)[..keep] && VRows(now) == VRows(was)[..keep]
  }

  /** Truncating keeps the first `len` rows of every layer of the stream; a stream that is not there stays away. */
  lemma TruncateCuts(m: Machine, sid: Sid, len: nat)
    requires StreamsWf(m.live.kv, m.live.extra)
    ensures var r := Step(m, KvTruncate(sid, len));
            if sid !in Streams(m.live) then r == m
            else
              var was := Streams(m.live)[sid];
              && OnlyStreams(m, r) && sid in Streams(r.live) && StoreWf(was)
              && Streams(r.live) == Streams(m.live)[sid := Streams(r.live)[sid]] && |Streams(r.live)[sid]| == |was|
              && forall i :: 0 <= i < |was| ==> LayerTruncated(was[i], Streams(r.live)[sid][i], len)
  {
    hide TruncateLayer, WithStream, LayerTruncated;
    if sid in Streams(m.live) {
      var was := Streams(m.live)[sid];
      assert StreamOf(m.live, sid) == Some(was);
      WithStreamIs(m.live, sid, TruncateAll(was, len));
      forall i | 0 <= i < |was| ensures LayerTruncated(was[i], TruncateLayer(was[i], len), len) {
        TruncatedLayer(was[i], len);
      }
    }
  }

  lemma TruncatedLayer(l: KvLayer, len: nat)
    requires l.Wf()
    ensures LayerTruncated(l, TruncateLayer(l, len), len)
  {
    TruncateKeeps(l, len);
  }

  /** The first `sink` and the last `window` rows, or all when there are no more. */
  ghost predicate SinksAndWindow(was: seq<Row>, now: seq<Row>, sink: nat, window: nat) {
    if |was| <= sink + window then now == was
    else |now| == sink + window && now[..sink] == was[..sink] && now[sink..] == was[|was| - window..]
  }

  ghost predicate LayerCompressed(was: KvLayer, now: KvLayer, sink: nat, window: nat)
    requires was.Wf()
  {
    && now.Wf() && now.hidden == was.hidden
    && SinksAndWindow(KRows(was), KRows(now), sink, window) && SinksAndWindow(VRows(was), VRows(now), sink, window)
  }

  /** Compressing keeps the sinks and the window of every layer of the stream. */
  lemma CompressCuts(m: Machine, sid: Sid, sink: nat, window: nat)
    requires StreamsWf(m.live.kv, m.live.extra)
    ensures var r := Step(m, KvCompress(sid, sink, window));
            if sid !in Streams(m.live) then r == m
            else
              var was := Streams(m.live)[sid];
              && OnlyStreams(m, r) && sid in Streams(r.live) && StoreWf(was)
              && Streams(r.live) == Streams(m.live)[sid := Streams(r.live)[sid]] && |Streams(r.live)[sid]| == |was|
              && forall i :: 0 <= i < |was| ==> LayerCompressed(was[i], Streams(r.live)[sid][i], sink, window)
  {
    hide CompressLayer, WithStream, LayerCompressed;
    if sid in Streams(m.live) {
      var was := Streams(m.live)[sid];
      assert StreamOf(m.live, sid) == Some(was);
      WithStreamIs(m.live, sid, CompressAll(was, sink, window));
      forall i | 0 <= i < |was| ensures LayerCompressed(was[i], CompressLayer(was[i], sink, window), sink, window) {
        CompressedLayer(was[i], sink, window);
      }
    }
  }

  lemma CompressedLayer(l: KvLayer, sink: nat, window: nat)
    requires l.Wf()
    ensures LayerCompressed(l, CompressLayer(l, sink, window), sink, window)
  {
    hide CompressLayer;
    CompressKeeps(l, sink, window);
    KeptIs(KRows(l), sink, window);
    KeptIs(VRows(l), sink, window);
  }

  lemma KeptIs(rows: seq<Row>, sink: nat, window: nat)
    ensures SinksAndWindow(rows, Kept(rows, sink, window), sink, window)
  {
  }

  // ---------------------------------------------------------------------
  // The KV_CACHE region
  // ---------------------------------------------------------------------

  /** A K/V allocation lays zeros at the region's cursor, over whatever has that base; size 0 changes nothing. */
  lemma KvBlockAdds(m: Machine, size: nat)
    ensures var r, a := Step(m, AllocKv(size)), Addr(0x3000_0000_0000_0000_0000_0000_0000_0000 + m.kvNext);
            && r == m.(live := m.live.(kvHeap := r.live.kvHeap), kvNext := r.kvNext)
            && (size == 0 ==> r == m)
            && (size > 0 ==>
              && a in r.live.kvHeap && r.live.kvHeap == m.live.kvHeap[a := r.live.kvHeap[a]]
              && |r.live.kvHeap[a]| == r.kvNext - m.kvNext && r.kvNext % 64 == m.kvNext % 64
              && size <= r.kvNext - m.kvNext < size + 64
              && forall i :: 0 <= i < r.kvNext - m.kvNext ==> r.live.kvHeap[a][i] == 0)
  {
    assert size > 0 ==> size <= Align64(size) < size + 64 && Align64(size) % 64 == 0;
  }

  /** Block `b` has the data from offset `off` on, and is otherwise what it was, as is every other block. */
  ghost predicate Patched(was: Flat, now: Flat, b: Addr, off: nat, data: seq<Byte>) {
    && b in was && b in now && now == was[b := now[b]] && |now[b]| == |was[b]| && off + |data| <= |was[b]|
    && forall i :: 0 <= i < |was[b]| ==> now[b][i] == if off <= i < off + |data| then data[i - off] else was[b][i]
  }

  /**
    A K/V write goes to the block whose base is the address, if there is one, else to
    the block the search stopped at; a write that does not fit changes nothing.
  */
  lemma KvWriteLands(m: Machine, addr: Addr, data: seq<Byte>, hit: Option<Addr>)
    requires hit.Some? ==> Hits(m.live.kvHeap, hit.value, addr, |data|)
    ensures var r, heap := Step(m, WriteKv(addr, data, hit)), m.live.kvHeap;
            var answer := WriteKvHeap(m, addr, data, hit).1;
            && r == m.(live := m.live.(kvHeap := r.live.kvHeap))
            && (answer.Err? ==> r == m)
            && (if addr in heap then
                  && answer == (if |data| > |heap[addr]| then Err(Memory(TooLong)) else Ok(()))
                  && (answer.Ok? ==> Patched(heap, r.live.kvHeap, addr, 0, data))
                else
                  && answer == (if hit.None? then Err(Memory(Unmapped)) else Ok(()))
                  && (answer.Ok? ==>
                    Patched(heap, r.live.kvHeap, hit.value, (addr.at - hit.value.at) % TWO64, data)))
  {
  }

  // ---------------------------------------------------------------------
  // Snapshots and the window
  // ---------------------------------------------------------------------

  /**
    A snapshot stores the live state under the next id, and keeps of the others those
    that are fewer than `window` ids older; nothing else changes.
  */
  lemma SnapshotStores(h: History)
    requires Inv(h)
    ensures var m, r, id := h.m, Step(h.m, TakeSnapshot), Version(h.m.version + 1);
            && r == m.(version := m.version + 1, saved := r.saved)
            && id in r.saved && r.saved[id] == m.live
            && forall v: Version :: v != id ==>
                 && (v in r.saved <==> v in m.saved && (m.window != 0 ==> id.n - v.n < m.window))
                 && (v in r.saved ==> r.saved[v] == m.saved[v])
  {
    hide Evict, Interval, Inv;
    SnapshotSplit(h);
    var id := Version(h.m.version + 1);
    forall v: Version | v != id
      ensures v in Step(h.m, TakeSnapshot).saved <==> v in h.m.saved && (h.m.window != 0 ==> id.n - v.n < h.m.window)
    {
      if v.n <= h.m.version {
        RetainedSnapshot(h.m, h.taken, v);
      } else {
        TooNew(h, v);
      }
    }
  }

  lemma SnapshotSplit(h: History)
    requires Inv(h)
    ensures var m, r, id := h.m, Step(h.m, TakeSnapshot), Version(h.m.version + 1);
            && Versions(m, h.taken) && r == m.(version := m.version + 1, saved := r.saved)
            && id in r.saved && Agrees(r.saved, m.saved[id := m.live])
  {
    hide Evict;
    VersionsSnapshot(h.m, h.taken);
  }

  lemma TooNew(h: History, v: Version)
    requires Inv(h) && v.n > h.m.version + 1
    ensures v !in h.m.saved && v !in Step(h.m, TakeSnapshot).saved
  {
    hide Evict;
    VersionsSnapshot(h.m, h.taken);
  }

  /** Restoring brings back the image taken under that id, if it is retained, and changes nothing else. */
  lemma RestoreBrings(ops: seq<Op>, v: Version)
    ensures var h := Run(Begin(), ops);
            if v in h.m.saved then v in h.taken && Step(h.m, Restore(v)) == h.m.(live := h.taken[v])
            else Step(h.m, Restore(v)) == h.m
  {
    hide Inv, Run;
    InvRun(ops);
    var h := Run(Begin(), ops);
    RestoreIs(h.m, v);
    SavedIsTaken(h, v);
  }

  /** A new window drops the ids that are not among the newest `max`, at once; 0 keeps them all. */
  lemma WindowDrops(h: History, max: nat)
    requires Inv(h)
    ensures var m, r := h.m, Step(h.m, SetWindow(max));
            && r == m.(window := max, saved := r.saved)
            && forall v: Version ::
                 && (v in r.saved <==> v in m.saved && (max != 0 ==> m.version - v.n < max))
                 && (v in r.saved ==> r.saved[v] == m.saved[v])
  {
    hide Evict;
    var m := h.m.(window := max);
    EvictKeepsTop(m, h.m.version - |h.m.saved|);
  }
}
