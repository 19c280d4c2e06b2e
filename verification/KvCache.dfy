/**
  One layer of the K/V cache and the StreamingLLM discipline on a stream of layers
  (src/memory.rs, `KvCacheLayer` and `kv_cache_*_stream`).
*/
module KvCache {
  import opened Prelude
  import opened Arith

  type Row = seq<real>

  /** K and V of one layer, flat; `seqLen` rows of `hidden` numbers each. */
  datatype KvLayer = KvLayer(k: seq<real>, v: seq<real>, hidden: nat, seqLen: nat) {
    predicate Wf() {
      |k| == seqLen * hidden && |v| == seqLen * hidden
    }
  }

  const MAX_SEQ: nat := 2048

  function NewLayer(hidden: nat): KvLayer {
    KvLayer([], [], hidden, 0)
  }

  function ClearLayer(l: KvLayer): KvLayer {
    l.(k := [], v := [], seqLen := 0)
  }

  function PushRow(l: KvLayer, k: Row, v: Row): KvLayer {
    l.(k := l.k + k, v := l.v + v, seqLen := l.seqLen + 1)
  }

  /** `Vec::truncate`. */
  function Take(s: seq<real>, n: nat): seq<real> {
    if n <= |s| then s[..n] else s
  }

  function TruncateLayer(l: KvLayer, n: nat): KvLayer {
    var k := Take(l.k, n * l.hidden);
    l.(k := k, v := Take(l.v, n * l.hidden), seqLen := if l.hidden > 0 then |k| / l.hidden else 0)
  }

  /** Keeps the first `sink` and the last `window` rows. */
  function CompressLayer(l: KvLayer, sink: nat, window: nat): (r: KvLayer)
    requires l.Wf()
  {
    if l.seqLen <= sink + window then l
    else
      MulMono(sink, l.seqLen, l.hidden);
      MulMono(l.seqLen - window, l.seqLen, l.hidden);
      var head, tail := sink * l.hidden, (l.seqLen - window) * l.hidden;
      l.(k := l.k[..head] + l.k[tail..], v := l.v[..head] + l.v[tail..], seqLen := sink + window)
  }

  // ---------------------------------------------------------------------
  // Rows
  // ---------------------------------------------------------------------

  /** Row `i` of a flat buffer. */
  function RowAt(s: seq<real>, h: nat, i: nat): Row
    requires (i + 1) * h <= |s|
  {
    s[i * h..(i + 1) * h]
  }

  /** A flat buffer cut into `n` rows. */
  ghost function Rows(s: seq<real>, h: nat, n: nat): (r: seq<Row>)
    requires |s| == n * h
    ensures |r| == n
  {
    seq(n, i requires 0 <= i < n => MulMono(i + 1, n, h); RowAt(s, h, i))
  }

  ghost function KRows(l: KvLayer): seq<Row>
    requires l.Wf()
  {
    Rows(l.k, l.hidden, l.seqLen)
  }

  ghost function VRows(l: KvLayer): seq<Row>
    requires l.Wf()
  {
    Rows(l.v, l.hidden, l.seqLen)
  }

  lemma RowsAppend(s: seq<real>, h: nat, n: nat, row: Row)
    requires |s| == n * h && |row| == h
    ensures |s + row| == (n + 1) * h
    ensures Rows(s + row, h, n + 1) == Rows(s, h, n) + [row]
  {
    var t := s + row;
    forall i | 0 <= i < n + 1 ensures Rows(t, h, n + 1)[i] == (Rows(s, h, n) + [row])[i] {
      if i < n {
        MulMono(i + 1, n, h);
        assert t[i * h..(i + 1) * h] == s[i * h..(i + 1) * h];
      } else {
        assert t[n * h..(n + 1) * h] == row;
      }
    }
  }

  /** Cutting whole rows out of a flat buffer removes exactly those rows. */
  lemma RowsCut(s: seq<real>, h: nat, n: nat, a: nat, b: nat)
    requires |s| == n * h && a <= b <= n
    ensures a * h <= b * h <= |s|
    ensures |s[..a * h] + s[b * h..]| == (a + n - b) * h
    ensures Rows(s[..a * h] + s[b * h..], h, a + n - b) == Rows(s, h, n)[..a] + Rows(s, h, n)[b..]
  {
    CutLength(h, n, a, b);
    var t, m := s[..a * h] + s[b * h..], a + n - b;
    var all := Rows(s, h, n);
    forall i | 0 <= i < m ensures Rows(t, h, m)[i] == (all[..a] + all[b..])[i] {
      RowOfCut(s, t, h, n, a, b, i);
    }
  }

  lemma CutLength(h: nat, n: nat, a: nat, b: nat)
    requires a <= b <= n
    ensures a * h <= b * h <= n * h && a * h + (n * h - b * h) == (a + n - b) * h
  {
    MulMono(a, b, h);
    MulMono(b, n, h);
    MulAdd(a + n, b, h);
    MulAdd(a, n, h);
  }

  /** Where row `i` of the cut buffer came from. */
  lemma RowOfCut(s: seq<real>, t: seq<real>, h: nat, n: nat, a: nat, b: nat, i: nat)
    requires |s| == n * h && a <= b <= n && i < a + n - b && a * h <= b * h <= |s|
    requires t == s[..a * h] + s[b * h..] && |t| == (a + n - b) * h
    ensures Rows(t, h, a + n - b)[i] == Rows(s, h, n)[if i < a then i else i - a + b]
  {
    RowEnds(h, i, a + n - b);
    if i < a {
      RowEnds(h, i, a);
      CutSlice(s, a * h, b * h, i * h, (i + 1) * h);
    } else {
      MulMono(a, i, h);
      RowShift(h, a, b, i);
      RowEnds(h, i - a + b, n);
      CutSlice(s, a * h, b * h, i * h, (i + 1) * h);
    }
  }

  lemma RowEnds(h: nat, i: nat, n: nat)
    requires i < n
    ensures i * h <= (i + 1) * h <= n * h
  {
    MulMono(i, i + 1, h);
    MulMono(i + 1, n, h);
  }

  lemma RowShift(h: nat, a: nat, b: nat, i: nat)
    ensures i * h - a * h + b * h == (i - a + b) * h && (i + 1) * h - a * h + b * h == (i - a + b + 1) * h
  {
    MulAdd(i, b - a, h);
    MulAdd(i + 1, b - a, h);
    MulAdd(b, a, h);
  }

  lemma PushRowKeeps(l: KvLayer, k: Row, v: Row)
    requires l.Wf() && |k| == l.hidden && |v| == l.hidden
    ensures PushRow(l, k, v).Wf()
    ensures KRows(PushRow(l, k, v)) == KRows(l) + [k] && VRows(PushRow(l, k, v)) == VRows(l) + [v]
  {
    RowsAppend(l.k, l.hidden, l.seqLen, k);
    RowsAppend(l.v, l.hidden, l.seqLen, v);
  }

  /** Truncation keeps a prefix of the rows, and keeps the rows asked for unless `hidden` is 0, when it keeps none. */
  lemma TruncateKeeps(l: KvLayer, n: nat)
    requires l.Wf()
    ensures TruncateLayer(l, n).Wf()
    ensures var m := if l.hidden == 0 then 0 else if n <= l.seqLen then n else l.seqLen;
            KRows(TruncateLayer(l, n)) == KRows(l)[..m] && VRows(TruncateLayer(l, n)) == VRows(l)[..m]
  {
    var h, s := l.hidden, l.seqLen;
    if h > 0 {
      var m := if n <= s then n else s;
      MulMono(m, s, h);
      MulMono(m, n, h);
      if n > s {
        MulMono(s + 1, n, h);
      }
      assert Take(l.k, n * h) == l.k[..m * h] && Take(l.v, n * h) == l.v[..m * h];
      DivModUnique(m * h, h, m, 0);
      RowsCut(l.k, h, s, m, s);
      RowsCut(l.v, h, s, m, s);
      assert l.k[..m * h] + l.k[s * h..] == l.k[..m * h] && l.v[..m * h] + l.v[s * h..] == l.v[..m * h];
    }
  }

  /** The rows the compression is meant to leave: all of them while they fit, then the sinks and the window. */
  ghost function Kept<T>(rows: seq<T>, sink: nat, window: nat): (r: seq<T>)
    ensures |r| <= |rows| && |r| <= sink + window
  {
    if |rows| <= sink + window then rows else rows[..sink] + rows[|rows| - window..]
  }

  lemma CompressKeeps(l: KvLayer, sink: nat, window: nat)
    requires l.Wf()
    ensures var r := CompressLayer(l, sink, window);
            && r.Wf() && r.hidden == l.hidden
            && KRows(r) == Kept(KRows(l), sink, window) && VRows(r) == Kept(VRows(l), sink, window)
  {
    if l.seqLen > sink + window {
      RowsCut(l.k, l.hidden, l.seqLen, sink, l.seqLen - window);
      RowsCut(l.v, l.hidden, l.seqLen, sink, l.seqLen - window);
    }
  }

  /** Compressing as rows arrive loses nothing that compressing at the end would keep. */
  lemma KeptStep<T>(rows: seq<T>, more: seq<T>, sink: nat, window: nat)
    ensures Kept(Kept(rows, sink, window) + more, sink, window) == Kept(rows + more, sink, window)
  {
    if |rows| > sink + window && more != [] {
      var a, b := rows[..sink], rows[|rows| - window..];
      hide Kept;
      KeptLong(rows, sink, window);
      KeptLong(rows + more, sink, window);
      KeptLong(a + b + more, sink, window);
      assert a + b + more == a + (b + more);
      KeptFront(rows, b + more, more, sink);
      KeptBack(rows, more, a, window);
    } else {
      assert rows + [] == rows && Kept(rows, sink, window) + [] == Kept(rows, sink, window);
    }
  }

  lemma KeptLong<T>(rows: seq<T>, sink: nat, window: nat)
    requires |rows| > sink + window
    ensures Kept(rows, sink, window) == rows[..sink] + rows[|rows| - window..]
  {
  }

  lemma KeptFront<T>(rows: seq<T>, tail: seq<T>, more: seq<T>, sink: nat)
    requires sink <= |rows|
    ensures (rows[..sink] + tail)[..sink] == rows[..sink] == (rows + more)[..sink]
  {
  }

  lemma KeptBack<T>(rows: seq<T>, more: seq<T>, front: seq<T>, window: nat)
    requires window <= |rows|
    ensures var kept := front + rows[|rows| - window..] + more;
            kept[|kept| - window..] == (rows + more)[|rows + more| - window..]
  {
    var kept, all := front + rows[|rows| - window..] + more, rows + more;
    var l, r := kept[|kept| - window..], all[|all| - window..];
    forall i | 0 <= i < window ensures l[i] == r[i] {
      assert kept[|kept| - window + i] == all[|all| - window + i];
    }
  }

  // ---------------------------------------------------------------------
  // A stream: one layer per model layer
  // ---------------------------------------------------------------------

  type Store = seq<KvLayer>

  datatype KvError = NoStream | NoLayer | BadWidth | Full

  ghost predicate StoreWf(store: Store) {
    forall i :: 0 <= i < |store| ==> store[i].Wf()
  }

  function AppendTo(store: Store, layer: nat, k: Row, v: Row): Result<Store, KvError> {
    if layer >= |store| then Err(NoLayer)
    else if |k| != store[layer].hidden || |v| != store[layer].hidden then Err(BadWidth)
    else if store[layer].seqLen >= MAX_SEQ then Err(Full)
    else Ok(store[layer := PushRow(store[layer], k, v)])
  }

  ghost function CompressAll(store: Store, sink: nat, window: nat): (r: Store)
    requires StoreWf(store)
  {
    seq(|store|, i requires 0 <= i < |store| => CompressLayer(store[i], sink, window))
  }

  ghost function TruncateAll(store: Store, n: nat): Store {
    seq(|store|, i requires 0 <= i < |store| => TruncateLayer(store[i], n))
  }

  ghost function ClearAll(store: Store): Store {
    seq(|store|, i requires 0 <= i < |store| => ClearLayer(store[i]))
  }

  lemma StoreStaysWf(store: Store)
    requires StoreWf(store)
    ensures forall sink, window :: StoreWf(CompressAll(store, sink, window))
    ensures forall n :: StoreWf(TruncateAll(store, n))
    ensures StoreWf(ClearAll(store))
    ensures forall layer, k, v :: AppendTo(store, layer, k, v).Ok? ==> StoreWf(AppendTo(store, layer, k, v).value)
  {
    forall i, sink: nat, window: nat | 0 <= i < |store| ensures CompressLayer(store[i], sink, window).Wf() {
      CompressKeeps(store[i], sink, window);
    }
    forall i, n: nat | 0 <= i < |store| ensures TruncateLayer(store[i], n).Wf() {
      TruncateKeeps(store[i], n);
    }
    forall layer: nat, k, v | AppendTo(store, layer, k, v).Ok? ensures StoreWf(AppendTo(store, layer, k, v).value) {
      PushRowKeeps(store[layer], k, v);
    }
  }

  /** One decoding step's contribution to one layer. */
  datatype Feed = Feed(layer: nat, k: Row, v: Row)

  /** Appends every row in turn, compressing the whole stream after each. */
  ghost function Stream(store: Store, feeds: seq<Feed>, sink: nat, window: nat): (r: Result<Store, KvError>)
    requires StoreWf(store)
    ensures r.Ok? ==> StoreWf(r.value) && |r.value| == |store|
  {
    if feeds == [] then Ok(store)
    else
      var f := feeds[|feeds| - 1];
      match Stream(store, feeds[..|feeds| - 1], sink, window)
      case Err(e) => Err(e)
      case Ok(s) =>
        StoreStaysWf(s);
        match AppendTo(s, f.layer, f.k, f.v)
        case Err(e) => Err(e)
        case Ok(t) => StoreStaysWf(t); Ok(CompressAll(t, sink, window))
  }

  /** The feeds that go to layer `i`, in order. */
  ghost function FedTo(feeds: seq<Feed>, i: nat): (r: seq<Feed>)
    ensures |r| <= |feeds|
  {
    if feeds == [] then []
    else
      var f, rest := feeds[|feeds| - 1], FedTo(feeds[..|feeds| - 1], i);
      if f.layer == i then rest + [f] else rest
  }

  ghost function Ks(feeds: seq<Feed>): (r: seq<Row>)
    ensures |r| == |feeds|
  {
    seq(|feeds|, i requires 0 <= i < |feeds| => feeds[i].k)
  }

  ghost function Vs(feeds: seq<Feed>): (r: seq<Row>)
    ensures |r| == |feeds|
  {
    seq(|feeds|, i requires 0 <= i < |feeds| => feeds[i].v)
  }

  lemma FedStep(feeds: seq<Feed>, f: Feed, i: nat)
    ensures Ks(FedTo(feeds + [f], i)) == Ks(FedTo(feeds, i)) + if f.layer == i then [f.k] else []
    ensures Vs(FedTo(feeds + [f], i)) == Vs(FedTo(feeds, i)) + if f.layer == i then [f.v] else []
  {
    assert (feeds + [f])[..|feeds|] == feeds;
  }

  lemma AppendOne(s: Store, f: Feed, i: nat)
    requires StoreWf(s) && i < |s| && AppendTo(s, f.layer, f.k, f.v).Ok?
    ensures var t := AppendTo(s, f.layer, f.k, f.v).value;
            && |t| == |s| && StoreWf(t) && t[i].hidden == s[i].hidden
            && KRows(t[i]) == KRows(s[i]) + (if f.layer == i then [f.k] else [])
            && VRows(t[i]) == VRows(s[i]) + (if f.layer == i then [f.v] else [])
  {
    StoreStaysWf(s);
    PushRowKeeps(s[f.layer], f.k, f.v);
    assert KRows(s[i]) + [] == KRows(s[i]) && VRows(s[i]) + [] == VRows(s[i]);
  }

  /** What one append and one compression do to the rows of a layer that already went through `fed`. */
  lemma KeptAfter(rows: seq<Row>, fed: seq<Row>, one: seq<Row>, sink: nat, window: nat, before: seq<Row>)
    requires before == Kept(rows + fed, sink, window) || (fed == [] && before == rows)
    ensures Kept(before + one, sink, window) == Kept(rows + (fed + one), sink, window)
  {
    assert rows + (fed + one) == rows + fed + one;
    assert fed == [] ==> rows + fed == rows;
    KeptStep(rows + fed, one, sink, window);
  }

  /**
    The StreamingLLM invariant: after any number of appends, each followed by a
    compression, every layer holds exactly the first `sink` and the last `window`
    of all the rows it ever had, K and V alike.
  */
  lemma {:induction false} StreamKeeps(store: Store, feeds: seq<Feed>, sink: nat, window: nat, i: nat)
    requires StoreWf(store) && i < |store| && feeds != []
    requires Stream(store, feeds, sink, window).Ok?
    ensures var s := Stream(store, feeds, sink, window).value;
            && |s| == |store| && s[i].Wf() && s[i].hidden == store[i].hidden
            && KRows(s[i]) == Kept(KRows(store[i]) + Ks(FedTo(feeds, i)), sink, window)
            && VRows(s[i]) == Kept(VRows(store[i]) + Vs(FedTo(feeds, i)), sink, window)
    decreases |feeds|
  {
    hide Kept, KvLayer.Wf, KRows, VRows, Ks, Vs, CompressLayer, AppendTo;
    var n := |feeds| - 1;
    var front, f := feeds[..n], feeds[n];
    assert feeds == front + [f];
    var s := Stream(store, front, sink, window).value;
    var ks, vs := if f.layer == i then [f.k] else [], if f.layer == i then [f.v] else [];
    if front == [] {
      Unfed(i);
    } else {
      StreamKeeps(store, front, sink, window, i);
    }
    AppendOne(s, f, i);
    FedStep(front, f, i);
    var t := AppendTo(s, f.layer, f.k, f.v).value;
    CompressKeeps(t[i], sink, window);
    KeptAfter(KRows(store[i]), Ks(FedTo(front, i)), ks, sink, window, KRows(s[i]));
    KeptAfter(VRows(store[i]), Vs(FedTo(front, i)), vs, sink, window, VRows(s[i]));
  }

  lemma Unfed(i: nat)
    ensures FedTo([], i) == [] && Ks([]) == [] && Vs([]) == []
  {
  }

  /** Feeds a caller may send: an existing layer, rows of its width. */
  ghost predicate Fits(store: Store, f: Feed) {
    f.layer < |store| && |f.k| == store[f.layer].hidden && |f.v| == store[f.layer].hidden
  }

  /** No layer is sent more rows than the cache limit. */
  ghost predicate Within(store: Store, feeds: seq<Feed>) {
    forall i :: 0 <= i < |store| ==> |FedTo(feeds, i)| <= MAX_SEQ
  }

  lemma WithinStep(store: Store, front: seq<Feed>, f: Feed)
    requires f.layer < |store|
    ensures Within(store, front + [f]) <==> Within(store, front) && |FedTo(front, f.layer)| < MAX_SEQ
  {
    forall i | 0 <= i < |store|
      ensures |FedTo(front + [f], i)| == |FedTo(front, i)| + if f.layer == i then 1 else 0
    {
      FedStep(front, f, i);
    }
    if Within(store, front + [f]) {
      assert |FedTo(front + [f], f.layer)| <= MAX_SEQ;
      forall i | 0 <= i < |store| ensures |FedTo(front, i)| <= MAX_SEQ {
        assert |FedTo(front + [f], i)| <= MAX_SEQ;
      }
    }
  }

  /**
    On a cleared stream the appends never fail, for ever, exactly when sinks and
    window together stay below the cache limit, or no layer is sent more rows than it.
  */
  lemma {:induction false} StreamNeverFull(store: Store, feeds: seq<Feed>, sink: nat, window: nat)
    requires StoreWf(store) && forall i :: 0 <= i < |store| ==> store[i].seqLen == 0
    requires forall j :: 0 <= j < |feeds| ==> Fits(store, feeds[j])
    ensures Stream(store, feeds, sink, window).Ok? <==> sink + window < MAX_SEQ || Within(store, feeds)
    decreases |feeds|
  {
    if feeds != [] {
      var n := |feeds| - 1;
      var front, f := feeds[..n], feeds[n];
      assert feeds == front + [f] && Fits(store, f);
      StreamNeverFull(store, front, sink, window);
      WithinStep(store, front, f);
      if Stream(store, front, sink, window).Ok? {
        LengthBefore(store, front, sink, window, f.layer);
        assert Within(store, front) ==> |FedTo(front, f.layer)| <= MAX_SEQ;
      }
    }
  }

  lemma LengthBefore(store: Store, feeds: seq<Feed>, sink: nat, window: nat, i: nat)
    requires StoreWf(store) && i < |store| && store[i].seqLen == 0
    requires Stream(store, feeds, sink, window).Ok?
    ensures var s, n := Stream(store, feeds, sink, window).value, |FedTo(feeds, i)|;
            && |s| == |store| && s[i].hidden == store[i].hidden
            && s[i].seqLen == if n <= sink + window then n else sink + window
  {
    if feeds != [] {
      StreamKeeps(store, feeds, sink, window, i);
      var s := Stream(store, feeds, sink, window).value;
      assert s[i].seqLen == |KRows(s[i])|;
      assert KRows(store[i]) == [];
    }
  }

  // ---------------------------------------------------------------------
  // The loops over a stream's layers
  // ---------------------------------------------------------------------

  method TruncateLayers(layers: Store, n: nat) returns (store: Store)
    ensures store == TruncateAll(layers, n)
  {
    store := layers;
    for i := 0 to |layers|
      invariant |store| == |layers|
      invariant forall j :: 0 <= j < |store| ==> store[j] == if j < i then TruncateLayer(layers[j], n) else layers[j]
    {
      store := store[i := TruncateLayer(store[i], n)];
    }
  }

  method ClearLayers(layers: Store) returns (store: Store)
    ensures store == ClearAll(layers)
  {
    store := layers;
    for i := 0 to |layers|
      invariant |store| == |layers|
      invariant forall j :: 0 <= j < |store| ==> store[j] == if j < i then ClearLayer(layers[j]) else layers[j]
    {
      store := store[i := ClearLayer(store[i])];
    }
  }

  method CompressLayers(layers: Store, sink: nat, window: nat) returns (store: Store)
    requires StoreWf(layers)
    ensures store == CompressAll(layers, sink, window)
  {
    store := layers;
    for i := 0 to |layers|
      invariant |store| == |layers|
      invariant forall j :: 0 <= j < |store| ==>
          store[j] == if j < i then CompressLayer(layers[j], sink, window) else layers[j]
    {
      store := store[i := CompressLayer(store[i], sink, window)];
    }
  }
}
