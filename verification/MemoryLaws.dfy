/**
  What each operation of the memory leaves behind, said of the machine itself and of the
  bytes and rows it holds (src/memory.rs): where an allocation lands, that written bytes
  are the bytes read back after any run that spares them, what a removal, an
  initialisation, an append or a restore does to everything else.
*/
module MemoryLaws {
  import opened Prelude
  import opened Arith
  import opened CowHeap
  import opened FlatHeap
  import opened KvCache
  import opened MemoryModel

  // ---------------------------------------------------------------------
  // GLOBAL allocations
  // ---------------------------------------------------------------------

  /** The block an allocation of `size` bytes adds: at the cursor, zeroed, in whole units of 64 bytes. */
  ghost predicate Added(m: Machine, r: Machine, size: nat) {
    && size > 0 && Addr(m.next) in r.live.heap
    && |r.live.heap[Addr(m.next)]| == r.next - m.next && r.next % 64 == m.next % 64
    && size <= r.next - m.next < size + 64
    && (forall i :: 0 <= i < r.next - m.next ==> r.live.heap[Addr(m.next)][i] == 0)
    && (forall b :: b in r.live.heap <==> b in m.live.heap || b == Addr(m.next))
    && (forall b :: b in m.live.heap && b != Addr(m.next) ==> r.live.heap[b] == m.live.heap[b])
  }

  lemma UnitsOf64(size: nat)
    requires size > 0
    ensures size <= Align64(size) < size + 64 && Align64(size) % 64 == 0
  {
  }

  /** A raw allocation adds its block and touches nothing else; size 0 is refused. */
  lemma AllocAdds(m: Machine, size: nat)
    ensures var r := Step(m, AllocRaw(size));
            && r == m.(live := m.live.(heap := r.live.heap), next := r.next)
            && (size == 0 ==> r == m && Alloc(m, size).1 == Err(Memory(ZeroSize)))
            && (size > 0 ==> Added(m, r, size) && Alloc(m, size).1 == Ok(Addr(m.next)))
  {
    if size > 0 {
      UnitsOf64(size);
    }
  }

  /** A tensor allocation adds a block and metadata that names it. */
  lemma TensorAdds(m: Machine, shape: seq<nat>, dtype: DType, byteLen: nat)
    ensures var r := Step(m, AllocBytes(shape, dtype, byteLen));
            && r == m.(live := m.live.(heap := r.live.heap, meta := r.live.meta), next := r.next)
            && (byteLen == 0 ==> r == m && AllocWithMeta(m, shape, dtype, byteLen).1 == Err(Memory(ZeroSize)))
            && (byteLen > 0 ==>
              && Added(m, r, byteLen) && AllocWithMeta(m, shape, dtype, byteLen).1 == Ok(Addr(m.next))
              && r.live.meta ==
                 m.live.meta[Addr(m.next) := TensorMeta(Addr(m.next), shape, dtype, byteLen, false, 1.0)])
  {
    if byteLen > 0 {
      UnitsOf64(byteLen);
    }
  }

  /** `alloc_tensor` asks for the product of the shape times the width of one element. */
  lemma DenseAdds(m: Machine, shape: seq<nat>, dtype: DType)
    ensures Step(m, AllocTensor(shape, dtype)) == Step(m, AllocBytes(shape, dtype, TensorBytes(shape, dtype)))
    ensures TensorBytes([], dtype) == dtype.ByteWidth()
    ensures forall n :: TensorBytes(shape + [n], dtype) == TensorBytes(shape, dtype) * n
    ensures dtype.ByteWidth() == if dtype == F32 then 4 else if dtype == F16 || dtype == BF16 then 2
                                 else if dtype == Q4_0 then 18 else if dtype == Q4_K then 0 else 1
  {
    hide AllocWithMeta;
    forall n ensures TensorBytes(shape + [n], dtype) == TensorBytes(shape, dtype) * n {
      assert (shape + [n])[..|shape|] == shape;
      MulSwap(Product(shape), n, dtype.ByteWidth());
    }
  }

  lemma MulSwap(a: nat, b: nat, c: nat)
    ensures a * b * c == a * c * b
  {
  }

  /** A sparse tensor also gets its contents stored; only matrices are taken. */
  lemma SparseAdds(m: Machine, shape: seq<nat>, dtype: DType, density: real, contents: Sparse)
    ensures var r := Step(m, AllocSparse(shape, dtype, density, contents));
            var answer := AllocSparseTensor(m, shape, dtype, density, contents).1;
            && r == m.(live := m.live.(heap := r.live.heap, meta := r.live.meta, sparse := r.live.sparse),
                  next := r.next)
            && (|shape| != 2 ==> r == m && answer == Err(NotMatrix))
            && (|shape| == 2 ==>
              && answer == Ok(Addr(m.next)) && Addr(m.next) in r.live.meta
              && r.live.sparse == m.live.sparse[Addr(m.next) := contents]
              && r.live.meta == m.live.meta[Addr(m.next) := r.live.meta[Addr(m.next)]]
              && var meta := r.live.meta[Addr(m.next)];
                 && meta.addr == Addr(m.next) && meta.shape == shape && meta.dtype == dtype && meta.isSparse
                 && meta.density == (if density < 0.01 then 0.01 else if density > 1.0 then 1.0 else density)
                 && Added(m, r, if meta.byteLen < 64 then 64 else meta.byteLen))
  {
    if |shape| == 2 {
      var byteLen := SparseBytes(shape, dtype, Clamp(density, 0.01, 1.0));
      UnitsOf64(if byteLen < 64 then 64 else byteLen);
    }
  }

  /** Values, row offsets and column indices of a matrix that holds `nnz` values. */
  lemma SparseSize(rows: nat, cols: nat, dtype: DType, density: real) returns (nnz: nat)
    requires density >= 0.0
    ensures nnz as real <= Times((rows * cols) as real, density) < nnz as real + 1.0
    ensures SparseBytes([rows, cols], dtype, density) == nnz * dtype.ByteWidth() + (rows + 1) * 4 + nnz * 4
  {
    nnz := NnzEstimate(rows * cols, density);
  }

  /** Replacing the contents of a sparse tensor changes that entry alone, and only where there is one. */
  lemma SparseReplaces(m: Machine, addr: Addr, contents: Sparse)
    ensures var r := Step(m, MutateSparse(addr, contents));
            if addr in m.live.sparse then r == m.(live := m.live.(sparse := m.live.sparse[addr := contents]))
            else r == m
  {
  }

  /** Without `addr`, and otherwise the same. */
  ghost predicate OnlyGone<V(!new)>(was: map<Addr, V>, now: map<Addr, V>, addr: Addr) {
    addr !in now && forall b :: b != addr ==> SameEntry(was, now, b)
  }

  ghost predicate SameEntry<V(!new)>(was: map<Addr, V>, now: map<Addr, V>, b: Addr) {
    (b in now <==> b in was) && (b in was ==> now[b] == was[b])
  }

  /** A removed tensor is gone from all three stores; nothing else is. */
  lemma RemoveRemoves(m: Machine, addr: Addr)
    ensures var r := Step(m, RemoveTensor(addr));
            && OnlyGone(m.live.heap, r.live.heap, addr)
            && OnlyGone(m.live.meta, r.live.meta, addr)
            && OnlyGone(m.live.sparse, r.live.sparse, addr)
            && r == m.(live := m.live.(heap := r.live.heap, meta := r.live.meta, sparse := r.live.sparse))
            && (Remove(m, addr).1 <==> addr in m.live.heap || addr in m.live.meta || addr in m.live.sparse)
  {
  }

  // ---------------------------------------------------------------------
  // GLOBAL writes
  // ---------------------------------------------------------------------

  /** Some block holds the whole range. */
  ghost predicate Mapped(heap: Flat, a: nat, len: nat) {
    exists b :: Covers(heap, b, a, len)
  }

  /** The address space with `data` at `a` on, and every other byte as it was. */
  ghost predicate Overwritten(was: Flat, now: Flat, a: nat, data: seq<Byte>) {
    forall x: nat :: ByteAt(now, x) == if a <= x < a + |data| then Some(data[x - a]) else ByteAt(was, x)
  }

  /**
    A write to a range that one block holds changes exactly those bytes of the address
    space, and no block, no size and no other part of the machine; any other write
    changes nothing and is refused.
  */
  lemma WriteLands(m: Machine, addr: Addr, data: seq<Byte>)
    requires Laid(m.live.heap, 0, m.next)
    ensures var r, a := Step(m, Write(addr, data)), Canon(0, addr);
            && (Mapped(m.live.heap, a, |data|) ==>
              && Overwritten(m.live.heap, r.live.heap, a, data)
              && r.live.heap.Keys == m.live.heap.Keys
              && (forall b :: b in m.live.heap ==> |r.live.heap[b]| == |m.live.heap[b]|)
              && r == m.(live := m.live.(heap := r.live.heap))
              && WriteGlobal(m, addr, data).1 == Ok(()))
            && (!Mapped(m.live.heap, a, |data|) ==>
              && r == m
              && WriteGlobal(m, addr, data).1 == Err(Memory(if addr in m.live.heap then TooLong else Unmapped)))
  {
    hide FlatWrite, Covers, Apart, Laid;
    var a := Canon(0, addr);
    if Mapped(m.live.heap, a, |data|) {
      LaidApart(m);
      WriteKeepsBlocks(m.live.heap, a, data);
      var now := FlatWrite(m.live.heap, a, data);
      forall x: nat
        ensures ByteAt(now, x) == if a <= x < a + |data| then Some(data[x - a]) else ByteAt(m.live.heap, x)
      {
        WriteChangesOnly(m.live.heap, a, data, x);
      }
    }
  }

  lemma LaidApart(m: Machine)
    requires Laid(m.live.heap, 0, m.next)
    ensures Apart(m.live.heap)
  {
  }

  /** Both heaps hold the same bytes over the range. */
  ghost predicate SameRange(r: Flat, s: Flat, a: nat, len: nat) {
    Mapped(r, a, len) && forall x: nat :: a <= x < a + len ==> ByteAt(r, x) == ByteAt(s, x)
  }

  /**
    The operation writes and removes nothing over the range, and what it restores
    holds the same bytes there.
  */
  ghost predicate Spares(m: Machine, op: Op, a: nat, len: nat) {
    match op
    case Write(addr, data) => Canon(0, addr) + |data| <= a || a + len <= Canon(0, addr)
    case RemoveTensor(addr) => !Covers(m.live.heap, addr, a, len)
    case Restore(v) => v in m.saved ==> SameRange(m.saved[v].heap, m.live.heap, a, len)
    case _ => true
  }

  ghost predicate SparesAll(h: History, ops: seq<Op>, a: nat, len: nat) {
    ops == [] || (SparesAll(h, ops[..|ops| - 1], a, len) && Spares(Run(h, ops[..|ops| - 1]).m, ops[|ops| - 1], a, len))
  }

  /** One block holds the whole range, and these are its bytes. */
  ghost predicate Keeps(heap: Flat, a: nat, data: seq<Byte>) {
    exists b :: Covers(heap, b, a, |data|) && heap[b][a - b.at..a - b.at + |data|] == data
  }

  lemma KeepsRead(m: Machine, a: nat, data: seq<Byte>)
    requires Laid(m.live.heap, 0, m.next) && Keeps(m.live.heap, a, data)
    ensures Mapped(m.live.heap, a, |data|) && HoldsAt(m.live.heap, a, data)
  {
    var b :| Covers(m.live.heap, b, a, |data|) && m.live.heap[b][a - b.at..a - b.at + |data|] == data;
    SliceHolds(m.live.heap, b, a, data);
  }

  lemma HeldKeeps(m: Machine, a: nat, data: seq<Byte>)
    requires Laid(m.live.heap, 0, m.next) && Mapped(m.live.heap, a, |data|) && HoldsAt(m.live.heap, a, data)
    ensures Keeps(m.live.heap, a, data)
  {
    var b :| Covers(m.live.heap, b, a, |data|);
    var part := m.live.heap[b][a - b.at..a - b.at + |data|];
    SliceHolds(m.live.heap, b, a, part);
    forall i | 0 <= i < |data| ensures part[i] == data[i] {
      assert ByteAt(m.live.heap, a + i) == Some(part[i]);
    }
    assert part == data;
  }

  /** Blocks that stay keep what they hold. */
  lemma KeepsIn(heap: Flat, after: Flat, a: nat, data: seq<Byte>, gone: Option<Addr>)
    requires Keeps(heap, a, data)
    requires forall b :: b in heap && gone != Some(b) ==> b in after && after[b] == heap[b]
    requires gone.Some? ==> !Covers(heap, gone.value, a, |data|)
    ensures Keeps(after, a, data)
  {
    var b :| Covers(heap, b, a, |data|) && heap[b][a - b.at..a - b.at + |data|] == data;
    assert Covers(after, b, a, |data|);
  }

  /** An operation that spares a range leaves its bytes. */
  lemma SparedStays(h: History, op: Op, a: nat, data: seq<Byte>)
    requires Inv(h) && Keeps(h.m.live.heap, a, data) && Spares(h.m, op, a, |data|)
    ensures Keeps(Advance(h, op).m.live.heap, a, data)
  {
    hide Inv, Keeps, Laid, Covers;
    HeapLaid(h);
    InvStep(h, op);
    HeapLaid(Advance(h, op));
    match op {
      case Write(addr, bytes) => SparedByWrite(h.m, addr, bytes, Advance(h, op).m, a, data);
      case RemoveTensor(addr) =>
        RemoveRemoves(h.m, addr);
        KeepsIn(h.m.live.heap, Advance(h, op).m.live.heap, a, data, Some(addr));
      case Restore(v) =>
        if v in h.m.saved {
          SparedByRestore(h, v, a, data);
        }
      case _ => SparedByOthers(h.m, op, a, data);
    }
  }

  lemma SparedByRestore(h: History, v: Version, a: nat, data: seq<Byte>)
    requires Inv(h) && v in h.m.saved && Keeps(h.m.live.heap, a, data)
    requires SameRange(h.m.saved[v].heap, h.m.live.heap, a, |data|)
    ensures Keeps(h.m.saved[v].heap, a, data)
  {
    hide Inv, Keeps, Laid, Covers, Sound;
    var r := h.m.(live := h.m.saved[v]);
    SavedLaid(h, v);
    HeapLaid(h);
    KeepsRead(h.m, a, data);
    forall i | 0 <= i < |data| ensures ByteAt(r.live.heap, a + i) == Some(data[i]) {
      assert ByteAt(h.m.live.heap, a + i) == Some(data[i]);
    }
    HeldKeeps(r, a, data);
  }

  lemma SavedLaid(h: History, v: Version)
    requires Inv(h) && v in h.m.saved
    ensures Laid(h.m.saved[v].heap, 0, h.m.next)
  {
    SavedSound(h, v);
    GrantedLaid(h.m.saved[v].heap, h.granted, h.m.next);
  }

  lemma SparedByWrite(m: Machine, addr: Addr, bytes: seq<Byte>, r: Machine, a: nat, data: seq<Byte>)
    requires Laid(m.live.heap, 0, m.next) && Laid(r.live.heap, 0, r.next) && r == Step(m, Write(addr, bytes))
    requires Keeps(m.live.heap, a, data) && Spares(m, Write(addr, bytes), a, |data|)
    ensures Keeps(r.live.heap, a, data)
  {
    hide Step, Laid;
    WriteLands(m, addr, bytes);
    if Mapped(m.live.heap, Canon(0, addr), |bytes|) {
      KeepsRead(m, a, data);
      var b :| Covers(m.live.heap, b, a, |data|);
      assert Covers(r.live.heap, b, a, |data|);
      forall i | 0 <= i < |data| ensures ByteAt(r.live.heap, a + i) == Some(data[i]) {
        assert ByteAt(m.live.heap, a + i) == Some(data[i]);
      }
      HeldKeeps(r, a, data);
    }
  }

  lemma SparedByOthers(m: Machine, op: Op, a: nat, data: seq<Byte>)
    requires Laid(m.live.heap, 0, m.next) && Keeps(m.live.heap, a, data) && Spares(m, op, a, |data|)
    requires !op.Write? && !op.RemoveTensor? && !op.Restore?
    ensures Keeps(Step(m, op).live.heap, a, data)
    decreases if op.AllocTensor? then 1 else 0
  {
    hide Step, Keeps, Laid, Apart, Added;
    match op {
      case AllocRaw(size) => AllocAdds(m, size); GrownKeeps(m, Step(m, op), size, a, data);
      case AllocBytes(shape, dtype, n) => TensorAdds(m, shape, dtype, n); GrownKeeps(m, Step(m, op), n, a, data);
      case AllocTensor(shape, dtype) =>
        DenseAdds(m, shape, dtype);
        SparedByOthers(m, AllocBytes(shape, dtype, TensorBytes(shape, dtype)), a, data);
      case AllocSparse(shape, dtype, density, contents) =>
        SparseAdds(m, shape, dtype, density, contents);
        if |shape| == 2 {
          var n := Step(m, op).live.meta[Addr(m.next)].byteLen;
          GrownKeeps(m, Step(m, op), if n < 64 then 64 else n, a, data);
        }
      case _ => HeapStays(m, op);
    }
  }

  /** An allocation leaves every byte that was mapped. */
  lemma GrownKeeps(m: Machine, r: Machine, size: nat, a: nat, data: seq<Byte>)
    requires Laid(m.live.heap, 0, m.next) && Keeps(m.live.heap, a, data)
    requires Added(m, r, size) || r == m
    ensures Keeps(r.live.heap, a, data)
  {
    hide Keeps, Apart;
    assert Addr(m.next) !in m.live.heap;
    KeepsIn(m.live.heap, r.live.heap, a, data, None);
  }

  lemma HeapStays(m: Machine, op: Op)
    requires op.MutateSparse? || op.AllocKv? || op.WriteKv? || op.KvInit? || op.KvAppend? || op.KvTruncate? ||
             op.KvClear? || op.KvCompress? || op.TakeSnapshot? || op.SetWindow?
    ensures Step(m, op).live.heap == m.live.heap
  {
    if op.KvAppend? || op.KvTruncate? || op.KvCompress? {
      StreamsAreIndependent(m, op, op.sid, Sid(op.sid.n + 1));
      hide *;
    } else {
      hide Evict, FreshStore, ClearAll, StoreWf, Zeros, Patch, Hits, AppendKv, TruncateKv, CompressKv;
    }
  }

  lemma {:induction false} SparedRun(h: History, ops: seq<Op>, a: nat, data: seq<Byte>)
    requires Inv(h) && Keeps(h.m.live.heap, a, data) && SparesAll(h, ops, a, |data|)
    ensures Keeps(Run(h, ops).m.live.heap, a, data)
    decreases |ops|
  {
    hide Inv, Keeps, Spares, Advance;
    if ops != [] {
      var n := |ops| - 1;
      SparedRun(h, ops[..n], a, data);
      InvRunFrom(h, ops[..n]);
      SparedStays(Run(h, ops[..n]), ops[n], a, data);
    }
  }

  /**
    Written bytes are read back: after a write that one block takes, and any operations
    that leave its range alone, reading the same address and
    length can only answer the data written.
  */
  lemma WriteThenRead(h: History, addr: Addr, data: seq<Byte>, ops: seq<Op>, r: Result<seq<Byte>, MemError>)
    requires Inv(h) && Mapped(h.m.live.heap, Canon(0, addr), |data|)
    requires SparesAll(Advance(h, Write(addr, data)), ops, Canon(0, addr), |data|)
    requires var after := Run(Advance(h, Write(addr, data)), ops).m;
             after.next < TWO64 && Reads(after.live.heap, addr, |data|, r)
    ensures r == Ok(data)
  {
    hide Inv, Step, Reads, Laid, Covers, SparesAll, Spares, Run;
    var a, h1 := Canon(0, addr), Advance(h, Write(addr, data));
    HeapLaid(h);
    InvStep(h, Write(addr, data));
    HeapLaid(h1);
    WriteLands(h.m, addr, data);
    WrittenKeeps(h.m, h1.m, a, data);
    SparedRun(h1, ops, a, data);
    InvRunFrom(h1, ops);
    var h2 := Run(h1, ops);
    HeapLaid(h2);
    KeepsRead(h2.m, a, data);
    ReadIsFlat(h2.m.live.heap, 0, h2.m.next, addr, |data|, r);
    SameBytes(h2.m.live.heap, a, data, r.value);
  }

  lemma WrittenKeeps(m: Machine, r: Machine, a: nat, data: seq<Byte>)
    requires Laid(r.live.heap, 0, r.next) && Mapped(m.live.heap, a, |data|)
    requires Overwritten(m.live.heap, r.live.heap, a, data)
    requires r.live.heap.Keys == m.live.heap.Keys
    requires forall b :: b in m.live.heap ==> |r.live.heap[b]| == |m.live.heap[b]|
    ensures Keeps(r.live.heap, a, data)
  {
    hide Laid;
    var b :| Covers(m.live.heap, b, a, |data|);
    assert Covers(r.live.heap, b, a, |data|);
    HeldKeeps(r, a, data);
  }

  lemma SameBytes(heap: Flat, a: nat, x: seq<Byte>, y: seq<Byte>)
    requires HoldsAt(heap, a, x) && HoldsAt(heap, a, y) && |x| == |y|
    ensures x == y
  {
    forall i | 0 <= i < |x| ensures x[i] == y[i] {
      assert ByteAt(heap, a + i) == Some(x[i]) && ByteAt(heap, a + i) == Some(y[i]);
    }
  }
}
