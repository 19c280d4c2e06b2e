# Verified model of M³-AVM

M³-AVM is an emulator for a tensor virtual machine, written in Rust. This project models
the state machines and arithmetic kernels under its opcodes in Dafny 4.11 and proves what
they are for. `dafny verify dfyconfig.toml` checks all of it.

| file | what it models |
|---|---|
| `CowHeap.dfy`, `FlatHeap.dfy` | blocks shared by reference count between the live heap and its snapshots, `Arc::make_mut`, and the flat address space a reader sees |
| `KvCache.dfy` | K/V cache layers, truncation and sink-and-window compression |
| `MemoryModel.dfy`, `MemoryManager.dfy` | the whole memory as a state machine with runs, and the object that refines it |
| `MemoryLaws.dfy`, `StreamLaws.dfy` | what every operation of the memory leaves behind, in bytes, rows and ids; written bytes are read back |
| `TemporalRing.dfy` | the TEMPORAL ring as an unbounded log |
| `Scheduler.dfy`, `InteractiveLoop.dfy` | the strict-priority scheduler: safety over runs, bounded wait; the loop that drives it |
| `SchedulerLaws.dfy` | what every operation and every turn leaves behind, queue by queue; round robin, no context lost |
| `Quant.dfy`, `QuantEncode.dfy` | block codecs, whole-tensor decoding, rows of an embedding matrix, encoders and their error |
| `QuantLaws.dfy` | how the formats pack scales, minima and values, in whole numbers |
| `MatVec.dfy`, `Avx2.dfy`, `FusedMatVec.dfy` | fused decode-and-multiply kernels: serial, fold and reduce, vectorised |
| `Crc32.dfy`, `SplitMix.dfy` | the checksum and the generator |
| `Container.dfy`, `ContainerLaws.dfy` | the `.m3bc` container; which files load, in literal bytes |
| `Tokenizer.dfy`, `TokenizerLaws.dfy` | the tokenizer; separators, stand-ins and getting the text back |
| `ProductQuantizer.dfy`, `Ssm.dfy`, `Arena.dfy` | product quantiser, recurrent state, bump arena |
| `Prelude.dfy`, `Arith.dfy` | shared types and arithmetic |

The shape of the proofs is the same throughout. What the source updates in place is a
class or an array method here, proved to take the step of a specification on values; the
theorems about runs, round trips and refinements are lemmas about that specification and
carry over to the objects. The files named `...Laws.dfy` say what the specifications do
without repeating them: literal bytes, offsets and constants, queues and rows before and after.

Conventions. Bytes are 8-bit vectors; addresses, sizes and counters are unbounded numbers,
with every cut the code makes (`as usize`, `as u32`, `as u16`, wrapping arithmetic) written
out. Floats are reals: the code says that summation order is the only difference intended
between its kernels (src/matvec_quant.rs:21-30). How an f16 or f32 bit pattern reads, how a
scale is stored as f16, the exponential, random contents of sparse tensors, the number of
elements from which threads are used, whether the processor has AVX2 and how the thread
pool splits the work are parameters, so the results hold for all of them.

Where the code and its comments disagree, the model follows the code:

- src/matvec_quant.rs:21-23 and 218-220 describe weights at `i * out_dim + j` and a vector
  kernel chosen by `out_dim`; the code reads `i + j * in_dim` and tests `in_dim`.
- src/m3bc.rs:24-26 says that any REQUIRED bit is refused; the code accepts bits 50 and 51
  (src/m3bc.rs:45-48).
- src/m3bc.rs:266-283 says the entry must be a frame start; offsets are cut to 32 bits, so
  in a payload over 2^32 bytes others are accepted (`Container.EntryWraps`).
- src/quant.rs:203-205 and 237 promise an error of at most half the stored scale; this
  holds exactly for inputs the clamped range reaches (`QuantEncode.Q40Error`,
  `QuantEncode.Q80Error`). A stored scale that underflows to zero breaks it, with inputs of
  1e-9 for example (`QuantEncode.Q40Underflow`, `QuantEncode.Q80Underflow`), and so does one
  above the f16 range, which is stored as infinity and which a real scale cannot express.
- src/rag.rs:215-216 promises the nearest centroid; when every distance is `f32::MAX` or
  more, number 0 is given (`ProductQuantizer.EncodedIsOptimal`, `ProductQuantizer.FarMissed`).
- src/main.rs:495-499 sets a terminated context 1 back to Ready without queueing it; no run of
  the loop reaches that branch (`InteractiveLoop.RevivalNeverTaken`).

## Model

| member | source | states |
|---|---|---|
| CowHeap.SoleOwner | src/memory.rs:718-751 | A block whose count is one is held by one place only, so the in-place branch of `Arc::make_mut` cannot be seen through the live heap or any other snapshot. |
| CowHeap.Heap.Alloc | src/memory.rs:426-436 | An allocation adds one zeroed block, rounded up to 64 bytes, at the cursor, advances the cursor past it, refuses size 0, and leaves every snapshot as it was. |
| CowHeap.Heap.Read | src/memory.rs:628-654 | A read answers what some order of visiting the blocks would answer; the heap is not changed. |
| CowHeap.Heap.MakeMut | src/memory.rs:718-751 | Making a block private changes no byte anyone reads, live or in a snapshot. |
| CowHeap.Heap.Write | src/memory.rs:718-751 | With blocks really shared and counted, a write changes the live heap as a write to a deep copy would, and no snapshot. |
| CowHeap.Heap.Snapshot | src/memory.rs:1195-1212 | Cloning only the references saves the live heap as a deep copy would. |
| CowHeap.Heap.Evict | src/memory.rs:1228-1245 | Dropping a saved map drops that snapshot and frees blocks nobody else holds; nothing else is seen to change. |
| CowHeap.Heap.Restore | src/memory.rs:1271-1292 | The live heap becomes what the snapshot holds; the cursor and the other snapshots stay. |
| FlatHeap.ReadIsFlat | src/memory.rs:628-654 | A read at any interior address succeeds exactly when one block contains the whole range, and then returns the bytes of the flat address space; both error cases are told apart. |
| FlatHeap.ReadIsUnique | src/memory.rs:628-654 | The iteration order of the hash map cannot be seen in what a read answers. |
| FlatHeap.WriteIsFlat | src/memory.rs:718-751 | A write succeeds exactly when one block contains the range and then lays the data over the flat address space; a refused write changes nothing. |
| FlatHeap.WriteKeepsBlocks | src/memory.rs:718-751 | A write moves and resizes no block. |
| FlatHeap.WriteChangesOnly | src/memory.rs:718-751 | A write changes exactly the bytes it covers. |
| KvCache.TruncateKeeps | src/memory.rs:202-209 | Truncating a layer keeps the first rows of K and V alike, as many as asked for while there are that many; none if rows have no width. |
| KvCache.CompressKeeps | src/memory.rs:1060-1085 | Compression leaves the first `sink` and the last `window` rows, all of them while they fit, K and V in lockstep. |
| KvCache.KeptStep | src/memory.rs:1060-1085 | Compressing as rows arrive keeps what compressing once at the end would keep. |
| KvCache.StreamKeeps | src/memory.rs:991-1006 | After any number of appends, each followed by a compression, every layer holds exactly the first `sink` and the last `window` of all rows it was sent. |
| KvCache.StreamNeverFull | src/memory.rs:991-1006 | On a cleared stream the appends never fail exactly when `sink + window` is below the cache limit, or no layer is sent more rows than the limit. |
| KvCache.TruncateLayers | src/memory.rs:1023-1035 | The loop over the layers truncates every one of them. |
| KvCache.CompressLayers | src/memory.rs:1060-1085 | The loop over the layers compresses every one of them. |
| MemoryModel.InvRun | src/memory.rs:1226-1304 | In every run: retained ids are an interval ending at the version and within the window, every block is one that was granted, metadata names big enough blocks, streams are well formed. |
| MemoryModel.RestoreIsExact | src/memory.rs:1264-1304 | In every run, restoring succeeds exactly for the ids in that interval, brings back the whole image (heap, metadata, sparse, K/V streams, K/V heap) taken under that id, and leaves counter, snapshots and cursors alone; otherwise it changes nothing. |
| MemoryModel.Rollback | src/memory.rs:1264-1304 | Whatever runs after a snapshot, restoring its id brings back the state it was taken in. |
| MemoryModel.RetainedExactly | src/memory.rs:1226-1245 | While the window is left alone a snapshot can be restored exactly until `window` more have been taken, for ever if the window is 0. |
| MemoryModel.TakenStays | src/memory.rs:1264-1270 | Ids strictly increase and the image behind an issued id is never replaced. |
| MemoryModel.EvictKeepsTop | src/memory.rs:1226-1245 | Eviction drops the lowest ids and leaves the newest `window`. |
| MemoryModel.BlocksNeverOverlap | src/memory.rs:426-436 | In every run two GLOBAL blocks never overlap, live or in snapshots, because restoring leaves the cursor alone. |
| MemoryModel.MetaNamesBlocks | src/memory.rs:498-561 | In every run each metadata entry, live or saved, names a block of at least the size it claims. |
| MemoryModel.StreamsAreIndependent | src/memory.rs:951-1085 | Operations on one K/V stream leave every other stream and everything that is not a stream alone. |
| MemoryModel.StreamInMemory | src/memory.rs:986-1085 | Appending and compressing through the memory does to its stream what the run of layers above does. |
| MemoryLaws.AllocAdds | src/memory.rs:426-436 | An allocation adds one zeroed block of the size, rounded up to a multiple of 64, at the cursor, and no other part of the machine changes; size 0 is refused. |
| MemoryLaws.TensorAdds | src/memory.rs:498-511 | A tensor also gets one metadata entry, at the address of its block, with the shape, type and length asked for. |
| MemoryLaws.DenseAdds | src/memory.rs:512-531 | `alloc_tensor` asks for the product of the shape times the width of its type, each width given. |
| MemoryLaws.SparseAdds | src/memory.rs:533-561 | A sparse tensor gets block, contents and metadata under one address, with the density clamped to 0.01 and 1; anything but a matrix is refused. |
| MemoryLaws.SparseSize | src/memory.rs:533-561 | The length recorded for it is that of the values, the row offsets and the column indices. |
| MemoryLaws.SparseReplaces | src/memory.rs:572-574 | An update changes the contents of that entry alone. |
| MemoryLaws.RemoveRemoves | src/memory.rs:1250-1262 | A removed address is gone from blocks, metadata and sparse contents; every other entry of each stays. |
| MemoryLaws.WriteLands | src/memory.rs:718-751 | Said of the bytes of the address space: a write to a range that one block holds changes exactly those bytes to the data, and no block, no size and no other part of the machine; any other changes nothing. |
| MemoryLaws.SparedRun | src/memory.rs:718-751 | Bytes held by one block stay through any operations that neither write to them, nor remove their block, nor restore other bytes there. |
| MemoryLaws.WriteThenRead | src/memory.rs:628-751 | After a write, and any such operations, reading the same range answers the data written. |
| StreamLaws.ClearEmpties | src/memory.rs:1038-1050 | Clearing leaves every layer of every stream with its width and without a row. |
| StreamLaws.InitEmpties | src/memory.rs:930-941 | In every run, initialising leaves the layers asked for, all of the width asked for and empty; the other streams are emptied or left alone, and the K/V cursor kept or reset, according to the shape there was. |
| StreamLaws.WidthRun | src/memory.rs:930-941 | In every run all layers of stream 0 have one width, live and in every snapshot. |
| StreamLaws.AppendAdds | src/memory.rs:951-1006 | An append adds one row of K and one of V to one layer of one stream; each of the four refusals in its case; a new stream is created with the shape of stream 0 even then. |
| StreamLaws.FirstAppend | src/memory.rs:951-1006 | The first append to a new stream succeeds exactly when the layer exists and the rows have its width. |
| StreamLaws.TruncateCuts | src/memory.rs:1023-1035 | Truncating keeps the first rows of every layer of that stream, and a stream that is not there stays away. |
| StreamLaws.CompressCuts | src/memory.rs:1060-1085 | Compressing keeps the first `sink` and the last `window` rows of every layer of that stream, K and V alike. |
| StreamLaws.KvBlockAdds | src/memory.rs:1105-1114 | A K/V allocation lays zeros at the cursor of its region and changes nothing else. |
| StreamLaws.KvWriteLands | src/memory.rs:776-812 | A K/V write changes the covered bytes of one block, the one based at the address if there is one; each refusal in its case. |
| StreamLaws.SnapshotStores | src/memory.rs:1195-1212 | A snapshot stores the live state under the next id and keeps exactly the ids that the window still covers, with their images. |
| StreamLaws.RestoreBrings | src/memory.rs:1264-1304 | In every run the step for `restore` makes the image taken under a retained id the live one, and is nothing for any other id. |
| StreamLaws.WindowDrops | src/memory.rs:1216-1245 | A new window keeps exactly the newest ids it covers, at once. |
| MemoryManager.MemoryManager.constructor | src/memory.rs:378-424 | A fresh memory is the empty run. |
| MemoryManager.MemoryManager.AllocGlobal | src/memory.rs:426-436 | The object with shared blocks and six snapshot maps takes, for `alloc_global`, exactly the model's step, answer included, so every theorem about runs holds of it. |
| MemoryManager.MemoryManager.AllocTensorBytes | src/memory.rs:498-511 | The object with shared blocks and six snapshot maps takes, for `alloc_tensor_bytes`, exactly the model's step, answer included, so every theorem about runs holds of it. |
| MemoryManager.MemoryManager.AllocTensor | src/memory.rs:512-531 | The object with shared blocks and six snapshot maps takes, for `alloc_tensor` without a GGUF model, exactly the model's step, answer included, so every theorem about runs holds of it. |
| MemoryManager.MemoryManager.AllocSparse | src/memory.rs:533-561 | The object with shared blocks and six snapshot maps takes, for `alloc_sparse_tensor`, its random contents a parameter, exactly the model's step, answer included, so every theorem about runs holds of it. |
| MemoryManager.MemoryManager.SetSparse | src/memory.rs:572-574 | The object with shared blocks and six snapshot maps takes, for an update through `get_sparse_mut`, exactly the model's step, answer included, so every theorem about runs holds of it. |
| MemoryManager.MemoryManager.RemoveTensor | src/memory.rs:1250-1262 | The object with shared blocks and six snapshot maps takes, for `remove_tensor`, exactly the model's step, answer included, so every theorem about runs holds of it. |
| MemoryManager.MemoryManager.AllocKvTensor | src/memory.rs:1105-1114 | The object with shared blocks and six snapshot maps takes, for `alloc_kv_tensor`, exactly the model's step, answer included, so every theorem about runs holds of it. |
| MemoryManager.MemoryManager.WriteKvBytes | src/memory.rs:776-812 | The object with shared blocks and six snapshot maps takes, for `write` in KV_CACHE, exactly the model's step, answer included, so every theorem about runs holds of it. |
| MemoryManager.MemoryManager.KvCacheInit | src/memory.rs:930-941 | The object with shared blocks and six snapshot maps takes, for `kv_cache_init`, exactly the model's step, answer included, so every theorem about runs holds of it. |
| MemoryManager.MemoryManager.KvCacheClear | src/memory.rs:1038-1050 | The object with shared blocks and six snapshot maps takes, for `kv_cache_clear`, exactly the model's step, answer included, so every theorem about runs holds of it. |
| MemoryManager.MemoryManager.KvCacheAppend | src/memory.rs:991-1006 | The object with shared blocks and six snapshot maps takes, for `kv_cache_append_stream`, exactly the model's step, answer included, so every theorem about runs holds of it. |
| MemoryManager.MemoryManager.KvCacheTruncate | src/memory.rs:1023-1035 | The object with shared blocks and six snapshot maps takes, for `kv_cache_truncate_stream`, exactly the model's step, answer included, so every theorem about runs holds of it. |
| MemoryManager.MemoryManager.KvCacheCompress | src/memory.rs:1060-1085 | The object with shared blocks and six snapshot maps takes, for `kv_cache_compress_sink_window_stream`, exactly the model's step, answer included, so every theorem about runs holds of it. |
| MemoryManager.MemoryManager.SetSnapshotWindow | src/memory.rs:1216-1219 | The object with shared blocks and six snapshot maps takes, for `set_snapshot_window`, exactly the model's step, answer included, so every theorem about runs holds of it. |
| MemoryManager.MemoryManager.Snapshot | src/memory.rs:1195-1212 | The object with shared blocks and six snapshot maps takes, for `snapshot`, exactly the model's step, answer included, so every theorem about runs holds of it. |
| MemoryManager.MemoryManager.Restore | src/memory.rs:1271-1304 | The object with shared blocks and six snapshot maps takes, for `restore`, exactly the model's step, answer included, so every theorem about runs holds of it. |
| MemoryManager.MemoryManager.EvictOldSnapshots | src/memory.rs:1228-1245 | The loop drops the same lowest ids from all six maps and stops at the window. |
| MemoryManager.MemoryManager.ReadGlobal | src/memory.rs:628-654 | A GLOBAL read of the object returns the bytes of the flat address space, fails exactly when no block contains the range, and tells the two errors apart. |
| MemoryManager.MemoryManager.WriteBytes | src/memory.rs:718-751 | A write to the object changes exactly the covered bytes of the address space when one block holds the range, and answers Ok then and only then; otherwise the whole memory is as it was. It is also the model's step. |
| TemporalRing.ModMod | src/memory.rs:36-40 | Reducing by the logical size first does not matter when the physical size divides it. |
| TemporalRing.Ring.HeadsAgree | src/memory.rs:816-839 | The physical head is the logical head modulo the physical size. |
| TemporalRing.PushHolds | src/memory.rs:816-839 | A push, wrapped or not, leaves every byte of the log that is at most one ring back in its cell. |
| TemporalRing.Ring.Push | src/memory.rs:816-839 | A push appends to an unbounded log and returns the logical address it starts at; a push larger than the ring is refused and changes nothing. |
| TemporalRing.Ring.Read | src/memory.rs:655-668 | Reading the address of a pushed stretch returns its bytes as long as no more than the ring holds has been pushed from there on, across both wraps. |
| TemporalRing.Ring.Write | src/memory.rs:752-765 | A write, even one that wraps onto its own start, changes exactly the log bytes still held in the cells it covers, each to the last byte laid there. |
| TemporalRing.EditIsSplice | src/memory.rs:752-765 | At the address of a stretch still held, that is replacing just that stretch of the log. |
| Scheduling.PickIsFirstRunnable | src/context.rs:280-326 | `pick_next` runs the first runnable entry of the highest band that has one, drops exactly the dead entries in front of it, and fails exactly when every entry is dead. |
| Scheduling.InvStep | src/context.rs:223-358 | Each operation of the loop keeps: every Ready context is queued once in its own band, the Running one is current and unqueued, ids are below the counter. |
| Scheduling.NeverStranded | src/context.rs:223-358 | In every allowed run a Ready context stands exactly once in the queue of its priority and in no other, a Running one is current and in none, and nothing is reported idle while a context is Ready. |
| Scheduling.PickSafeExactly | src/context.rs:280-326 | Picking keeps that invariant exactly when nothing is running or nothing can be picked. |
| Scheduling.BoundedWait | src/context.rs:280-345 | A context at position k of its queue is run within k + 1 picks, whatever is created or yielded behind it, while no band above has anything to run. |
| SchedulingLaws.PickByBand | src/context.rs:280-326 | The pick is the first entry that is not blocked or ended, of Red before Blue before Green; it becomes current and running and no other context changes. |
| SchedulingLaws.YieldRequeues | src/context.rs:329-345 | A running context that yields is Ready, with everything else it had, at the end of its own queue; the other queues and contexts are as they were. |
| SchedulingLaws.YieldClears | src/context.rs:329-345 | A yield by a blocked, ended or unknown context only empties the slot. |
| SchedulingLaws.PreemptYields | src/context.rs:348-358 | A Green or Blue context leaves the slot when a Red entry waits; otherwise nothing happens. |
| SchedulingLaws.CreateQueues | src/context.rs:223-230 | A created context has the next id, which is new, and the priority asked for, and waits last in its band. |
| SchedulingLaws.InsertQueues | src/context.rs:232-240 | An inserted context is kept as it is and waits last in its band; later ids are above its own. |
| SchedulingLaws.RemoveTakesOut | src/context.rs:250-257 | A removed context is in no queue, not current and not in the map; the other entries keep their order. |
| SchedulingLaws.NoneIsLost | src/context.rs:223-358 | No allowed run ends, loses or alters a context it neither terminates nor removes; it waits in its queue while Ready and has the slot while Running. |
| SchedulingLaws.RunsAgain | src/context.rs:280-345 | Round robin: a context that yields is run again within as many picks as contexts waited in its band, and one more, while no band above has any to run. |
| Scheduling.Scheduler.CreateContext | src/context.rs:223-230 | The object with its map and three queues takes exactly the step of the specification for `create_context`. |
| Scheduling.Scheduler.InsertContext | src/context.rs:232-240 | The object with its map and three queues takes exactly the step of the specification for `insert_context`. |
| Scheduling.Scheduler.RemoveContext | src/context.rs:250-257 | The object with its map and three queues takes exactly the step of the specification for `remove`. |
| Scheduling.Scheduler.PickNextContext | src/context.rs:280-326 | The object with its map and three queues takes exactly the step of the specification for `pick_next`. |
| Scheduling.Scheduler.YieldCurrent | src/context.rs:329-345 | The object with its map and three queues takes exactly the step of the specification for `yield_current`. |
| Scheduling.Scheduler.MaybePreempt | src/context.rs:348-358 | The object with its map and three queues takes exactly the step of the specification for `maybe_preempt`. |
| InteractiveLoop.StepKeeps | src/main.rs:433-891 | Each round of the interactive loop is a run of allowed scheduler events in which nothing blocks, and at its head nothing runs and an idle loop is fresh or finished. |
| InteractiveLoop.LoopIsAllowed | src/main.rs:433-891 | Whatever is typed and whatever the instructions do, the loop meets the discipline the scheduler theorems ask for. |
| InteractiveLoop.LoopStrandsNone | src/main.rs:528-580 | So in every run of the loop a Ready context is queued exactly once, in its own band, and something is then found to run. |
| InteractiveLoop.FailedPickIsTheEnd | src/main.rs:528-536 | In any allowed run in which no context blocks, a pick between turns fails only when every context has ended. |
| InteractiveLoop.RevivalNeverTaken | src/main.rs:483-504 | The loop goes idle only when every context has ended, so the branch that makes a terminated context 1 Ready without queueing it is never taken. |
| SchedulingLaws.TurnEnds | src/main.rs:545-870 | What each kind of turn leaves of its context: ended where it is, ended and out of the slot, or Ready at the end of its queue. |
| SchedulingLaws.ForkQueuesBoth | src/main.rs:786-862 | A forked context is queued before the one that made it, with the priority asked for. |
| SchedulingLaws.AbortRemoves | src/main.rs:805-862 | An aborted context is gone from map, slot and queues; the one that aborted it waits in its queue. |
| SchedulingLaws.GoesOnWhileAlive | src/main.rs:560-892 | A generation goes on exactly while some context has not ended. |
| SchedulingLaws.PromptStarts | src/main.rs:483-504 | A prompt starts a generation, with a new Green context at the entry, queued last, when every other has ended. |
| SchedulingLaws.RoundRunsOne | src/main.rs:528-870 | A round runs the context picked, which is then Ready or has ended, and changes no other; without one the loop goes idle. |
| SchedulingLaws.SwitchMoves | src/vm.rs:2995-3012 | A context that changes its band waits at the end of the new one. |
| Quant.DecodeQ40 | src/quant.rs:9-24 | Decodes a block so that each element is its own nibble less 8 times the scale, and touches nothing else. |
| Quant.DecodeQ80 | src/quant.rs:156-169 | Decodes a block so that each element is its signed byte times the scale. |
| Quant.DecodeQ4K | src/quant.rs:41-71 | With moving offsets, gives element e the nibble, scale and minimum of sub-block e / 32. |
| Quant.DecodeQ6K | src/quant.rs:76-116 | With moving offsets, gives element e its 4 low and 2 high bits and the scale of its group of 16. |
| Quant.Q4KHere | src/quant.rs:41-71 | Where the two elements written together lie in the super-block. |
| Quant.Q6KHere | src/quant.rs:76-116 | Where the four elements written together lie in the super-block. |
| Quant.Dequantize | src/quant.rs:120-173 | Succeeds exactly for a known type, a whole number of blocks and enough bytes; tells refusal from the two asserting types; element k is element k of the tensor; the rest of the buffer stays. |
| Quant.RowIsSlice | src/inference.rs:930-942 | The elements of an aligned cut of the bytes are the elements of the whole tensor from the row on, for every type. |
| Quant.EmbeddingRow | src/inference.rs:899-944 | Answers the slice of the fully decoded matrix, decoding only the row; each error is returned exactly in its case. |
| QuantLaws.Q40Packing | src/quant.rs:9-24 | In whole numbers: with 32 codes below 16 packed two to a byte, element e decodes to its code less 8, times the scale. |
| QuantLaws.Q80Packing | src/quant.rs:156-169 | Element e decodes to the signed number its byte is congruent to, times the scale. |
| QuantLaws.ScalesUnpack | src/quant.rs:28-36 | For any eight scales and minima below 64 packed into 12 bytes by quotients and remainders, the scale and minimum of each sub-block come back. |
| QuantLaws.Q4KPacking | src/quant.rs:28-71 | A super-block packed from scales and minima decodes element e to d times the scale of sub-block e / 32 times its digit, less dmin times the minimum. |
| QuantLaws.Unpack4K | src/quant.rs:28-36 | Every 12 bytes are packed from some scales and minima ... |
| QuantLaws.Unpack4KUnique | src/quant.rs:28-36 | ... and from no others. |
| QuantLaws.SixIs | src/quant.rs:90-108 | The six-bit value is a low digit plus 16 times two high bits, less 32. |
| QuantLaws.Q6KPacking | src/quant.rs:76-116 | A super-block packed from 256 values below 64 decodes element e to its value less 32, times the scale of its 16 and d. |
| QuantLaws.Unpack6K | src/quant.rs:76-116 | Every super-block is packed from some 256 values ... |
| QuantLaws.Unpack6KUnique | src/quant.rs:76-116 | ... and from no others. |
| QuantLaws.RowTypeIsOwn | src/inference.rs:899-944 | A row is read as the type the whole tensor is read as, for every type `dequantize` takes. |
| QuantLaws.FirstElements | src/quant.rs:120-173 | Which decoder each type number has, and the order of the bytes of plain floats. |
| QuantEncode.CodeBest | src/quant.rs:228-232 | No code of the range decodes nearer to the value than the one rounding and clamping choose. |
| QuantEncode.RoundIs | src/quant.rs:228-232 | Rounding gives the nearest integer, and of two the one further from zero. |
| QuantEncode.CodeWithinHalf | src/quant.rs:201-205 | The error is at most half the stored scale exactly for values the range reaches by rounding. |
| QuantEncode.Q40Error | src/quant.rs:201-234 | Through packing and decoding: the Q4_0 block is elementwise nearest among all blocks of its scale, with error at most d / 2 exactly where -8.5 d <= x <= 7.5 d. |
| QuantEncode.Q80Error | src/quant.rs:236-264 | The same for Q8_0, exactly where the magnitude <= 127.5 d. |
| QuantEncode.Q40Underflow | src/quant.rs:201-205 | A concrete block that breaks the bound: its scale is stored as zero, and every element is off by more than half of it. |
| QuantEncode.Q80Underflow | src/quant.rs:236-238 | The same for Q8_0. |
| QuantEncode.Q40Exact | src/quant.rs:201-205 | Encoding what a Q4_0 block decodes to, at its scale, gives that block back byte for byte. |
| QuantEncode.Q80Exact | src/quant.rs:236-264 | For Q8_0 this holds exactly when no stored byte is -128. |
| QuantEncode.ZeroBlock | src/quant.rs:222-227 | A zero block decodes to exact zeros. |
| QuantEncode.QuantizeQ40 | src/quant.rs:206-234 | Writes the specified block, refuses any other length or too little room, and touches nothing beyond the block. |
| QuantEncode.QuantizeQ80 | src/quant.rs:239-264 | The same for Q8_0. |
| MatVec.PartRun | src/matvec_quant.rs:143-156 | A run inside one column changes the partial sum of that column only. |
| MatVec.AddBlock | src/matvec_quant.rs:139-156 | The runs loop adds to every column exactly its share of the block, in bounds, with blocks that straddle columns. |
| MatVec.MatvecBlockedSerial | src/matvec_quant.rs:124-159 | The kernel computes, for every column, the dot product of `x` with the decoded elements the blocks hold, for any block size. |
| MatVec.ProductIsColumns | src/matvec_quant.rs:124-159 | When the blocks cover the matrix each entry is the whole dot product of its column. |
| MatVec.DotUnit | src/matvec_quant.rs:143-156 | The dot product with a unit vector reads out one weight ... |
| MatVec.DotLinear | src/matvec_quant.rs:143-156 | ... and it is linear, so it is the dot product. |
| Avx2.WordNibbles | src/matvec_quant.rs:318-323 | Shifting 16-bit lanes and masking bytes leaves each byte its own high nibble. |
| Avx2.JobElement | src/matvec_quant.rs:326-347 | Lane l of job g of chunk c is element 64c + 8g + l of the decoded super-block, with its scale and minimum. |
| Avx2.LanesAreDot | src/matvec_quant.rs:336-355 | The eight lane sums together are the dot product: every element is visited once. |
| Avx2.DotSuperblock | src/matvec_quant.rs:292-356 | The vector kernel equals the dot product with the decoded super-block. |
| FusedMatVec.OneColumn | src/matvec_quant.rs:245-271 | With 256 dividing the column length each super-block lies in one column. |
| FusedMatVec.RunPlan | src/matvec_quant.rs:177-215 | Any split of the blocks among workers and any tree of reductions gathers the same share of every column. |
| FusedMatVec.MatvecBlocked | src/matvec_quant.rs:165-216 | The fold-and-reduce kernels, scalar or vector, give the serial kernel's answer for every plan. |
| FusedMatVec.WeightsAreDecoded | src/matvec_quant.rs:49-83 | The fused block decoders read the same elements as decoding the tensor in full. |
| FusedMatVec.MatvecQuant | src/matvec_quant.rs:87-109 | Answers exactly when shapes, type and bytes fit, with each entry the dot product of `x` with a column of the fully decoded matrix, whichever kernel and plan run. |
| Crc32.TableStep | src/determinism.rs:62-65 | One table lookup divides in a whole byte, as eight single-bit steps do. |
| Crc32.Crc32Ieee | src/determinism.rs:53-67 | The table-driven function computes the bit-by-bit checksum of any message. |
| Crc32.CheckValue | src/determinism.rs:257-263 | The checksum of `123456789` is 0xCBF43926, and that of nothing 0. |
| Crc32.CrcIsForward | src/determinism.rs:52-67 | That is the mirrored plain division by 0x04C11DB7, high bit first. |
| Crc32.FeedIsShifts | src/determinism.rs:53-67 | Feeding at most 32 bits is adding the number they spell and shifting. |
| Crc32.UndetectedExactly | src/determinism.rs:53-67 | Two messages of one length share a checksum exactly when the pattern of changed bits divides to zero. |
| Crc32.BurstDetected | src/determinism.rs:53-67 | Changes inside a window of at most 32 bits always change the checksum, at any place in a message of any length. |
| Crc32.WindowDetected | src/determinism.rs:53-67 | In particular changes inside four consecutive bytes. |
| Crc32.PolynomialMissed | src/determinism.rs:53-67 | 32 is the most that can be promised: flipping the 33 bits of the polynomial is never noticed. |
| SplitMix.MixIsBijection | src/determinism.rs:21-23 | The output mix has an inverse on both sides. |
| SplitMix.NoRepeat | src/determinism.rs:18-24 | Two draws of one seed agree exactly when a multiple of 2^64 draws lies between them. |
| SplitMix.EveryOutput | src/determinism.rs:18-24 | Every 64-bit number is drawn in each period, whatever the seed. |
| SplitMix.OutputIs | src/determinism.rs:18-24 | Each draw in numbers alone: steps, shifts by halving, exclusive or of digits and products cut to 64 bits, with the constants written out. |
| SplitMix.Generator.Next | src/determinism.rs:18-24 | A draw advances the state and returns the next output of the seed's walk. |
| Container.InstructionRoundTrip | src/opcodes.rs:414-457 | Decoding is the inverse of encoding, exactly for instructions with a 32-byte opcode and a 26-byte payload. |
| Container.SplitExactly | src/m3bc.rs:292-339 | A payload splits exactly when it is a concatenation of frames of the widths their first bytes name, and then into just those: the split is unique. |
| Container.SplitFrames | src/m3bc.rs:293-339 | The loop returns that split, or the error of the first frame that fails. |
| Container.HeaderRoundTrip | src/m3bc.rs:88-130 | Encoding a header and parsing it back, in both directions, field by field. |
| Container.EncodeThenLoad | src/m3bc.rs:230-354 | An encoded container loads exactly when major is 1, only bits 50 and 51 are required, the payload splits, and the entry is 0 or cuts to a frame start; the same header and frames come back. |
| Container.LoadThenEncode | src/m3bc.rs:230-354 | A container that loads is byte for byte the encoding of what was loaded. |
| Container.EntryExactly | src/m3bc.rs:266-283 | The entries accepted are exactly zero and the frame starts, if and only if every frame offset cut to 32 bits is itself zero or a frame start. |
| Container.SmallCuts | src/m3bc.rs:266-283 | That holds when the last frame starts below 2^32. |
| Container.EntryExact | src/m3bc.rs:266-283 | In payloads of at most 2^32 bytes an entry is accepted exactly when it is 0 or a frame starts there. |
| Container.EntryWraps | src/m3bc.rs:266-283 | Beyond that the cut to 32 bits accepts an entry inside a frame; a concrete payload. |
| Container.DamageDetected | src/m3bc.rs:188-290 | Changing any one byte of a loading container, the magic included, or up to four neighbouring ones within the covered bytes or the checksum, makes loading fail. |
| Container.EncodeM3bc | src/m3bc.rs:343-354 | The encoder builds the specified bytes. |
| Container.LoadBytes | src/m3bc.rs:198-290 | The loader, with sniffing, the legacy path and every error, answers what the specification says. |
| Container.ChunksExactly | src/m3bc.rs:205-227 | A file without header splits exactly when every chunk starts with a 32-byte opcode, and no byte is lost. |
| ContainerLaws.SizeTable | src/opcodes.rs:353-374 | The bytes an instruction takes, by ranges of its opcode. |
| ContainerLaws.LegacyLoads | src/m3bc.rs:198-227 | A file that does not start with the four magic bytes comes out as one frame for each 32 bytes, each field at its place, entry 0, no header; or the length is reported, or the number of the first chunk at fault and why. |
| ContainerLaws.LegacyExactly | src/m3bc.rs:198-227 | It loads exactly when its length is a multiple of 32 and every byte at such a multiple is the opcode of a 32-byte instruction. |
| ContainerLaws.ContainerLayout | src/m3bc.rs:230-290 | Whatever loads with the magic has each header field at its offset, a checksum at bytes 30 to 33 over everything else, and frames that are the rest. |
| ContainerLaws.LittleEndian | src/m3bc.rs:88-130 | The fields of the header are read least byte first. |
| ContainerLaws.VersionOne | src/m3bc.rs:236-242 | Only major version 1 loads, least byte first. |
| ContainerLaws.NoUnknownFeature | src/m3bc.rs:243-249 | A container with any REQUIRED bit but 50 and 51 never loads. |
| ContainerLaws.SplitStuck | src/m3bc.rs:292-339 | A payload that does not split names the frame at fault: the frames before it fit, and its opcode is the escape, is unassigned, or asks for more bytes than are left. |
| ProductQuantizer.NearestExactly | src/rag.rs:240-253 | The search ends on the first nearest centroid exactly when one is nearer than `f32::MAX` or number 0 is nearest anyway. |
| ProductQuantizer.EncodedIsOptimal | src/rag.rs:215-256 | No code vector has a smaller total squared error, exactly under that condition in every subspace. |
| ProductQuantizer.FarMissed | src/rag.rs:240-253 | Out of reach the encoder misses a nearer centroid; a concrete input. |
| ProductQuantizer.DecodedSub | src/rag.rs:258-280 | A subvector of the decoded vector is the centroid its code names. |
| ProductQuantizer.EncodeOfDecode | src/rag.rs:215-280 | Encoding a decoded vector gives its codes back exactly when each is the first of its centroid. |
| ProductQuantizer.Projection | src/rag.rs:215-280 | A second round of encoding and decoding changes nothing, for any vector. |
| ProductQuantizer.PqEncode | src/rag.rs:218-256 | The loops compute those codes, with each geometry error in its case. |
| ProductQuantizer.PqDecode | src/rag.rs:259-280 | The decoder joins the named centroids and refuses exactly the bad lengths and codes. |
| ProductQuantizer.ValidateCovers | src/rag.rs:191-213 | What validation admits, encoding and decoding accept with the same geometry. |
| ProductQuantizer.ValidateExactly | src/rag.rs:191-213 | Validation admits exactly the geometries of `nsub` subvectors of one positive length with 1 to 65536 centroids each, and answers them. |
| ProductQuantizer.DistOne | src/rag.rs:240-253 | The distance of two numbers is the square of their difference; longer vectors add up. |
| ProductQuantizer.SubLies | src/rag.rs:240-253 | Subvector s is the `dim` numbers from s * dim on. |
| ProductQuantizer.CentroidLies | src/rag.rs:240-253 | Centroid c of subvector s is the `dim` numbers from (s * k + c) * dim on. |
| Tokenizer.Utf8Cut | src/inference.rs:1425-1448 | Text cut at a character boundary is text on both sides. |
| Tokenizer.PreprocessUtf8 | src/inference.rs:1407-1412 | Replacing separators keeps text text. |
| Tokenizer.IndexIs | src/inference.rs:1416-1422 | The map holds exactly the pieces, each with its last index. |
| Tokenizer.LongestIs | src/inference.rs:1426-1448 | A match is the longest known piece of at most 64 bytes that ends on a boundary; there is none exactly when nothing matches. |
| Tokenizer.Round | src/inference.rs:1425-1486 | Every round ends on a later character boundary. |
| Tokenizer.Lossless | src/inference.rs:1401-1491 | If every character of a text that is not empty is a piece, the pieces of the ids spell the preprocessed text. |
| Tokenizer.IdsInRange | src/inference.rs:1401-1491 | Every id names a piece, except the 0 that stands for no ids. |
| TokenizerLaws.StyleIs | src/inference.rs:1407-1407 | GPT-2 style is chosen exactly when some piece starts with C4 A0. |
| TokenizerLaws.SpaceMarked | src/inference.rs:1408-1412 | A space anywhere in the text becomes C4 A0 or, in the other style, E2 96 81. |
| TokenizerLaws.NewlineMarked | src/inference.rs:1408-1412 | A newline becomes C4 8A in GPT-2 style and stays otherwise. |
| TokenizerLaws.OthersStay | src/inference.rs:1408-1412 | Text without separators stays as it is. |
| TokenizerLaws.MarksMapBack | src/inference.rs:1408-1412 | Mapping the marks back gives the text exactly when it holds no mark of its own; otherwise something shorter. |
| TokenizerLaws.TextComesBack | src/inference.rs:1401-1491 | If every character is a piece, the text is had back from its ids by mapping the marks back, exactly when it holds no mark of its own. |
| TokenizerLaws.RoundIs | src/inference.rs:1425-1486 | A round gives the longest piece of at most 64 bytes that ends on a boundary; with none it passes one character, for which an ASCII byte gives its name in capitals, in small letters, or in GPT-2 style its number. |
| TokenizerLaws.NameIs | src/inference.rs:1456-1463 | The name of a byte is its two hexadecimal digits between `<0x` and `>`. |
| Tokenizer.FindLongest | src/inference.rs:1428-1448 | The loop down from the cap, boundary by boundary, finds the longest match. |
| Tokenizer.Tokenize | src/inference.rs:1401-1491 | The loops compute the specified ids, and never none. |
| Ssm.WindowIsConvolution | src/ssm.rs:101-127 | The windowed sum is the causal convolution of every input so far. |
| Ssm.CausalPrefix | src/ssm.rs:101-127 | An output depends only on inputs up to its own time, so streaming equals batch. |
| Ssm.ImpulseResponse | src/ssm.rs:101-127 | An impulse comes out as the weights in turn, the last first, and then nothing. |
| Ssm.ClosedStep | src/ssm.rs:171-177 | The recurrence steps the sum of all injections, each faded by the decays after it. |
| Ssm.ScanRowAdvanced | src/ssm.rs:166-178 | One in-place update turns the closed sums of a channel into those with one more step. |
| Ssm.AdvancedAt | src/ssm.rs:166-178 | One step multiplies a cell by the exponential of dt times a and adds x times b times dt. |
| Ssm.WeighedUnit | src/ssm.rs:166-178 | Reading a state out through a unit vector gives one cell. |
| Ssm.MambaState.constructor | src/ssm.rs:74-82 | A fresh state is that of no input. |
| Ssm.MambaState.Clear | src/ssm.rs:84-91 | A reset state is that of no input. |
| Ssm.MambaState.ConvUpdate | src/ssm.rs:101-127 | Each window then holds the last inputs, oldest first, and the outputs are the causal convolution plus bias. |
| Ssm.MambaState.ScanUpdate | src/ssm.rs:148-182 | The state is then the closed sum over all steps, and the outputs read it through `c` plus the skip term. |
| Arenas.AlignUpIs | src/arena.rs:49-53 | The aligned offset is the least multiple not below the cursor. |
| Arenas.GrownIs | src/arena.rs:60-65 | Doubling stops at the first capacity that is enough, never past 2^30. |
| Arenas.InvRun | src/arena.rs:41-74 | In every run the granted regions are disjoint, increasing, aligned and inside the buffer, whose size is 0 or 64 * 2^k up to 2^30 and never shrinks. |
| Arenas.AllocGrants | src/arena.rs:41-69 | An allocation gets the least aligned offset from the cursor on, if it ends below 2^30; each refusal in its case, and then nothing changes. |
| Arenas.PowersOfTwo | src/arena.rs:44-48 | The alignments taken are exactly the powers of two. |
| Arenas.Arena.AllocBytes | src/arena.rs:41-69 | Answers what the specification says, keeps the bytes there were, zeroes new ones, and changes nothing when it refuses. |
| Arenas.Arena.ResetCursor | src/arena.rs:72-74 | Resets the cursor and keeps the buffer. |

## Left out

- Files, memory maps and GGUF parsing, the PERSISTENT region, the zero-copy path of `alloc_tensor` for a loaded model (src/memory.rs:447-497), the command line, the terminal interface, the asynchronous reactor, GPU kernels: input and output or library behaviour.
- Opcode semantics and the assembler; an instruction is its fields. The reactor takes ids from signals and not from `pick_next`, so the scheduler results do not cover it; the real-inference loop (src/main.rs:894-1210) does not use the scheduler.
- Rounding, NaN and infinities of floats, and the bit patterns of f16 and bf16: reals and parameters stand in for them. The refusals of non-finite input in the encoders and the product quantiser therefore have nothing to refuse.
- Overflow of sums of sizes past 64 bits: GLOBAL cursors and addresses are assumed below 2^64, and the version counter is a number that does not wrap.
- Disjointness of KV_CACHE blocks is not claimed: `kv_cache_init` resets the cursor of that region without clearing it (src/memory.rs:930-941). Writes there are modelled with the block the search stopped at as an answer of the search.
- TemporalRing.Ring.Write, TemporalRing.Ring.Read: a range that reaches past the second lap of the ring makes the source panic and is excluded.
- MemoryManager.MemoryManager.AllocTensor: does not model the tensors of a loaded GGUF file, which the source tries first and which live in the PERSISTENT region.
- QuantEncode.Q40Error: a scale above the f16 range, which is stored as infinity, is not a real number and is not modelled; the bound fails there too.
- QuantEncode.Q80Error: the same.
- InteractiveLoop.RevivalNeverTaken: the loop's rollback of memory and program counters, its output and its waits are left out; they do not touch the scheduler.
- Attention over the K/V cache, sparse matrix contents and CSR conversion, `read` of f32 tensors, statistics.
- Contexts hold an id, a priority and a state; registers, program counters and forks of contexts play no part in scheduling.
- Quant.Dequantize: the destination is taken to be long enough, as the callers make it; a shorter one makes the source panic.
- Quant.EmbeddingRow: the file from the tensor's first byte on is the parameter `tail`; looking the tensor up by name is not part of this model.
- FusedMatVec.MatvecQuant: the thread pool appears as a plan of contiguous stretches and a tree of reductions; element types with no kernel are refused as in the source, and the fallback to decode-then-multiply is the caller's.
- Arenas.Arena.AllocBytes: rounding up by a bit mask is written as division by the alignment, which is the same for the powers of two the code lets through.
- ProductQuantizer.PqEncode: an empty vector divides by zero in the source; the model answers `DivideByZero` there.
- Tokenizer.Tokenize: text is any sequence of leading bytes with their continuing bytes, which includes all UTF-8; the two look-ups of a lone character after the longest match fails are left out because `Tokenizer.LoneCharKnown` shows they find nothing.
- Tokenizer.Lossless: what ids decode to when a byte name stands for a character, and undoing the separators, are not modelled.
- Ssm.MambaState.ConvUpdate: vectors have the lengths the debug assertions ask for, and windows hold at least one input.
- SHA-256, HMAC, FNV-1a and sampling of uniform and normal numbers (src/determinism.rs:26-51, 69-200): standards restated, or floating point.
- The rest of the retrieval store (src/rag.rs:1-185), the emitter, the models in src/moshi.rs: plumbing around the pieces above.
