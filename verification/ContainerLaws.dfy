/**
  Loading said in bytes (src/m3bc.rs, src/opcodes.rs): which files load, what comes out of
  them, and where and why the others are refused, with every offset and opcode written out.
*/
module ContainerLaws {
  import opened Prelude
  import opened Container
  import Crc32

  // ---------------------------------------------------------------------
  // Opcodes
  // ---------------------------------------------------------------------

  /** The file starts with the characters M3BC. */
  predicate HasMagic(data: Bytes) {
    |data| >= 4 && data[0] == 0x4D && data[1] == 0x33 && data[2] == 0x42 && data[3] == 0x43
  }

  /** Opcodes of 32-byte instructions. */
  predicate Narrow(op: Byte) {
    op < 0x80 || op == 0xFF
  }

  /** Opcodes no width is assigned to. */
  predicate Unassigned(op: Byte) {
    0xB7 <= op < 0xFF
  }

  /** The bytes an instruction takes, by its opcode. */
  lemma SizeTable(op: Byte)
    ensures FixedSize(WidthOf(op)) ==
            if op < 0x80 then Some(32)
            else if op < 0xB1 then Some(64)
            else if op == 0xB1 then Some(128)
            else if op == 0xB2 then Some(256)
            else if op == 0xB3 then None
            else if op < 0xB7 then Some(64)
            else if op < 0xFF then None
            else Some(32)
    ensures WidthOf(op) == Fixed32 <==> Narrow(op)
    ensures WidthOf(op) == Reserved <==> Unassigned(op)
    ensures WidthOf(op) == EscapeVar <==> op == 0xB3
  {
  }

  /** The instruction in the 32 bytes from `at` on. */
  function InstructionAt(data: Bytes, at: nat): Instruction
    requires at + 32 <= |data|
  {
    Instruction(data[at], data[at + 1], data[at + 2], data[at + 3], data[at + 4], data[at + 5], data[at + 6..at + 32])
  }

  lemma Decodes(b: Bytes)
    requires |b| == 32
    ensures DecodeInstruction(b) ==
            if Narrow(b[0]) then Ok(InstructionAt(b, 0))
            else if Unassigned(b[0]) then Err(ReservedOpcode(b[0]))
            else Err(UnsupportedWidth(b[0]))
  {
    hide WidthOf;
    SizeTable(b[0]);
  }

  // ---------------------------------------------------------------------
  // Files without header
  // ---------------------------------------------------------------------

  /** Chunk `k` is a 32-byte instruction. */
  predicate GoodChunk(data: Bytes, k: nat)
    requires 32 * k < |data|
  {
    Narrow(data[32 * k])
  }

  ghost predicate GoodBefore(data: Bytes, n: nat)
    requires 32 * n <= |data|
  {
    forall k: nat :: k < n ==> GoodChunk(data, k)
  }

  /** One frame for each 32 bytes, field by field. */
  ghost predicate ChunkFrames(data: Bytes, frames: seq<Frame>)
    requires 32 * |frames| <= |data|
  {
    forall k: nat :: k < |frames| ==> frames[k] == I32(InstructionAt(data, 32 * k))
  }

  /** Chunk `k` is the first that is not, and why. */
  ghost predicate FirstBad(data: Bytes, k: nat, cause: DecodeError)
    requires |data| % 32 == 0
  {
    && 32 * k < |data| && GoodBefore(data, k) && !GoodChunk(data, k)
    && cause == (if Unassigned(data[32 * k]) then ReservedOpcode(data[32 * k]) else UnsupportedWidth(data[32 * k]))
  }

  lemma {:induction false} ChunksFrom(data: Bytes, index: nat)
    requires |data| % 32 == 0
    ensures match Chunks(data, index)
            case Ok(frames) => 32 * |frames| == |data| && GoodBefore(data, |frames|) && ChunkFrames(data, frames)
            case Err(e) => e.LegacyChunk? && e.index >= index && FirstBad(data, e.index - index, e.cause)
    decreases |data|
  {
    hide Narrow, Unassigned, DecodeInstruction;
    if data != [] {
      Decodes(data[..32]);
      var rest := data[32..];
      if GoodChunk(data, 0) {
        ChunksFrom(rest, index + 1);
        assert InstructionAt(data[..32], 0) == InstructionAt(data, 0);
        match Chunks(rest, index + 1) {
          case Ok(frames) => ChunksOk(data, frames, Chunks(data, index).value);
          case Err(e) => ChunksErr(data, e.index - index - 1, e.cause);
        }
      }
    }
  }

  lemma ChunksOk(data: Bytes, rest: seq<Frame>, frames: seq<Frame>)
    requires |data| >= 32 && 32 * |rest| == |data| - 32 && GoodChunk(data, 0)
    requires GoodBefore(data[32..], |rest|) && ChunkFrames(data[32..], rest)
    requires frames == [I32(InstructionAt(data, 0))] + rest
    ensures GoodBefore(data, |frames|) && ChunkFrames(data, frames)
  {
    hide Narrow;
    forall k: nat | k < |frames| ensures GoodChunk(data, k) && frames[k] == I32(InstructionAt(data, 32 * k)) {
      if k > 0 {
        assert GoodChunk(data[32..], k - 1);
        assert rest[k - 1] == I32(InstructionAt(data[32..], 32 * (k - 1)));
        assert data[32..][32 * (k - 1) + 6..32 * (k - 1) + 32] == data[32 * k + 6..32 * k + 32];
      }
    }
  }

  lemma ChunksErr(data: Bytes, k: nat, cause: DecodeError)
    requires |data| >= 32 && |data| % 32 == 0 && GoodChunk(data, 0) && FirstBad(data[32..], k, cause)
    ensures FirstBad(data, k + 1, cause)
  {
    hide Narrow, Unassigned;
    forall j: nat | j < k + 1 ensures GoodChunk(data, j) {
      if j > 0 {
        assert GoodChunk(data[32..], j - 1);
      }
    }
  }

  /**
    A file that does not start with M3BC loads exactly when it is made of 32-byte
    instructions; each comes out as one frame, with its fields at their places, and
    entry 0. Otherwise the length is reported, or the first chunk at fault.
  */
  lemma LegacyLoads(data: Bytes)
    requires !HasMagic(data)
    ensures match Load(data)
            case Ok(p) =>
              && |data| % 32 == 0 && GoodBefore(data, |data| / 32)
              && p.format == Legacy && p.header == None && p.entry == 0
              && |p.frames| == |data| / 32 && ChunkFrames(data, p.frames)
              && AllFit(p.frames) && Flatten(p.frames) == data
            case Err(LegacyLength) => |data| % 32 != 0
            case Err(LegacyChunk(k, cause)) => |data| % 32 == 0 && FirstBad(data, k, cause)
            case Err(_) => false
  {
    hide Chunks, LoadM3bc, Parse, GoodBefore, ChunkFrames, FirstBad, AllFit, Flatten;
    assert Sniff(data) == Legacy;
    if |data| % 32 == 0 {
      ChunksFrom(data, 0);
      ChunksExactly(data, 0);
    }
  }

  /** In one sentence: it loads if and only if the length and every opcode allow it. */
  lemma LegacyExactly(data: Bytes)
    requires !HasMagic(data)
    ensures Load(data).Ok? <==> |data| % 32 == 0 && GoodBefore(data, |data| / 32)
  {
    hide Load, GoodBefore, FirstBad;
    LegacyLoads(data);
    if Load(data).Err? && Load(data).error.LegacyChunk? {
      BadIsThere(data, Load(data).error.index, Load(data).error.cause);
    }
  }

  lemma BadIsThere(data: Bytes, k: nat, cause: DecodeError)
    requires |data| % 32 == 0 && FirstBad(data, k, cause)
    ensures !GoodBefore(data, |data| / 32)
  {
    assert !GoodChunk(data, k);
  }

  // ---------------------------------------------------------------------
  // Containers
  // ---------------------------------------------------------------------

  /** Fields are little-endian. */
  lemma LittleEndian(b: Bytes)
    ensures |b| == 2 ==> Get16(b) == b[0] as bv16 + 0x100 * (b[1] as bv16)
    ensures |b| == 4 ==> Get32(b) == b[0] as bv32 + 0x100 * (b[1] as bv32) + 0x1_0000 * (b[2] as bv32)
                                     + 0x100_0000 * (b[3] as bv32)
    ensures |b| == 8 ==> Get64(b) == Get32(b[..4]) as bv64 + 0x1_0000_0000 * (Get32(b[4..]) as bv64)
  {
  }

  /** Where a container keeps what: the fields of its header, the checksum, and the payload from byte 34 on. */
  lemma ContainerLayout(data: Bytes)
    requires HasMagic(data) && Load(data).Ok?
    ensures |data| >= 34
    ensures var p := Load(data).value;
            && p.format == M3bc && p.header.Some? && p.entry == p.header.value.entry
            && p.header == Some(Header(Get16(data[4..6]), Get16(data[6..8]), Get16(data[8..10]), Get64(data[10..18]),
                             Get64(data[18..26]), Get32(data[26..30])))
            && Crc32.Crc(data[..30] + data[34..]) == Get32(data[30..34])
            && AllFit(p.frames) && Flatten(p.frames) == data[34..]
  {
    hide Crc32.Crc, Get16, Get32, Get64, Split, EntryOk, Unknown, AllFit, Flatten, Chunks;
    assert Sniff(data) == M3bc;
    SplitSound(data[34..], 0);
  }

  /** Only version 1.x.y loads. */
  lemma VersionOne(data: Bytes)
    requires HasMagic(data) && Load(data).Ok?
    ensures |data| >= 34 && data[4] == 1 && data[5] == 0
  {
    hide Crc32.Crc, Get32, Get64, Split, EntryOk, Unknown, Chunks;
    assert Sniff(data) == M3bc;
    OneIs(data[4], data[5]);
  }

  lemma OneIs(x: Byte, y: Byte)
    ensures (x as bv16) | ((y as bv16) << 8) == 1 <==> x == 1 && y == 0
  {
  }

  /** A container that requires any feature but 50 and 51 never loads: all other bits of bytes 10 to 17 are 0. */
  lemma NoUnknownFeature(data: Bytes)
    requires HasMagic(data) && Load(data).Ok?
    ensures |data| >= 34 && (forall i :: 10 <= i < 16 ==> data[i] == 0) && data[16] & 0xF3 == 0 && data[17] == 0
  {
    hide Crc32.Crc, Get16, Get32, Get64, Split, EntryOk, Unknown, Chunks;
    assert Sniff(data) == M3bc;
    var b := data[10..18];
    assert Unknown(Get64(b)) == 0;
    KnownBits(b);
    assert forall i :: 0 <= i < 8 ==> b[i] == data[10 + i];
  }

  /** The known features, bit by bit of the eight bytes. */
  lemma KnownBits(b: Bytes)
    requires |b| == 8
    ensures Unknown(Get64(b)) == 0 <==>
              && b[0] == 0 && b[1] == 0 && b[2] == 0 && b[3] == 0 && b[4] == 0 && b[5] == 0
              && b[6] & 0xF3 == 0 && b[7] == 0
  {
    assert b[4..][0] == b[4] && b[4..][1] == b[5] && b[4..][2] == b[6] && b[4..][3] == b[7];
    EightBytes(b[0], b[1], b[2], b[3], b[4], b[5], b[6], b[7]);
  }

  lemma EightBytes(a: Byte, b: Byte, c: Byte, d: Byte, e: Byte, f: Byte, g: Byte, h: Byte)
    ensures var lo := (a as bv32) | ((b as bv32) << 8) | ((c as bv32) << 16) | ((d as bv32) << 24);
            var hi := (e as bv32) | ((f as bv32) << 8) | ((g as bv32) << 16) | ((h as bv32) << 24);
            Unknown(Join(lo, hi)) == 0 <==>
              a == 0 && b == 0 && c == 0 && d == 0 && e == 0 && f == 0 && g & 0xF3 == 0 && h == 0
  {
  }

  // ---------------------------------------------------------------------
  // Where a payload stops being instructions
  // ---------------------------------------------------------------------

  /** Some frames fit the front of the payload; what follows names no width, or is too short for the one it names. */
  ghost predicate Stuck(payload: Bytes, done: seq<Frame>, rest: Bytes, e: LoadError, index: nat) {
    && AllFit(done) && payload == Flatten(done) + rest && rest != []
    && (e == EscapeFrame(index + |done|) <==> rest[0] == 0xB3)
    && (e == ReservedFrame(index + |done|) <==> Unassigned(rest[0]))
    && (rest[0] != 0xB3 && !Unassigned(rest[0]) ==>
      e == ShortFrame(index + |done|) && FixedSize(WidthOf(rest[0])).value > |rest|)
  }

  /** A payload that does not split says at which frame and why. */
  lemma {:induction false} SplitStuck(payload: Bytes, index: nat) returns (done: seq<Frame>, rest: Bytes)
    requires Split(payload, index).Err?
    ensures Stuck(payload, done, rest, Split(payload, index).error, index)
    decreases |payload|
  {
    hide WidthOf, DecodeInstruction;
    SizeTable(payload[0]);
    var size := FixedSize(WidthOf(payload[0]));
    done, rest := [], payload;
    if size.Some? && size.value <= |payload| {
      var n := size.value;
      done, rest := SplitStuck(payload[n..], index + 1);
      StuckBehind(payload, n, done, rest, Split(payload, index).error, index);
      done := [FrameOf(payload[..n])] + done;
    }
  }

  lemma StuckBehind(payload: Bytes, n: nat, done: seq<Frame>, rest: Bytes, e: LoadError, index: nat)
    requires 0 < n <= |payload| && FixedSize(WidthOf(payload[0])) == Some(n)
    requires Stuck(payload[n..], done, rest, e, index + 1)
    ensures Stuck(payload, [FrameOf(payload[..n])] + done, rest, e, index)
  {
    hide WidthOf, FrameOf, Unassigned;
    FrameIs(payload[..n]);
    var all := [FrameOf(payload[..n])] + done;
    assert all[1..] == done;
    assert payload == payload[..n] + payload[n..];
    assert Flatten(all) + rest == payload[..n] + (Flatten(done) + rest);
  }
}
