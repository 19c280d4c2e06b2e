/**
  The `.m3bc` container (src/m3bc.rs) and the part of the instruction decoder it rests on
  (src/opcodes.rs:345-457): header, framing by first byte, negotiation, checksum.
*/
module Container {
  import opened Prelude
  import Crc32

  type Bytes = seq<Byte>

  // ---------------------------------------------------------------------
  // Little-endian fields
  // ---------------------------------------------------------------------

  function Put16(v: bv16): Bytes {
    [(v & 0xFF) as Byte, (v >> 8) as Byte]
  }

  function Get16(b: Bytes): bv16
    requires |b| == 2
  {
    (b[0] as bv16) | ((b[1] as bv16) << 8)
  }

  function Put32(v: bv32): Bytes {
    [(v & 0xFF) as Byte, ((v >> 8) & 0xFF) as Byte, ((v >> 16) & 0xFF) as Byte, (v >> 24) as Byte]
  }

  function Get32(b: Bytes): bv32
    requires |b| == 4
  {
    (b[0] as bv32) | ((b[1] as bv32) << 8) | ((b[2] as bv32) << 16) | ((b[3] as bv32) << 24)
  }

  function Lower(v: bv64): bv32 {
    (v & 0xFFFF_FFFF) as bv32
  }

  function Upper(v: bv64): bv32 {
    (v >> 32) as bv32
  }

  function Join(lo: bv32, hi: bv32): bv64 {
    (lo as bv64) | ((hi as bv64) << 32)
  }

  function Put64(v: bv64): Bytes {
    Put32(Lower(v)) + Put32(Upper(v))
  }

  function Get64(b: Bytes): bv64
    requires |b| == 8
  {
    Join(Get32(b[..4]), Get32(b[4..]))
  }

  lemma Field16(v: bv16, b: Bytes)
    ensures |Put16(v)| == 2 && Get16(Put16(v)) == v
    ensures |b| == 2 ==> Put16(Get16(b)) == b
  {
    if |b| == 2 {
      Halves16(b[0], b[1]);
    }
  }

  lemma Halves16(x: Byte, y: Byte)
    ensures var v := (x as bv16) | ((y as bv16) << 8); (v & 0xFF) as Byte == x && (v >> 8) as Byte == y
  {
  }

  lemma Field32(v: bv32, b: Bytes)
    ensures |Put32(v)| == 4 && Get32(Put32(v)) == v
    ensures |b| == 4 ==> Put32(Get32(b)) == b
  {
    Whole32(v);
    if |b| == 4 {
      Quarters32(b[0], b[1], b[2], b[3]);
    }
  }

  lemma Whole32(v: bv32)
    ensures (((v & 0xFF) as Byte) as bv32) | ((((v >> 8) & 0xFF) as Byte as bv32) << 8)
      | ((((v >> 16) & 0xFF) as Byte as bv32) << 16) | (((v >> 24) as Byte as bv32) << 24) == v
  {
  }

  lemma Quarters32(x: Byte, y: Byte, z: Byte, w: Byte)
    ensures var v := (x as bv32) | ((y as bv32) << 8) | ((z as bv32) << 16) | ((w as bv32) << 24);
            && (v & 0xFF) as Byte == x && ((v >> 8) & 0xFF) as Byte == y
            && ((v >> 16) & 0xFF) as Byte == z && (v >> 24) as Byte == w
  {
  }

  lemma Whole64(v: bv64, x: bv32, y: bv32)
    ensures Join(Lower(v), Upper(v)) == v && Lower(Join(x, y)) == x && Upper(Join(x, y)) == y
  {
  }

  lemma Field64(v: bv64, b: Bytes)
    ensures |Put64(v)| == 8 && Get64(Put64(v)) == v
    ensures |b| == 8 ==> Put64(Get64(b)) == b
  {
    hide Put32, Get32, Lower, Upper, Join;
    Field32(Lower(v), []);
    Field32(Upper(v), []);
    Whole64(v, 0, 0);
    assert Put64(v)[..4] == Put32(Lower(v)) && Put64(v)[4..] == Put32(Upper(v));
    if |b| == 8 {
      Field32(0, b[..4]);
      Field32(0, b[4..]);
      Whole64(0, Get32(b[..4]), Get32(b[4..]));
      assert b == b[..4] + b[4..];
    }
  }

  // ---------------------------------------------------------------------
  // Instructions and frames
  // ---------------------------------------------------------------------

  datatype InstrWidth = Fixed32 | Fixed64 | Fixed128 | Fixed256 | EscapeVar | Reserved

  /** `instr_width`. */
  function WidthOf(op: Byte): InstrWidth {
    if op < 0x80 || op == 0xFF then Fixed32
    else if op <= 0xAF || (0xB4 <= op && op <= 0xB6) then Fixed64
    else if op == 0xB0 then Fixed64
    else if op == 0xB1 then Fixed128
    else if op == 0xB2 then Fixed256
    else if op == 0xB3 then EscapeVar
    else Reserved
  }

  /** `fixed_size`. */
  function FixedSize(w: InstrWidth): Option<nat> {
    match w
    case Fixed32 => Some(32)
    case Fixed64 => Some(64)
    case Fixed128 => Some(128)
    case Fixed256 => Some(256)
    case EscapeVar => None
    case Reserved => None
  }

  datatype Instruction = Instruction(opcode: Byte, flags: Byte, rdest: Byte, rsrc1: Byte, rsrc2: Byte, rsrc3: Byte,
      payload: Bytes)

  datatype DecodeError = Incomplete(len: nat) | UnsupportedWidth(op: Byte) | ReservedOpcode(op: Byte)

  /** `Instruction::decode`. */
  function DecodeInstruction(b: Bytes): Result<Instruction, DecodeError> {
    if |b| < 32 then Err(Incomplete(|b|))
    else if WidthOf(b[0]) == Reserved then Err(ReservedOpcode(b[0]))
    else if WidthOf(b[0]) != Fixed32 then Err(UnsupportedWidth(b[0]))
    else Ok(Instruction(b[0], b[1], b[2], b[3], b[4], b[5], b[6..32]))
  }

  /** `Instruction::encode`. */
  function EncodeInstruction(i: Instruction): Bytes {
    [i.opcode, i.flags, i.rdest, i.rsrc1, i.rsrc2, i.rsrc3] + i.payload
  }

  datatype Frame = I32(ins: Instruction) | Raw(width: InstrWidth, bytes: Bytes)
  {
    /** `byte_len`. */
    function ByteLen(): nat {
      if I32? then 32 else |bytes|
    }

    /** The bytes the frame came from. */
    function Image(): Bytes {
      if I32? then EncodeInstruction(ins) else bytes
    }

    /** What the loader hands out: a frame as wide as its first byte says, decoded if 32 bytes wide. */
    predicate Fits() {
      match this
      case I32(ins) => |ins.payload| == 26 && WidthOf(ins.opcode) == Fixed32
      case Raw(width, bytes) =>
        && bytes != [] && WidthOf(bytes[0]) == width
        && width != Fixed32 && FixedSize(width) == Some(|bytes|)
    }
  }

  datatype LoadError =
    | ShortHeader
    | NoMagic
    | WrongVersion
    | Unsupported(bits: bv64)
    | BadChecksum
    | ShortFrame(index: nat)
    | EscapeFrame(index: nat)
    | ReservedFrame(index: nat)
    | EntryNotOnFrame
    | LegacyLength
    | LegacyChunk(index: nat, cause: DecodeError)

  /** The frames of `payload`, the first of which has number `index`. */
  function Split(payload: Bytes, index: nat): Result<seq<Frame>, LoadError>
    decreases |payload|
  {
    if payload == [] then Ok([])
    else
      var w := WidthOf(payload[0]);
      match FixedSize(w)
      case None => Err(if w == EscapeVar then EscapeFrame(index) else ReservedFrame(index))
      case Some(n) =>
        if n > |payload| then Err(ShortFrame(index))
        else
          var frame := if w == Fixed32 then I32(DecodeInstruction(payload[..n]).value) else Raw(w, payload[..n]);
          match Split(payload[n..], index + 1)
          case Ok(rest) => Ok([frame] + rest)
          case Err(e) => Err(e)
  }

  /** All the bytes of the frames, in order. */
  function Flatten(frames: seq<Frame>): Bytes {
    if frames == [] then [] else frames[0].Image() + Flatten(frames[1..])
  }

  predicate AllFit(frames: seq<Frame>) {
    forall i :: 0 <= i < |frames| ==> frames[i].Fits()
  }

  lemma InstructionRoundTrip(b: Bytes, i: Instruction)
    ensures DecodeInstruction(b).Ok? ==>
              EncodeInstruction(DecodeInstruction(b).value) == b[..32] && I32(DecodeInstruction(b).value).Fits()
    ensures DecodeInstruction(EncodeInstruction(i)) == Ok(i) <==> I32(i).Fits()
  {
    hide WidthOf;
    var e := EncodeInstruction(i);
    if |i.payload| == 26 {
      assert e[6..32] == i.payload;
    }
  }

  /** A frame's bytes: as many as it says, and its first byte says so. */
  lemma ImageLength(f: Frame)
    requires f.Fits()
    ensures |f.Image()| == f.ByteLen() > 0 && f.ByteLen() % 32 == 0
    ensures FixedSize(WidthOf(f.Image()[0])) == Some(f.ByteLen())
  {
    hide WidthOf;
  }

  // ---------------------------------------------------------------------
  // Splitting is the inverse of concatenation
  // ---------------------------------------------------------------------

  /** The frame at the front of a payload. */
  function FrameOf(bytes: Bytes): Frame
    requires bytes != []
  {
    if WidthOf(bytes[0]) == Fixed32 && |bytes| >= 32 then I32(DecodeInstruction(bytes).value)
      else Raw(WidthOf(bytes[0]), bytes)
  }

  lemma FrameIs(bytes: Bytes)
    requires bytes != [] && FixedSize(WidthOf(bytes[0])) == Some(|bytes|)
    ensures FrameOf(bytes).Fits() && FrameOf(bytes).Image() == bytes
  {
    hide WidthOf;
    InstructionRoundTrip(bytes, Instruction(0, 0, 0, 0, 0, 0, []));
    assert bytes[..|bytes|] == bytes;
  }

  lemma FrameOfImage(f: Frame)
    requires f.Fits()
    ensures f.Image() != [] && FrameOf(f.Image()) == f
  {
    hide WidthOf;
    ImageLength(f);
    if f.I32? {
      InstructionRoundTrip([], f.ins);
    }
  }

  /** A successful split cuts off one frame and splits the rest. */
  lemma SplitCut(payload: Bytes, index: nat) returns (n: nat)
    requires Split(payload, index).Ok? && payload != []
    ensures 0 < n <= |payload| && FixedSize(WidthOf(payload[0])) == Some(n)
    ensures Split(payload[n..], index + 1).Ok?
    ensures Split(payload, index).value == [FrameOf(payload[..n])] + Split(payload[n..], index + 1).value
  {
    hide WidthOf, DecodeInstruction;
    n := FixedSize(WidthOf(payload[0])).value;
    assert payload[..n][0] == payload[0];
  }

  /** What a successful split returns is the payload, cut into frames of the widths their first bytes name. */
  lemma {:induction false} SplitSound(payload: Bytes, index: nat)
    requires Split(payload, index).Ok?
    ensures AllFit(Split(payload, index).value) && Flatten(Split(payload, index).value) == payload
    decreases |payload|
  {
    if payload != [] {
      hide Split, FrameOf, WidthOf;
      var n := SplitCut(payload, index);
      SplitSound(payload[n..], index + 1);
      FrameIs(payload[..n]);
      assert payload == payload[..n] + payload[n..];
    }
  }

  /** Splitting the bytes of any such frames gives those frames back: no payload splits two ways. */
  lemma {:induction false} SplitComplete(frames: seq<Frame>, index: nat)
    requires AllFit(frames)
    ensures Split(Flatten(frames), index) == Ok(frames)
    decreases |frames|
  {
    if frames != [] {
      hide Split;
      var f, rest := frames[0], frames[1..];
      SplitComplete(rest, index + 1);
      SplitFront(f, Flatten(rest), index);
      assert frames == [f] + rest;
    } else {
      assert Flatten(frames) == [];
    }
  }

  lemma SplitFront(f: Frame, tail: Bytes, index: nat)
    requires f.Fits() && Split(tail, index + 1).Ok?
    ensures Split(f.Image() + tail, index) == Ok([f] + Split(tail, index + 1).value)
  {
    hide WidthOf, DecodeInstruction;
    var p, n := f.Image() + tail, f.ByteLen();
    ImageLength(f);
    FrameOfImage(f);
    assert p[..n] == f.Image() && p[n..] == tail && p[0] == f.Image()[0];
  }

  /** A payload splits exactly when it is a concatenation of fitting frames, and then into just those. */
  lemma SplitExactly(payload: Bytes, frames: seq<Frame>)
    ensures Split(payload, 0) == Ok(frames) <==> AllFit(frames) && Flatten(frames) == payload
  {
    hide Flatten, AllFit;
    if Split(payload, 0) == Ok(frames) {
      SplitSound(payload, 0);
    }
    if AllFit(frames) && Flatten(frames) == payload {
      SplitComplete(frames, 0);
    }
  }

  lemma {:induction false} FlattenLength(frames: seq<Frame>)
    requires AllFit(frames)
    ensures |Flatten(frames)| % 32 == 0
  {
    if frames != [] {
      ImageLength(frames[0]);
      FlattenLength(frames[1..]);
    }
  }

  // ---------------------------------------------------------------------
  // Header
  // ---------------------------------------------------------------------

  const MAGIC: Bytes := [0x4D, 0x33, 0x42, 0x43]

  /** REQUIRED bits this loader knows: 50 and 51. */
  const SUPPORTED: bv64 := 0x000C_0000_0000_0000

  datatype Header = Header(major: bv16, minor: bv16, patch: bv16, required: bv64, optional: bv64, entry: bv32)

  /** `encode_body`: the 30 bytes the checksum covers. */
  function EncodeBody(h: Header): Bytes {
    MAGIC + Put16(h.major) + Put16(h.minor) + Put16(h.patch) + Put64(h.required) + Put64(h.optional) + Put32(h.entry)
  }

  /** `parse`. */
  function Parse(data: Bytes): Result<Header, LoadError> {
    if |data| < 34 then Err(ShortHeader)
    else if data[0..4] != MAGIC then Err(NoMagic)
    else Ok(Header(Get16(data[4..6]), Get16(data[6..8]), Get16(data[8..10]), Get64(data[10..18]), Get64(data[18..26]),
      Get32(data[26..30])))
  }

  lemma BodyFields(h: Header)
    ensures |EncodeBody(h)| == 30
    ensures var b := EncodeBody(h);
            && b[0..4] == MAGIC && b[4..6] == Put16(h.major) && b[6..8] == Put16(h.minor) && b[8..10] == Put16(h.patch)
            && b[10..18] == Put64(h.required) && b[18..26] == Put64(h.optional) && b[26..30] == Put32(h.entry)
  {
    hide Put16, Put32, Put64;
    Field16(h.major, []);
    Field16(h.minor, []);
    Field16(h.patch, []);
    Field64(h.required, []);
    Field64(h.optional, []);
    Field32(h.entry, []);
  }

  /** A parsed header is the first 30 bytes, field by field, and back. */
  lemma HeaderRoundTrip(h: Header, data: Bytes)
    ensures |data| >= 34 && data[..30] == EncodeBody(h) ==> Parse(data) == Ok(h)
    ensures Parse(data).Ok? ==> data[..30] == EncodeBody(Parse(data).value)
  {
    hide Put16, Put32, Put64, Get16, Get32, Get64, EncodeBody;
    if |data| >= 34 {
      var b := data[..30];
      assert b[0..4] == data[0..4] && b[4..6] == data[4..6] && b[6..8] == data[6..8] && b[8..10] == data[8..10];
      assert b[10..18] == data[10..18] && b[18..26] == data[18..26] && b[26..30] == data[26..30];
      if b == EncodeBody(h) {
        BodyFields(h);
        Field16(h.major, []);
        Field16(h.minor, []);
        Field16(h.patch, []);
        Field64(h.required, []);
        Field64(h.optional, []);
        Field32(h.entry, []);
      }
      if Parse(data).Ok? {
        var g := Parse(data).value;
        BodyFields(g);
        Field16(0, data[4..6]);
        Field16(0, data[6..8]);
        Field16(0, data[8..10]);
        Field64(0, data[10..18]);
        Field64(0, data[18..26]);
        Field32(0, data[26..30]);
        Pieces(b);
        Pieces(EncodeBody(g));
      }
    }
  }

  lemma Pieces(b: Bytes)
    requires |b| == 30
    ensures b == b[0..4] + b[4..6] + b[6..8] + b[8..10] + b[10..18] + b[18..26] + b[26..30]
  {
  }

  // ---------------------------------------------------------------------
  // Loading
  // ---------------------------------------------------------------------

  datatype Format = M3bc | Legacy

  datatype Program = Program(format: Format, header: Option<Header>, entry: bv32, frames: seq<Frame>)

  /** `sniff`: the first four bytes decide. */
  function Sniff(data: Bytes): Format {
    if |data| >= 4 && data[0..4] == MAGIC then M3bc else Legacy
  }

  /** Where frame `k` starts. */
  function Offset(frames: seq<Frame>, k: nat): nat
    requires k <= |frames|
  {
    if k == 0 then 0 else Offset(frames, k - 1) + frames[k - 1].ByteLen()
  }

  /** One of the first `upto` frames starts at `entry`, offsets being cut to 32 bits. */
  ghost predicate Starts(frames: seq<Frame>, entry: nat, upto: nat)
    requires upto <= |frames|
  {
    exists k :: 0 <= k < upto && Offset(frames, k) % TWO32 == entry
  }

  /** A frame starts at this very offset. */
  ghost predicate FrameAt(frames: seq<Frame>, at: int) {
    exists k :: 0 <= k < |frames| && Offset(frames, k) == at
  }

  ghost predicate EntryOk(frames: seq<Frame>, entry: nat) {
    entry == 0 || Starts(frames, entry, |frames|)
  }

  /** The bytes the checksum covers: all but the checksum. */
  function Covered(data: Bytes): Bytes
    requires |data| >= 34
  {
    data[..30] + data[34..]
  }

  function Unknown(required: bv64): bv64 {
    required & !SUPPORTED
  }

  /** What `load_m3bc` answers. */
  ghost function LoadM3bc(data: Bytes): Result<Program, LoadError> {
    match Parse(data)
    case Err(e) => Err(e)
    case Ok(h) =>
      if h.major != 1 then Err(WrongVersion)
      else if Unknown(h.required) != 0 then Err(Unsupported(Unknown(h.required)))
      else if Crc32.Crc(Covered(data)) != Get32(data[30..34]) then Err(BadChecksum)
      else
        match Split(data[34..], 0)
        case Err(e) => Err(e)
        case Ok(frames) =>
          if EntryOk(frames, h.entry as nat) then Ok(Program(M3bc, Some(h), h.entry, frames)) else Err(EntryNotOnFrame)
  }

  /** The 32-byte chunks of a file without header, the first of which has number `index`. */
  function Chunks(data: Bytes, index: nat): Result<seq<Frame>, LoadError>
    requires |data| % 32 == 0
    decreases |data|
  {
    if data == [] then Ok([])
    else
      match DecodeInstruction(data[..32])
      case Err(e) => Err(LegacyChunk(index, e))
      case Ok(ins) =>
        match Chunks(data[32..], index + 1)
        case Err(e) => Err(e)
        case Ok(rest) => Ok([I32(ins)] + rest)
  }

  ghost function Load(data: Bytes): Result<Program, LoadError> {
    if Sniff(data) == M3bc then LoadM3bc(data)
    else if |data| % 32 != 0 then Err(LegacyLength)
    else
      match Chunks(data, 0)
      case Err(e) => Err(e)
      case Ok(frames) => Ok(Program(Legacy, None, 0, frames))
  }

  /** What `encode_m3bc` builds. */
  function Encoded(h: Header, payload: Bytes): Bytes {
    EncodeBody(h) + Put32(Crc32.Crc(EncodeBody(h) + payload)) + payload
  }

  // ---------------------------------------------------------------------
  // Round trip
  // ---------------------------------------------------------------------

  lemma EncodedParts(h: Header, payload: Bytes)
    ensures var data := Encoded(h, payload);
            && |data| == 34 + |payload| && data[..30] == EncodeBody(h) && data[34..] == payload
            && Covered(data) == EncodeBody(h) + payload && Get32(data[30..34]) == Crc32.Crc(Covered(data))
            && Sniff(data) == M3bc && Parse(data) == Ok(h)
  {
    hide Put32, Get32, EncodeBody, Parse, Crc32.Crc;
    var data := Encoded(h, payload);
    var crc := Crc32.Crc(EncodeBody(h) + payload);
    BodyFields(h);
    Field32(crc, []);
    assert data[30..34] == Put32(crc);
    assert data[..30] == EncodeBody(h);
    HeaderRoundTrip(h, data);
    assert data[0..4] == data[..30][0..4];
  }

  /**
    An encoded container loads exactly when its version is 1, it requires only known
    features, its payload splits and its entry is zero or cuts to a frame start; and then
    the header comes back with frames whose bytes are the payload.
  */
  lemma EncodeThenLoad(h: Header, payload: Bytes, frames: seq<Frame>)
    ensures Load(Encoded(h, payload)) == Ok(Program(M3bc, Some(h), h.entry, frames)) <==>
              h.major == 1 && Unknown(h.required) == 0 && AllFit(frames) && Flatten(frames) == payload
                && EntryOk(frames, h.entry as nat)
    ensures Load(Encoded(h, payload)).Ok? ==>
              exists fs: seq<Frame> :: Load(Encoded(h, payload)) == Ok(Program(M3bc, Some(h), h.entry, fs))
  {
    hide Encoded, Parse, Covered, Crc32.Crc, Get32, Split, Flatten, AllFit, EntryOk, Unknown;
    EncodedParts(h, payload);
    SplitExactly(payload, frames);
    var data := Encoded(h, payload);
    if Load(data).Ok? {
      assert Load(data) == Ok(Program(M3bc, Some(h), h.entry, Split(payload, 0).value));
    }
  }

  /** A container that loads is byte for byte the encoding of what was loaded. */
  lemma LoadThenEncode(data: Bytes)
    requires Load(data).Ok? && Sniff(data) == M3bc
    ensures Load(data).value.header.Some?
    ensures data == Encoded(Load(data).value.header.value, Flatten(Load(data).value.frames))
  {
    hide Parse, Crc32.Crc, Get32, Put32, Split, Flatten, AllFit, EntryOk, Unknown, EncodeBody;
    var h := Parse(data).value;
    HeaderRoundTrip(h, data);
    ParsedLength(data);
    SplitSound(data[34..], 0);
    Field32(0, data[30..34]);
    assert data == data[..30] + data[30..34] + data[34..];
  }

  lemma ParsedLength(data: Bytes)
    requires Parse(data).Ok?
    ensures |data| >= 34
  {
  }

  // ---------------------------------------------------------------------
  // Entry points
  // ---------------------------------------------------------------------

  lemma {:induction false} OffsetMonotone(frames: seq<Frame>, i: nat, k: nat)
    requires AllFit(frames) && i < k <= |frames|
    ensures Offset(frames, i) < Offset(frames, k)
  {
    ImageLength(frames[k - 1]);
    if i < k - 1 {
      OffsetMonotone(frames, i, k - 1);
    }
  }

  lemma {:induction false} OffsetIsLength(frames: seq<Frame>, k: nat)
    requires AllFit(frames) && k <= |frames|
    ensures Offset(frames, k) == |Flatten(frames[..k])|
    decreases k
  {
    if k > 0 {
      OffsetIsLength(frames, k - 1);
      assert frames[..k] == frames[..k - 1] + [frames[k - 1]];
      FlattenAppend(frames[..k - 1], frames[k - 1]);
      ImageLength(frames[k - 1]);
    }
  }

  lemma {:induction false} FlattenAppend(frames: seq<Frame>, f: Frame)
    ensures Flatten(frames + [f]) == Flatten(frames) + f.Image()
  {
    if frames != [] {
      assert (frames + [f])[0] == frames[0] && (frames + [f])[1..] == frames[1..] + [f];
      FlattenAppend(frames[1..], f);
    }
  }

  /** Cut to 32 bits, every frame's offset is still zero or the start of a frame. */
  ghost predicate CutsOnFrames(frames: seq<Frame>) {
    forall k :: 0 <= k < |frames| ==>
      Offset(frames, k) % TWO32 == 0 || FrameAt(frames, Offset(frames, k) % TWO32)
  }

  /** The entries accepted are exactly zero and the frame starts, if and only if no offset is cut to anything else. */
  lemma EntryExactly(frames: seq<Frame>)
    ensures (forall entry: nat :: entry < TWO32 ==> (EntryOk(frames, entry) <==> entry == 0 || FrameAt(frames, entry)))
      <==> CutsOnFrames(frames)
  {
    hide Offset;
    if CutsOnFrames(frames) {
      forall entry: nat | entry < TWO32 ensures EntryOk(frames, entry) <==> entry == 0 || FrameAt(frames, entry) {
        EntryOnFrame(frames, entry);
      }
    }
    if forall entry: nat :: entry < TWO32 ==> (EntryOk(frames, entry) <==> entry == 0 || FrameAt(frames, entry)) {
      forall k | 0 <= k < |frames|
        ensures Offset(frames, k) % TWO32 == 0 || FrameAt(frames, Offset(frames, k) % TWO32)
      {
        assert Starts(frames, Offset(frames, k) % TWO32, |frames|);
        assert EntryOk(frames, Offset(frames, k) % TWO32);
      }
    }
  }

  lemma EntryOnFrame(frames: seq<Frame>, entry: nat)
    requires entry < TWO32 && CutsOnFrames(frames)
    ensures EntryOk(frames, entry) <==> entry == 0 || FrameAt(frames, entry)
  {
    hide Offset;
    if FrameAt(frames, entry) {
      var k :| 0 <= k < |frames| && Offset(frames, k) == entry;
      assert Offset(frames, k) % TWO32 == entry;
    }
    if Starts(frames, entry, |frames|) {
      var k :| 0 <= k < |frames| && Offset(frames, k) % TWO32 == entry;
    }
  }

  /** In particular in a payload whose last frame starts below 2^32 bytes. */
  lemma SmallCuts(frames: seq<Frame>)
    requires AllFit(frames) && (frames != [] ==> Offset(frames, |frames| - 1) < TWO32)
    ensures CutsOnFrames(frames)
  {
    hide AllFit, Offset;
    forall k | 0 <= k < |frames|
      ensures Offset(frames, k) % TWO32 == 0 || FrameAt(frames, Offset(frames, k) % TWO32)
    {
      if k < |frames| - 1 {
        OffsetMonotone(frames, k, |frames| - 1);
      }
      assert Offset(frames, k) % TWO32 == Offset(frames, k);
    }
  }

  /** So in a payload of at most 2^32 bytes an entry is accepted exactly when it is zero or a frame starts there. */
  lemma EntryExact(frames: seq<Frame>, entry: nat)
    requires AllFit(frames) && |Flatten(frames)| <= TWO32 && entry < TWO32
    ensures EntryOk(frames, entry) <==> entry == 0 || FrameAt(frames, entry)
  {
    hide AllFit, Flatten, Offset, EntryOk, FrameAt, CutsOnFrames;
    if frames != [] {
      OffsetIsLength(frames, |frames|);
      assert frames[..|frames|] == frames;
      OffsetMonotone(frames, |frames| - 1, |frames|);
    }
    SmallCuts(frames);
    EntryOnFrame(frames, entry);
  }

  /** One 64-byte frame and then `m` 32-byte ones. */
  function Long(m: nat): (frames: seq<Frame>)
    ensures |frames| == m + 1
  {
    [Raw(Fixed64, seq(64, _ => 0x80))] + seq(m, _ => I32(Instruction(0, 0, 0, 0, 0, 0, seq(26, _ => 0))))
  }

  lemma {:induction false} LongOffset(m: nat, k: nat)
    requires k <= m + 1
    ensures Offset(Long(m), k) == if k == 0 then 0 else 32 + 32 * k
    decreases k
  {
    if k > 0 {
      LongOffset(m, k - 1);
    }
  }

  /** Beyond 2^32 bytes the cut lets in an entry that no frame starts at: 32, inside the first frame. */
  lemma EntryWraps()
    ensures var frames := Long(0x800_0000);
            AllFit(frames) && EntryOk(frames, 32) && !FrameAt(frames, 32)
  {
    hide Long, Offset;
    var frames := Long(0x800_0000);
    LongFits(0x800_0000);
    LongOffset(0x800_0000, 0x800_0000);
    assert Offset(frames, 0x800_0000) % TWO32 == 32;
    assert Starts(frames, 32, |frames|);
    forall k | 0 <= k < |frames| ensures Offset(frames, k) != 32 {
      LongOffset(0x800_0000, k);
    }
  }

  lemma LongFits(m: nat)
    ensures AllFit(Long(m))
  {
  }

  // ---------------------------------------------------------------------
  // Damage
  // ---------------------------------------------------------------------

  lemma LoadedLength(data: Bytes)
    requires LoadM3bc(data).Ok?
    ensures |data| >= 34 && |data| % 32 == 2
  {
    hide Parse, Crc32.Crc, Get32, Flatten, AllFit, EntryOk, Unknown, Split;
    ParsedLength(data);
    SplitSound(data[34..], 0);
    FlattenLength(Split(data[34..], 0).value);
  }

  lemma Checked(data: Bytes)
    requires LoadM3bc(data).Ok?
    ensures |data| >= 34 && Crc32.Crc(Covered(data)) == Get32(data[30..34])
  {
    hide Crc32.Crc, Get32, Parse, Split, EntryOk, Unknown;
    ParsedLength(data);
  }

  /**
    A container that loads and is then changed inside at most four consecutive bytes, all
    before, in, or after its checksum field, no longer loads.
  */
  lemma DamageDetected(data: Bytes, bad: Bytes, p: nat, k: nat)
    requires Load(data).Ok? && Sniff(data) == M3bc
    requires |bad| == |data| && bad != data && k <= 4 && p + k <= |data|
    requires bad[..p] == data[..p] && bad[p + k..] == data[p + k..]
    requires p + k <= 30 || (30 <= p && p + k <= 34) || 34 <= p
    ensures Load(bad).Err?
  {
    hide Crc32.Crc, Get32, Parse, Split, EntryOk, Unknown, Covered, Chunks;
    LoadedLength(data);
    if Sniff(bad) == M3bc && LoadM3bc(bad).Ok? {
      Checked(data);
      Checked(bad);
      if 30 <= p && p + k <= 34 {
        ChecksumChanged(data, bad, p, k);
      } else {
        CoveredChanged(data, bad, p, k);
        var q := if p < 30 then p else p - 4;
        Crc32.WindowDetected(Covered(data), Covered(bad), q, k);
      }
    }
  }

  lemma ChecksumChanged(data: Bytes, bad: Bytes, p: nat, k: nat)
    requires |bad| == |data| >= 34 && bad != data && 30 <= p && p + k <= 34
    requires bad[..p] == data[..p] && bad[p + k..] == data[p + k..]
    ensures Covered(bad) == Covered(data) && Get32(bad[30..34]) != Get32(data[30..34])
  {
    hide Get32;
    assert bad[..30] == bad[..p][..30] && data[..30] == data[..p][..30];
    assert bad[34..] == bad[p + k..][34 - p - k..] && data[34..] == data[p + k..][34 - p - k..];
    Field32(0, bad[30..34]);
    Field32(0, data[30..34]);
    assert bad == bad[..30] + bad[30..34] + bad[34..];
    assert data == data[..30] + data[30..34] + data[34..];
  }

  lemma CoveredChanged(data: Bytes, bad: Bytes, p: nat, k: nat)
    requires |bad| == |data| >= 34 && bad != data && p + k <= |data| && (p + k <= 30 || 34 <= p)
    requires bad[..p] == data[..p] && bad[p + k..] == data[p + k..]
    ensures bad[30..34] == data[30..34] && Covered(bad) != Covered(data)
        && |Covered(bad)| == |Covered(data)| == |data| - 4
    ensures var q := if p < 30 then p else p - 4;
            q + k <= |data| - 4 && Covered(bad)[..q] == Covered(data)[..q]
              && Covered(bad)[q + k..] == Covered(data)[q + k..]
  {
    Agree(data, bad, p, k);
    var c, d := Covered(data), Covered(bad);
    var q := if p < 30 then p else p - 4;
    assert forall j :: 0 <= j < |c| ==>
        c[j] == data[if j < 30 then j else j + 4] && d[j] == bad[if j < 30 then j else j + 4];
    assert c[..q] == d[..q] && c[q + k..] == d[q + k..];
    var i :| 0 <= i < |data| && bad[i] != data[i];
    assert d[if i < 30 then i else i - 4] == bad[i];
  }

  lemma Agree(data: Bytes, bad: Bytes, p: nat, k: nat)
    requires |bad| == |data| && p + k <= |data| && bad[..p] == data[..p] && bad[p + k..] == data[p + k..]
    ensures forall i :: 0 <= i < |data| && !(p <= i < p + k) ==> bad[i] == data[i]
  {
    assert forall i :: 0 <= i < p ==> bad[i] == bad[..p][i] == data[..p][i] == data[i];
    assert forall i :: p + k <= i < |data| ==> bad[i] == bad[p + k..][i - p - k] == data[p + k..][i - p - k] == data[i];
  }

  // ---------------------------------------------------------------------
  // The functions of the source
  // ---------------------------------------------------------------------

  /** `encode_m3bc`. */
  method EncodeM3bc(h: Header, payload: Bytes) returns (out: Bytes)
    ensures out == Encoded(h, payload)
  {
    hide EncodeBody, Put32, Crc32.Crc;
    var body := EncodeBody(h);
    var crc := Crc32.Crc32Ieee(body + payload);
    out := body;
    out := out + Put32(crc);
    out := out + payload;
  }

  /** What is left of a split once `done` has been cut off the front. */
  function After(done: seq<Frame>, rest: Result<seq<Frame>, LoadError>): Result<seq<Frame>, LoadError> {
    match rest
    case Ok(frames) => Ok(done + frames)
    case Err(e) => Err(e)
  }

  lemma AfterMore(done: seq<Frame>, f: Frame, rest: Result<seq<Frame>, LoadError>)
    ensures After(done + [f], rest) == After(done, After([f], rest))
  {
    if rest.Ok? {
      assert done + [f] + rest.value == done + ([f] + rest.value);
    }
  }

  /** `split_frames`. */
  method SplitFrames(payload: Bytes) returns (r: Result<seq<Frame>, LoadError>)
    ensures r == Split(payload, 0)
  {
    hide WidthOf, DecodeInstruction, After;
    var frames: seq<Frame> := [];
    var off, idx := 0, 0;
    AfterEnds(frames);
    assert payload[0..] == payload;
    AfterNone(Split(payload, 0));
    while off < |payload|
      invariant off <= |payload|
      invariant Split(payload, 0) == After(frames, Split(payload[off..], idx))
    {
      var op := payload[off];
      var width := WidthOf(op);
      AfterErrs(frames, if width == EscapeVar then EscapeFrame(idx) else ReservedFrame(idx));
      AfterErrs(frames, ShortFrame(idx));
      match FixedSize(width)
      case None =>
        return Err(if width == EscapeVar then EscapeFrame(idx) else ReservedFrame(idx));
      case Some(n) =>
        if off + n > |payload| {
          return Err(ShortFrame(idx));
        }
        var bytes := payload[off..off + n];
        SplitStep(payload, off, n, idx);
        DecodesFixed(bytes);
        var frame: Frame;
        if width == Fixed32 {
          frame := I32(DecodeInstruction(bytes).value);
        } else {
          frame := Raw(width, bytes);
        }
        AfterMore(frames, frame, Split(payload[off + n..], idx + 1));
        frames := frames + [frame];
        off := off + n;
        idx := idx + 1;
    }
    AfterEnds(frames);
    r := Ok(frames);
  }

  lemma DecodesFixed(bytes: Bytes)
    ensures |bytes| >= 32 && WidthOf(bytes[0]) == Fixed32 ==> DecodeInstruction(bytes).Ok?
  {
  }

  lemma SplitStep(payload: Bytes, off: nat, n: nat, idx: nat)
    requires off < |payload| && FixedSize(WidthOf(payload[off])) == Some(n) && off + n <= |payload|
    ensures var w := WidthOf(payload[off]);
            var bytes := payload[off..off + n];
            var frame := if w == Fixed32 then I32(DecodeInstruction(bytes).value) else Raw(w, bytes);
            Split(payload[off..], idx) == After([frame], Split(payload[off + n..], idx + 1))
  {
    hide WidthOf, DecodeInstruction;
    assert payload[off..][..n] == payload[off..off + n] && payload[off..][n..] == payload[off + n..];
  }

  lemma AfterEnds(done: seq<Frame>)
    ensures After(done, Ok([])) == Ok(done)
  {
    assert done + [] == done;
  }

  lemma AfterNone(rest: Result<seq<Frame>, LoadError>)
    ensures After([], rest) == rest
  {
    if rest.Ok? {
      assert [] + rest.value == rest.value;
    }
  }

  lemma AfterErrs(done: seq<Frame>, e: LoadError)
    ensures After(done, Err(e)) == Err(e)
  {
  }

  /** The scan over the frames for one that starts at the entry. */
  method FindEntry(frames: seq<Frame>, entry: nat) returns (aligned: bool)
    ensures aligned <==> EntryOk(frames, entry)
  {
    var off := 0;
    aligned := entry == 0;
    for k := 0 to |frames|
      invariant off == Offset(frames, k) && !Starts(frames, entry, k)
      invariant aligned <==> entry == 0
    {
      if off % TWO32 == entry {
        return true;
      }
      off := off + frames[k].ByteLen();
    }
  }

  /** `load_m3bc`. */
  method LoadContainer(data: Bytes) returns (r: Result<Program, LoadError>)
    ensures r == LoadM3bc(data)
  {
    hide Get16, Get32, Get64, EntryOk, Unknown, Crc32.Crc, Split;
    var parsed := Parse(data);
    if parsed.Err? {
      return Err(parsed.error);
    }
    var h := parsed.value;
    if h.major != 1 {
      return Err(WrongVersion);
    }
    var unsupported := Unknown(h.required);
    if unsupported != 0 {
      return Err(Unsupported(unsupported));
    }
    var want := Crc32.Crc32Ieee(data[..30] + data[34..]);
    if want != Get32(data[30..34]) {
      return Err(BadChecksum);
    }
    var split := SplitFrames(data[34..]);
    if split.Err? {
      return Err(split.error);
    }
    var aligned := FindEntry(split.value, h.entry as nat);
    if !aligned {
      return Err(EntryNotOnFrame);
    }
    r := Ok(Program(M3bc, Some(h), h.entry, split.value));
  }

  /** `load_legacy`. */
  method LoadLegacy(data: Bytes) returns (r: Result<Program, LoadError>)
    requires Sniff(data) == Legacy
    ensures r == Load(data)
  {
    hide DecodeInstruction, After;
    if |data| % 32 != 0 {
      return Err(LegacyLength);
    }
    var frames: seq<Frame> := [];
    AfterNone(Chunks(data, 0));
    assert data[0..] == data;
    for i := 0 to |data| / 32
      invariant Chunks(data, 0) == After(frames, Chunks(data[32 * i..], i))
    {
      var rest := data[32 * i..];
      assert rest[..32] == data[32 * i..32 * i + 32] && rest[32..] == data[32 * (i + 1)..];
      var ins := DecodeInstruction(data[32 * i..32 * i + 32]);
      if ins.Err? {
        AfterErrs(frames, LegacyChunk(i, ins.error));
        return Err(LegacyChunk(i, ins.error));
      }
      ChunksStep(rest, i);
      AfterMore(frames, I32(ins.value), Chunks(rest[32..], i + 1));
      frames := frames + [I32(ins.value)];
    }
    AfterEnds(frames);
    r := Ok(Program(Legacy, None, 0, frames));
  }

  lemma ChunksStep(rest: Bytes, i: nat)
    requires |rest| % 32 == 0 && rest != [] && DecodeInstruction(rest[..32]).Ok?
    ensures Chunks(rest, i) == After([I32(DecodeInstruction(rest[..32]).value)], Chunks(rest[32..], i + 1))
  {
  }

  /** `load`. */
  method LoadBytes(data: Bytes) returns (r: Result<Program, LoadError>)
    ensures r == Load(data)
  {
    hide LoadM3bc;
    if Sniff(data) == M3bc {
      r := LoadContainer(data);
    } else {
      r := LoadLegacy(data);
    }
  }

  /** Every chunk starts with the opcode of a 32-byte instruction. */
  ghost predicate AllNarrow(data: Bytes) {
    forall k :: 0 <= k < |data| && k % 32 == 0 ==> WidthOf(data[k]) == Fixed32
  }

  lemma NarrowStep(data: Bytes)
    requires |data| >= 32
    ensures AllNarrow(data) <==> WidthOf(data[0]) == Fixed32 && AllNarrow(data[32..])
  {
    hide WidthOf;
    var rest := data[32..];
    assert forall k :: 0 <= k < |rest| ==> rest[k] == data[k + 32];
    if WidthOf(data[0]) == Fixed32 && AllNarrow(rest) {
      forall k | 0 <= k < |data| && k % 32 == 0 ensures WidthOf(data[k]) == Fixed32 {
        if k > 0 {
          assert data[k] == rest[k - 32];
        }
      }
    }
  }

  /** A file without header loads exactly when it is 32-byte instructions end to end, and nothing of it is lost. */
  lemma {:induction false} ChunksExactly(data: Bytes, index: nat)
    requires |data| % 32 == 0
    ensures Chunks(data, index).Ok? <==> AllNarrow(data)
    ensures Chunks(data, index).Ok? ==> AllFit(Chunks(data, index).value) && Flatten(Chunks(data, index).value) == data
    decreases |data|
  {
    if data != [] {
      hide WidthOf, AllNarrow;
      var rest := data[32..];
      InstructionRoundTrip(data[..32], Instruction(0, 0, 0, 0, 0, 0, []));
      ChunksExactly(rest, index + 1);
      NarrowStep(data);
      assert data == data[..32] + rest && data[..32][..32] == data[..32];
    }
  }
}
