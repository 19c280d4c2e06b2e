/**
  What the tokenizer does with separators, unknown characters and long pieces, in literal
  bytes (src/inference.rs:1401-1491), and when the text can be had back from the ids.
*/
module TokenizerLaws {
  import opened Prelude
  import opened Tokenizer

  // ---------------------------------------------------------------------
  // Separators
  // ---------------------------------------------------------------------

  /** GPT-2 style: some piece starts with the two bytes of U+0120. */
  lemma StyleIs(vocab: Vocab)
    ensures Marked(vocab) <==> exists i :: 0 <= i < |vocab| && StartsMarked(vocab[i])
  {
    forall i | 0 <= i < |vocab| ensures SPACE_MARK <= vocab[i] <==> StartsMarked(vocab[i]) {
    }
  }

  predicate StartsMarked(piece: Text) {
    |piece| >= 2 && piece[0] == 0xC4 && piece[1] == 0xA0
  }

  /** A space becomes C4 A0 or E2 96 81, whatever is around it. */
  lemma SpaceMarked(gpt2: bool, a: Text, b: Text)
    ensures Preprocess(gpt2, a + [0x20] + b) ==
            Preprocess(gpt2, a) + (if gpt2 then [0xC4, 0xA0] else [0xE2, 0x96, 0x81]) + Preprocess(gpt2, b)
  {
    OneByte(gpt2, a, 0x20, b);
  }

  /** A newline becomes C4 8A in GPT-2 style, and stays otherwise. */
  lemma NewlineMarked(gpt2: bool, a: Text, b: Text)
    ensures Preprocess(gpt2, a + [0x0A] + b) ==
            Preprocess(gpt2, a) + (if gpt2 then [0xC4, 0x8A] else [0x0A]) + Preprocess(gpt2, b)
  {
    OneByte(gpt2, a, 0x0A, b);
  }

  lemma OneByte(gpt2: bool, a: Text, x: Byte, b: Text)
    ensures Preprocess(gpt2, a + [x] + b) == Preprocess(gpt2, a) + Translate(gpt2, x) + Preprocess(gpt2, b)
  {
    hide Translate;
    assert a + [x] + b == a + ([x] + b) && ([x] + b)[1..] == b;
    PreprocessAppend(gpt2, a, [x] + b);
  }

  /** Everything else stays. */
  lemma {:induction false} OthersStay(gpt2: bool, text: Text)
    requires forall i :: 0 <= i < |text| ==> text[i] != 0x20 && (gpt2 ==> text[i] != 0x0A)
    ensures Preprocess(gpt2, text) == text
  {
    if text != [] {
      OthersStay(gpt2, text[1..]);
      assert text == [text[0]] + text[1..];
    }
  }

  // ---------------------------------------------------------------------
  // Mapping the marks back
  // ---------------------------------------------------------------------

  /** The bytes of a mark stand at the front. */
  predicate MarkFirst(gpt2: bool, s: Text) {
    if gpt2 then |s| >= 2 && s[0] == 0xC4 && (s[1] == 0xA0 || s[1] == 0x8A)
    else |s| >= 3 && s[0] == 0xE2 && s[1] == 0x96 && s[2] == 0x81
  }

  /** Spaces and newlines for their marks. */
  function Unmark(gpt2: bool, s: Text): Text {
    if s == [] then []
    else if MarkFirst(gpt2, s) then
      if gpt2 then [if s[1] == 0xA0 then 0x20 else 0x0A] + Unmark(gpt2, s[2..]) else [0x20] + Unmark(gpt2, s[3..])
    else [s[0]] + Unmark(gpt2, s[1..])
  }

  ghost predicate NoMark(gpt2: bool, text: Text) {
    forall i :: 0 <= i <= |text| ==> !MarkFirst(gpt2, text[i..])
  }

  lemma NoMarkStep(gpt2: bool, text: Text, n: nat)
    requires n <= |text|
    requires forall i :: 0 <= i < n ==> !MarkFirst(gpt2, text[i..])
    ensures NoMark(gpt2, text) <==> NoMark(gpt2, text[n..])
  {
    assert forall i :: 0 <= i <= |text| - n ==> text[n..][i..] == text[i + n..];
    forall i | n <= i <= |text| && NoMark(gpt2, text[n..]) ensures !MarkFirst(gpt2, text[i..]) {
      assert text[n..][i - n..] == text[i..];
    }
  }

  /**
    Mapping the marks back gives the text exactly when it had none of its own; otherwise
    what comes back is shorter.
  */
  lemma {:induction false} MarksMapBack(gpt2: bool, text: Text)
    ensures var back := Unmark(gpt2, Preprocess(gpt2, text));
            (back == text <==> NoMark(gpt2, text)) && |back| <= |text| && (back != text ==> |back| < |text|)
    decreases |text|
  {
    hide NoMark, Translate;
    if text == [] {
      NoneInNothing(gpt2);
    } else if MarkFirst(gpt2, text) {
      var n := if gpt2 then 2 else 3;
      MarksMapBack(gpt2, text[n..]);
      OwnMark(gpt2, text, n);
    } else {
      MarksMapBack(gpt2, text[1..]);
      assert text[0..] == text;
      NoMarkStep(gpt2, text, 1);
      FirstByteBack(gpt2, text);
      assert text == [text[0]] + text[1..];
    }
  }

  lemma NoneInNothing(gpt2: bool)
    ensures NoMark(gpt2, [])
  {
  }

  lemma OwnMark(gpt2: bool, text: Text, n: nat)
    requires MarkFirst(gpt2, text) && n == if gpt2 then 2 else 3
    ensures !NoMark(gpt2, text)
    ensures |Unmark(gpt2, Preprocess(gpt2, text))| == 1 + |Unmark(gpt2, Preprocess(gpt2, text[n..]))|
  {
    assert text[0..] == text;
    assert text == text[..n] + text[n..];
    PreprocessAppend(gpt2, text[..n], text[n..]);
    PreprocessWide(gpt2, text[..n]);
    var p := Preprocess(gpt2, text);
    assert MarkFirst(gpt2, p) && p[n..] == Preprocess(gpt2, text[n..]);
  }

  /** A byte that starts no mark comes back. */
  lemma FirstByteBack(gpt2: bool, text: Text)
    requires text != [] && !MarkFirst(gpt2, text)
    ensures Unmark(gpt2, Preprocess(gpt2, text)) == [text[0]] + Unmark(gpt2, Preprocess(gpt2, text[1..]))
  {
    var p, rest := Preprocess(gpt2, text), Preprocess(gpt2, text[1..]);
    if text[0] == 0x20 {
      assert p[|Translate(gpt2, 0x20)|..] == rest;
    } else if text[0] == 0x0A && gpt2 {
      assert p[2..] == rest;
    } else {
      assert p == [text[0]] + rest && p[1..] == rest;
      MarkWasThere(gpt2, text);
    }
  }

  /** A mark that starts with a byte of the text is all of the text. */
  lemma MarkWasThere(gpt2: bool, text: Text)
    requires text != [] && Translate(gpt2, text[0]) == [text[0]]
    ensures MarkFirst(gpt2, Preprocess(gpt2, text)) ==> MarkFirst(gpt2, text)
  {
    var rest := text[1..];
    if MarkFirst(gpt2, Preprocess(gpt2, text)) {
      Heads(gpt2, rest);
      if !gpt2 {
        assert rest[0] == 0x96;
        Heads(gpt2, rest[1..]);
        assert Preprocess(gpt2, rest) == [rest[0]] + Preprocess(gpt2, rest[1..]);
      }
    }
  }

  /** Replacing makes no byte that continues a character. */
  lemma Heads(gpt2: bool, text: Text)
    ensures Preprocess(gpt2, text) == [] <==> text == []
    ensures text != [] && Continues(Preprocess(gpt2, text)[0]) ==> text[0] == Preprocess(gpt2, text)[0]
  {
  }

  /**
    Lossless: when every character is a piece, the text is had back from its ids by
    mapping the marks back, exactly when it holds no mark of its own.
  */
  lemma TextComesBack(vocab: Vocab, text: Text)
    requires |vocab| <= TWO32 && Utf8(text) && text != []
    requires AllKnown(Index(vocab), Preprocess(Marked(vocab), text))
    ensures InRange(vocab, Tokenized(vocab, text))
    ensures Unmark(Marked(vocab), Spell(vocab, Tokenized(vocab, text))) == text <==> NoMark(Marked(vocab), text)
  {
    hide Index, Utf8, AllKnown, Unmark, NoMark, InRange;
    Lossless(vocab, text);
    MarksMapBack(Marked(vocab), text);
  }

  // ---------------------------------------------------------------------
  // One round
  // ---------------------------------------------------------------------

  /** A character starts at `i`, or the text ends there. */
  predicate Cut(s: Text, i: nat) {
    i == |s| || i == 0 || (i < |s| && (s[i] < 0x80 || s[i] >= 0xC0))
  }

  /** A piece of at most 64 bytes that starts at `pos` ends at `e`. */
  predicate PieceTo(m: map<Text, nat>, s: Text, pos: nat, e: nat) {
    pos < e <= |s| && e - pos <= 64 && Cut(s, e) && s[pos..e] in m
  }

  const UPPER: seq<Byte> :=
    [0x30, 0x31, 0x32, 0x33, 0x34, 0x35, 0x36, 0x37, 0x38, 0x39, 0x41, 0x42, 0x43, 0x44, 0x45, 0x46]
  const LOWER: seq<Byte> :=
    [0x30, 0x31, 0x32, 0x33, 0x34, 0x35, 0x36, 0x37, 0x38, 0x39, 0x61, 0x62, 0x63, 0x64, 0x65, 0x66]

  /** The name of a byte: its two hexadecimal digits between `<0x` and `>`. */
  function NameOf(b: Byte, digits: seq<Byte>): Text
    requires |digits| == 16
  {
    [0x3C, 0x30, 0x78, digits[b as int / 16], digits[b as int % 16], 0x3E]
  }

  /** What an unmatched ASCII byte becomes: its name in capitals, in small letters, or its number in GPT-2 style. */
  function StandIn(m: map<Text, nat>, size: nat, gpt2: bool, b: Byte): seq<nat> {
    var n := b as nat;
    if n >= 128 then []
    else if NameOf(b, UPPER) in m then [m[NameOf(b, UPPER)]]
    else if NameOf(b, LOWER) in m then [m[NameOf(b, LOWER)]]
    else if gpt2 && n < size % 0x1_0000_0000 then [n]
    else []
  }

  lemma HexIs(n: Byte)
    requires n < 16
    ensures HexDigit(n, true) == UPPER[n as int] && HexDigit(n, false) == LOWER[n as int]
  {
  }

  lemma NameIs(b: Byte)
    ensures ByteName(b, true) == NameOf(b, UPPER) && ByteName(b, false) == NameOf(b, LOWER)
  {
    hide HexDigit, UPPER, LOWER;
    Nibbles(b);
    DigitsOf(b);
    HexIs(b >> 4);
    HexIs(b & 0x0F);
  }

  lemma DigitsOf(b: Byte)
    ensures (b >> 4) as int == b as int / 16 && (b & 0x0F) as int == b as int % 16
  {
  }

  /**
    One round: the longest piece of at most 64 bytes that starts here, if there is one;
    otherwise one character is passed, for which its stand-in is given.
  */
  lemma RoundIs(m: map<Text, nat>, size: nat, gpt2: bool, s: Text, pos: nat) returns (ids: seq<nat>, e: nat)
    requires Utf8(s) && Boundary(s, pos) && pos < |s|
    ensures pos < e <= |s| && Boundary(s, e) && Cut(s, e)
    ensures Tokens(m, size, gpt2, s, pos) == ids + Tokens(m, size, gpt2, s, e)
    ensures if exists k: nat :: PieceTo(m, s, pos, k) then
              PieceTo(m, s, pos, e) && ids == [m[s[pos..e]]] && forall k: nat :: PieceTo(m, s, pos, k) ==> k <= e
            else
              ids == StandIn(m, size, gpt2, s[pos]) && forall k: nat :: pos < k < e ==> !Cut(s, k)
  {
    hide Utf8, ByteName, NameOf, Longest, CharLen, Cut;
    LongestIs(m, s, pos);
    CharEnd(s, pos);
    NameIs(s[pos]);
    forall k: nat ensures PieceTo(m, s, pos, k) <==> Candidate(m, s, pos, k) {
      CutIs(s, k);
    }
    var (r, next) := Round(m, size, gpt2, s, pos);
    ids, e := r, next;
    CutIs(s, e);
    if Longest(m, s, pos).None? {
      PassesOne(s, pos, e);
    }
  }

  lemma CutIs(s: Text, k: nat)
    ensures Cut(s, k) <==> Boundary(s, k)
  {
  }

  lemma PassesOne(s: Text, pos: nat, e: nat)
    requires pos < e <= |s| && IsChar(s[pos..e])
    ensures forall k: nat :: pos < k < e ==> !Cut(s, k)
  {
    forall k: nat | pos < k < e ensures !Cut(s, k) {
      assert s[pos..e][k - pos] == s[k];
    }
  }
}
