/**
  The tokenizer of src/inference.rs:1401-1491: greedy longest match over UTF-8 text. Text
  is bytes; character boundaries are found as `is_char_boundary` finds them.
*/
module Tokenizer {
  import opened Prelude

  type Text = seq<Byte>

  const MAX_PIECE: nat := 64

  // ---------------------------------------------------------------------
  // UTF-8
  // ---------------------------------------------------------------------

  predicate Continues(b: Byte) {
    0x80 <= b && b < 0xC0
  }

  /** Bytes of the character that starts with `b`. */
  function CharLen(b: Byte): (n: nat)
    ensures 1 <= n <= 4
  {
    if b < 0x80 then 1 else if b < 0xE0 then 2 else if b < 0xF0 then 3 else 4
  }

  /** One character: a leading byte and as many continuing ones as it announces. */
  predicate IsChar(c: Text) {
    c != [] && !Continues(c[0]) && |c| == CharLen(c[0]) && forall i :: 1 <= i < |c| ==> Continues(c[i])
  }

  /** Characters end to end. */
  predicate Utf8(s: Text)
    decreases |s|
  {
    s == [] || (CharLen(s[0]) <= |s| && IsChar(s[..CharLen(s[0])]) && Utf8(s[CharLen(s[0])..]))
  }

  predicate Boundary(s: Text, i: nat) {
    i == |s| || (i < |s| && (i == 0 || !Continues(s[i])))
  }

  lemma {:induction false} Utf8Append(a: Text, b: Text)
    requires Utf8(a) && Utf8(b)
    ensures Utf8(a + b)
    decreases |a|
  {
    hide Continues, CharLen, IsChar;
    if a == [] {
      assert a + b == b;
    } else {
      var n := CharLen(a[0]);
      Utf8Append(a[n..], b);
      assert (a + b)[0] == a[0] && (a + b)[..n] == a[..n] && (a + b)[n..] == a[n..] + b;
    }
  }

  lemma CharInside(s: Text, n: nat, i: nat)
    requires i < n <= |s| && i > 0 && IsChar(s[..n])
    ensures Continues(s[i])
  {
    hide Continues, CharLen;
    assert s[..n][i] == s[i];
  }

  lemma FrontChar(t: Text)
    requires Utf8(t) && t != []
    ensures var n := CharLen(t[0]); n <= |t| && IsChar(t[..n]) && Utf8(t[n..]) && !Continues(t[0])
  {
    hide Continues;
    assert t[..CharLen(t[0])][0] == t[0];
  }

  /** Text cut at a boundary is text on both sides. */
  lemma {:induction false} Utf8Cut(s: Text, i: nat)
    requires Utf8(s) && Boundary(s, i)
    ensures i <= |s| && Utf8(s[..i]) && Utf8(s[i..])
    decreases |s|
  {
    hide IsChar, Continues, CharLen;
    if i == 0 {
      assert s[0..] == s && s[..0] == [];
    } else if i == |s| {
      assert s[..i] == s && s[i..] == [];
    } else {
      var n := CharLen(s[0]);
      if i < n {
        CharInside(s, n, i);
        assert false;
      } else {
        var t := s[n..];
        Utf8Cut(t, i - n);
        assert s[i..] == t[i - n..];
        assert s[..i] == s[..n] + t[..i - n];
        assert s[..i][0] == s[0] && s[..i][..n] == s[..n] && s[..i][n..] == t[..i - n];
      }
    }
  }

  /** The next boundary after a character's start is its end. */
  lemma CharEnd(s: Text, pos: nat)
    requires Utf8(s) && Boundary(s, pos) && pos < |s|
    ensures var n := CharLen(s[pos]); pos + n <= |s| && Boundary(s, pos + n) && IsChar(s[pos..pos + n])
  {
    hide IsChar, Continues, CharLen, Utf8;
    Utf8Cut(s, pos);
    var t, n := s[pos..], CharLen(s[pos]);
    FrontChar(t);
    assert t[..n] == s[pos..pos + n];
    if pos + n < |s| {
      FrontChar(t[n..]);
      assert t[n..][0] == s[pos + n];
    }
  }

  // ---------------------------------------------------------------------
  // Separators
  // ---------------------------------------------------------------------

  const SPACE_MARK: Text := [0xC4, 0xA0]
  const NEWLINE_MARK: Text := [0xC4, 0x8A]
  const WORD_MARK: Text := [0xE2, 0x96, 0x81]

  /** What one byte becomes: only space, and newline for the GPT-2 style, are replaced. */
  function Translate(gpt2: bool, b: Byte): Text {
    if b == 0x20 then (if gpt2 then SPACE_MARK else WORD_MARK)
    else if b == 0x0A && gpt2 then NEWLINE_MARK
    else [b]
  }

  function Preprocess(gpt2: bool, text: Text): Text {
    if text == [] then [] else Translate(gpt2, text[0]) + Preprocess(gpt2, text[1..])
  }

  lemma TranslateWide(gpt2: bool, b: Byte)
    ensures b >= 0x80 ==> Translate(gpt2, b) == [b]
    ensures b < 0x80 ==> Utf8(Translate(gpt2, b))
  {
    if b == 0x20 || (b == 0x0A && gpt2) {
      var m := Translate(gpt2, b);
      assert m[..|m|] == m && m[|m|..] == [];
    } else if b < 0x80 {
      assert [b][..1] == [b] && [b][1..] == [];
    }
  }

  lemma {:induction false} PreprocessAppend(gpt2: bool, a: Text, b: Text)
    ensures Preprocess(gpt2, a + b) == Preprocess(gpt2, a) + Preprocess(gpt2, b)
    decreases |a|
  {
    hide Translate;
    if a == [] {
      assert a + b == b;
    } else {
      assert (a + b)[0] == a[0] && (a + b)[1..] == a[1..] + b;
      PreprocessAppend(gpt2, a[1..], b);
    }
  }

  lemma {:induction false} PreprocessWide(gpt2: bool, c: Text)
    requires forall i :: 0 <= i < |c| ==> c[i] >= 0x80
    ensures Preprocess(gpt2, c) == c
    decreases |c|
  {
    hide Translate;
    if c != [] {
      TranslateWide(gpt2, c[0]);
      PreprocessWide(gpt2, c[1..]);
      assert c == [c[0]] + c[1..];
    }
  }

  /** Replacing separators keeps text text. */
  lemma {:induction false} PreprocessUtf8(gpt2: bool, text: Text)
    requires Utf8(text)
    ensures Utf8(Preprocess(gpt2, text))
    decreases |text|
  {
    if text != [] {
      var n := CharLen(text[0]);
      var c := text[..n];
      PreprocessUtf8(gpt2, text[n..]);
      assert text == c + text[n..];
      PreprocessAppend(gpt2, c, text[n..]);
      if n == 1 {
        TranslateWide(gpt2, c[0]);
        assert c[1..] == [];
        assert Preprocess(gpt2, c) == Translate(gpt2, c[0]) + [] == Translate(gpt2, c[0]);
      } else {
        PreprocessWide(gpt2, c);
        assert c[..n] == c && c[n..] == [];
      }
      Utf8Append(Preprocess(gpt2, c), Preprocess(gpt2, text[n..]));
    }
  }

  // ---------------------------------------------------------------------
  // The vocabulary
  // ---------------------------------------------------------------------

  type Vocab = seq<Text>

  /** The map the pieces are collected into: a piece listed twice keeps its last index, cut to `u32`. */
  function Index(vocab: Vocab): map<Text, nat> {
    if vocab == [] then map[]
    else Index(vocab[..|vocab| - 1])[vocab[|vocab| - 1] := (|vocab| - 1) % TWO32]
  }

  lemma {:induction false} IndexIs(vocab: Vocab, p: Text)
    ensures p in Index(vocab) <==> p in vocab
    ensures p in Index(vocab) && |vocab| <= TWO32 ==> Index(vocab)[p] < |vocab| && vocab[Index(vocab)[p]] == p
    ensures p in Index(vocab) && |vocab| <= TWO32 ==> forall i :: Index(vocab)[p] < i < |vocab| ==> vocab[i] != p
  {
    if vocab != [] {
      var front := vocab[..|vocab| - 1];
      IndexIs(front, p);
      assert vocab == front + [vocab[|vocab| - 1]];
    }
  }

  /** Vocabularies in the style of GPT-2 mark spaces with one particular letter. */
  predicate Marked(vocab: Vocab) {
    exists i :: 0 <= i < |vocab| && SPACE_MARK <= vocab[i]
  }

  // ---------------------------------------------------------------------
  // One step
  // ---------------------------------------------------------------------

  /** The end of the longest known piece that starts at `pos` and ends at a boundary not after `e`. */
  function LongestFrom(m: map<Text, nat>, s: Text, pos: nat, e: nat): Option<nat>
    requires e <= |s|
    decreases e
  {
    if e <= pos then None
    else if Boundary(s, e) && s[pos..e] in m then Some(e)
    else LongestFrom(m, s, pos, e - 1)
  }

  function Cap(s: Text, pos: nat): nat {
    if |s| < pos + MAX_PIECE then |s| else pos + MAX_PIECE
  }

  function Longest(m: map<Text, nat>, s: Text, pos: nat): Option<nat> {
    LongestFrom(m, s, pos, Cap(s, pos))
  }

  /** A known piece of at most 64 bytes lies between `pos` and the boundary `e`. */
  predicate Candidate(m: map<Text, nat>, s: Text, pos: nat, e: nat) {
    pos < e <= |s| && e <= pos + MAX_PIECE && Boundary(s, e) && s[pos..e] in m
  }

  lemma {:induction false} LongestFromIs(m: map<Text, nat>, s: Text, pos: nat, e: nat)
    requires e <= |s| && e <= pos + MAX_PIECE
    ensures var r := LongestFrom(m, s, pos, e);
            && (r.Some? ==> r.value <= e && Candidate(m, s, pos, r.value))
            && (forall k :: (if r.Some? then r.value else 0) < k <= e ==> !Candidate(m, s, pos, k))
    decreases e
  {
    hide Boundary;
    if e > pos && !(Boundary(s, e) && s[pos..e] in m) {
      LongestFromIs(m, s, pos, e - 1);
    }
  }

  /** The step takes the longest known piece of at most 64 bytes, and falls back only when there is none. */
  lemma LongestIs(m: map<Text, nat>, s: Text, pos: nat)
    ensures var r := Longest(m, s, pos);
            && (r.Some? ==> Candidate(m, s, pos, r.value) && forall k: nat :: Candidate(m, s, pos, k) ==> k <= r.value)
            && (r.None? ==> forall k: nat :: !Candidate(m, s, pos, k))
  {
    hide Boundary, LongestFrom;
    LongestFromIs(m, s, pos, Cap(s, pos));
  }

  function HexDigit(n: Byte, upper: bool): Byte
    requires n < 16
  {
    if n < 10 then 0x30 + n else (if upper then 0x41 else 0x61) + (n - 10)
  }

  lemma Nibbles(b: Byte)
    ensures b >> 4 < 16 && b & 0x0F < 16
  {
  }

  /** `<0xNN>`. */
  function ByteName(b: Byte, upper: bool): Text {
    Nibbles(b);
    [0x3C, 0x30, 0x78, HexDigit(b >> 4, upper), HexDigit(b & 0x0F, upper), 0x3E]
  }

  /** What stands for an ASCII byte no piece starts with; nothing stands for a longer character. */
  function Fallback(m: map<Text, nat>, size: nat, gpt2: bool, b: Byte): seq<nat> {
    if b >= 0x80 then []
    else if ByteName(b, true) in m then [m[ByteName(b, true)]]
    else if ByteName(b, false) in m then [m[ByteName(b, false)]]
    else if b as nat < size % TWO32 && gpt2 then [b as nat]
    else []
  }

  /** The ids one round pushes, and where the next round starts: always a later boundary. */
  function Round(m: map<Text, nat>, size: nat, gpt2: bool, s: Text, pos: nat): (r: (seq<nat>, nat))
    requires Utf8(s) && Boundary(s, pos) && pos < |s|
    ensures pos < r.1 <= |s| && Boundary(s, r.1)
  {
    LongestIs(m, s, pos);
    CharEnd(s, pos);
    match Longest(m, s, pos)
    case Some(e) => ([m[s[pos..e]]], e)
    case None => (Fallback(m, size, gpt2, s[pos]), pos + CharLen(s[pos]))
  }

  function Tokens(m: map<Text, nat>, size: nat, gpt2: bool, s: Text, pos: nat): seq<nat>
    requires Utf8(s) && Boundary(s, pos) && pos <= |s|
    decreases |s| - pos
  {
    if pos == |s| then []
    else
      var (ids, next) := Round(m, size, gpt2, s, pos);
      ids + Tokens(m, size, gpt2, s, next)
  }

  /** What `tokenize` answers: never nothing. */
  ghost function Tokenized(vocab: Vocab, text: Text): (ids: seq<nat>)
    requires Utf8(text)
    ensures ids != []
  {
    PreprocessUtf8(Marked(vocab), text);
    var pre := Preprocess(Marked(vocab), text);
    var ids := Tokens(Index(vocab), |vocab|, Marked(vocab), pre, 0);
    if ids == [] then [0] else ids
  }

  // ---------------------------------------------------------------------
  // The pieces spell the text
  // ---------------------------------------------------------------------

  predicate InRange(vocab: Vocab, ids: seq<nat>) {
    forall i :: 0 <= i < |ids| ==> ids[i] < |vocab|
  }

  /** The pieces of the ids, end to end. */
  function Spell(vocab: Vocab, ids: seq<nat>): Text
    requires InRange(vocab, ids)
  {
    if ids == [] then [] else vocab[ids[0]] + Spell(vocab, ids[1..])
  }

  /** A single character at `pos` is looked up among the pieces tried first, so later lookups of it find nothing. */
  lemma LoneCharKnown(m: map<Text, nat>, s: Text, pos: nat)
    requires Utf8(s) && Boundary(s, pos) && pos < |s|
    ensures pos + CharLen(s[pos]) <= |s|
    ensures s[pos..pos + CharLen(s[pos])] in m ==> Longest(m, s, pos).Some?
  {
    hide Longest, Boundary, Utf8, IsChar;
    CharEnd(s, pos);
    LongestIs(m, s, pos);
    var e := pos + CharLen(s[pos]);
    assert s[pos..e] in m ==> Candidate(m, s, pos, e);
  }

  /** Every character of `s` is a piece of its own. */
  predicate AllKnown(m: map<Text, nat>, s: Text) {
    forall i :: 0 <= i < |s| && Boundary(s, i) && i + CharLen(s[i]) <= |s| ==> s[i..i + CharLen(s[i])] in m
  }

  lemma {:induction false} TokensSpell(vocab: Vocab, gpt2: bool, s: Text, pos: nat)
    requires |vocab| <= TWO32 && Utf8(s) && Boundary(s, pos) && pos <= |s| && AllKnown(Index(vocab), s)
    ensures var ids := Tokens(Index(vocab), |vocab|, gpt2, s, pos);
            InRange(vocab, ids) && Spell(vocab, ids) == s[pos..]
    decreases |s| - pos
  {
    hide Index, Boundary, Utf8, Longest, Fallback, CharLen, IsChar;
    if pos < |s| {
      var m := Index(vocab);
      LoneCharKnown(m, s, pos);
      LongestIs(m, s, pos);
      var e := Longest(m, s, pos).value;
      IndexIs(vocab, s[pos..e]);
      TokensSpell(vocab, gpt2, s, e);
      var rest := Tokens(m, |vocab|, gpt2, s, e);
      assert Tokens(m, |vocab|, gpt2, s, pos) == [m[s[pos..e]]] + rest;
      assert ([m[s[pos..e]]] + rest)[1..] == rest;
      assert s[pos..] == s[pos..e] + s[e..];
    }
  }

  /** If every character of a text that is not empty is a piece, the pieces of its ids spell the preprocessed text. */
  lemma Lossless(vocab: Vocab, text: Text)
    requires |vocab| <= TWO32 && Utf8(text) && text != []
    requires AllKnown(Index(vocab), Preprocess(Marked(vocab), text))
    ensures InRange(vocab, Tokenized(vocab, text))
        && Spell(vocab, Tokenized(vocab, text)) == Preprocess(Marked(vocab), text)
  {
    hide AllKnown, Index, Utf8, Tokens, InRange;
    var pre := Preprocess(Marked(vocab), text);
    PreprocessUtf8(Marked(vocab), text);
    TokensSpell(vocab, Marked(vocab), pre, 0);
    TranslateSome(Marked(vocab), text[0]);
    assert pre[0..] == pre;
  }

  lemma TranslateSome(gpt2: bool, b: Byte)
    ensures Translate(gpt2, b) != []
  {
  }

  lemma {:induction false} TokensInRange(vocab: Vocab, gpt2: bool, s: Text, pos: nat)
    requires |vocab| <= TWO32 && Utf8(s) && Boundary(s, pos) && pos <= |s|
    ensures InRange(vocab, Tokens(Index(vocab), |vocab|, gpt2, s, pos))
    decreases |s| - pos
  {
    hide Index, Boundary, Utf8, Longest, CharLen, IsChar, ByteName;
    if pos < |s| {
      var m := Index(vocab);
      LongestIs(m, s, pos);
      if Longest(m, s, pos).Some? {
        IndexIs(vocab, s[pos..Longest(m, s, pos).value]);
      }
      IndexIs(vocab, ByteName(s[pos], true));
      IndexIs(vocab, ByteName(s[pos], false));
      TokensInRange(vocab, gpt2, s, Round(m, |vocab|, gpt2, s, pos).1);
    }
  }

  /** Every id names a piece; only the 0 that stands for no ids at all may not. */
  lemma IdsInRange(vocab: Vocab, text: Text)
    requires |vocab| <= TWO32 && Utf8(text)
    ensures InRange(vocab, Tokenized(vocab, text)) || Tokenized(vocab, text) == [0]
  {
    hide Index, Utf8, Tokens, InRange;
    PreprocessUtf8(Marked(vocab), text);
    TokensInRange(vocab, Marked(vocab), Preprocess(Marked(vocab), text), 0);
  }

  // ---------------------------------------------------------------------
  // The function of the source
  // ---------------------------------------------------------------------

  /** The map of pieces, collected in order. */
  method BuildIndex(vocab: Vocab) returns (m: map<Text, nat>)
    ensures m == Index(vocab)
  {
    m := map[];
    for i := 0 to |vocab|
      invariant m == Index(vocab[..i])
    {
      m := m[vocab[i] := i % TWO32];
      assert vocab[..i + 1][..i] == vocab[..i];
    }
    assert vocab[..|vocab|] == vocab;
  }

  /** Nothing is found between a non-boundary and the boundary below it. */
  lemma LongestSkips(m: map<Text, nat>, s: Text, pos: nat, e: nat)
    requires pos < e <= |s| && !Boundary(s, e)
    ensures LongestFrom(m, s, pos, e) == LongestFrom(m, s, pos, e - 1)
  {
  }

  /** The search loop: from the cap down, boundary by boundary. */
  method FindLongest(m: map<Text, nat>, s: Text, pos: nat) returns (matched: Option<nat>)
    requires pos < |s|
    ensures matched == Longest(m, s, pos)
  {
    hide Boundary;
    var end := if |s| < pos + MAX_PIECE then |s| else pos + MAX_PIECE;
    while end > pos && !Boundary(s, end)
      invariant pos <= end <= |s| && LongestFrom(m, s, pos, end) == Longest(m, s, pos)
    {
      LongestSkips(m, s, pos, end);
      end := end - 1;
    }
    var e := end;
    while e > pos
      invariant pos <= e <= |s| && (e == pos || Boundary(s, e)) && LongestFrom(m, s, pos, e) == Longest(m, s, pos)
    {
      if s[pos..e] in m {
        return Some(e);
      }
      e := e - 1;
      while e > pos && !Boundary(s, e)
        invariant pos <= e <= |s| && LongestFrom(m, s, pos, e) == Longest(m, s, pos)
      {
        LongestSkips(m, s, pos, e);
        e := e - 1;
      }
    }
    matched := None;
  }

  /** The fallback for one character: the names of an ASCII byte, then its number. */
  method FallBack(m: map<Text, nat>, size: nat, gpt2: bool, b: Byte) returns (ids: seq<nat>)
    ensures ids == Fallback(m, size, gpt2, b)
  {
    hide ByteName;
    ids := [];
    if CharLen(b) == 1 {
      var upper, lower := ByteName(b, true), ByteName(b, false);
      if upper in m {
        ids := [m[upper]];
      } else if lower in m {
        ids := [m[lower]];
      } else if b as nat < size % TWO32 && gpt2 {
        ids := [b as nat];
      }
    }
  }

  lemma TokensRound(m: map<Text, nat>, size: nat, gpt2: bool, s: Text, pos: nat, done: seq<nat>, ids: seq<nat>,
      next: nat)
    requires Utf8(s) && Boundary(s, pos) && pos < |s| && Round(m, size, gpt2, s, pos) == (ids, next)
    ensures done + Tokens(m, size, gpt2, s, pos) == done + ids + Tokens(m, size, gpt2, s, next)
  {
    hide Round, Utf8, Boundary;
  }

  /**
    `tokenize`. Once no piece matches, the source looks the character itself up again in
    two places; by LoneCharKnown those find nothing and they are left out.
  */
  method Tokenize(vocab: Vocab, text: Text) returns (ids: seq<nat>)
    requires Utf8(text)
    ensures ids == Tokenized(vocab, text)
  {
    hide Index, Utf8, Boundary, Longest, Fallback, CharLen, IsChar, Tokens;
    var gpt2 := exists i :: 0 <= i < |vocab| && SPACE_MARK <= vocab[i];
    var pre := Preprocess(gpt2, text);
    PreprocessUtf8(gpt2, text);
    TokensEnd(Index(vocab), |vocab|, gpt2, pre);
    if pre == [] {
      return [0];
    }
    var m := BuildIndex(vocab);
    ids := [];
    var pos := 0;
    StartIsBoundary(pre);
    while pos < |pre|
      invariant pos <= |pre| && Boundary(pre, pos)
      invariant ids + Tokens(m, |vocab|, gpt2, pre, pos) == Tokens(m, |vocab|, gpt2, pre, 0)
    {
      var matched := FindLongest(m, pre, pos);
      LongestIs(m, pre, pos);
      CharEnd(pre, pos);
      if matched.Some? {
        TokensRound(m, |vocab|, gpt2, pre, pos, ids, [m[pre[pos..matched.value]]], matched.value);
        ids := ids + [m[pre[pos..matched.value]]];
        pos := matched.value;
      } else {
        var b := pre[pos];
        var more := FallBack(m, |vocab|, gpt2, b);
        TokensRound(m, |vocab|, gpt2, pre, pos, ids, more, pos + CharLen(b));
        ids := ids + more;
        pos := pos + CharLen(b);
      }
    }
    if ids == [] {
      ids := [0];
    }
  }

  lemma TokensEnd(m: map<Text, nat>, size: nat, gpt2: bool, s: Text)
    requires Utf8(s)
    ensures Tokens(m, size, gpt2, s, |s|) == []
  {
  }

  lemma StartIsBoundary(s: Text)
    ensures Boundary(s, 0)
  {
  }
}
