/** Log messages as bytes: `strings.TrimSpace` and the notion of a line that `getLogLastLine` uses. */
module LogText {
  type Byte = b: int | 0 <= b < 256
  type Bytes = seq<Byte>

  const LF: Byte := 10
  const CR: Byte := 13
  const SPACE: Byte := 32

  /** A rune that `unicode.IsSpace` accepts, `w` bytes wide in UTF-8, is at the place `i`. */
  predicate SpaceAt(s: Bytes, i: nat, w: nat)
    requires i + w <= |s|
  {
    || (w == 1 && (9 <= s[i] <= 13 || s[i] == 32))
    || (w == 2 && s[i] == 0xC2 && (s[i + 1] == 0x85 || s[i + 1] == 0xA0))
    || (w == 3 && s[i] == 0xE1 && s[i + 1] == 0x9A && s[i + 2] == 0x80)
    || (w == 3 && s[i] == 0xE2 && s[i + 1] == 0x80
        && (0x80 <= s[i + 2] <= 0x8A || s[i + 2] == 0xA8 || s[i + 2] == 0xA9 || s[i + 2] == 0xAF))
    || (w == 3 && s[i] == 0xE2 && s[i + 1] == 0x81 && s[i + 2] == 0x9F)
    || (w == 3 && s[i] == 0xE3 && s[i + 1] == 0x80 && s[i + 2] == 0x80)
  }

  /** The width of the white space that a string starts with, or 0. */
  function LeadingSpace(s: Bytes): (w: nat)
    ensures w <= |s|
  {
    if |s| >= 1 && SpaceAt(s, 0, 1) then 1
    else if |s| >= 2 && SpaceAt(s, 0, 2) then 2
    else if |s| >= 3 && SpaceAt(s, 0, 3) then 3
    else 0
  }

  /** The width of the white space that a string ends with, or 0. */
  function TrailingSpace(s: Bytes): (w: nat)
    ensures w <= |s|
  {
    if |s| >= 1 && SpaceAt(s, |s| - 1, 1) then 1
    else if |s| >= 2 && SpaceAt(s, |s| - 2, 2) then 2
    else if |s| >= 3 && SpaceAt(s, |s| - 3, 3) then 3
    else 0
  }

  function TrimLeft(s: Bytes): (bytes: Bytes) {
    if LeadingSpace(s) > 0 then TrimLeft(s[LeadingSpace(s)..]) else s
  }

  function TrimRight(s: Bytes): (bytes: Bytes) {
    if TrailingSpace(s) > 0 then TrimRight(s[..|s| - TrailingSpace(s)]) else s
  }

  function TrimSpace(s: Bytes): (bytes: Bytes) {
    TrimRight(TrimLeft(s))
  }

  predicate Trimmed(s: Bytes) {
    LeadingSpace(s) == 0 && TrailingSpace(s) == 0
  }

  lemma {:induction false} TrimLeftTrims(s: Bytes)
    ensures LeadingSpace(TrimLeft(s)) == 0
  {
    if LeadingSpace(s) > 0 {
      TrimLeftTrims(s[LeadingSpace(s)..]);
    }
  }

  lemma {:induction false} TrimRightTrims(s: Bytes)
    ensures TrailingSpace(TrimRight(s)) == 0 && TrimRight(s) <= s
  {
    if TrailingSpace(s) > 0 {
      TrimRightTrims(s[..|s| - TrailingSpace(s)]);
    }
  }

  /** A prefix of a string that starts with no white space starts with none. */
  lemma PrefixStart(p: Bytes, s: Bytes)
    requires p <= s && LeadingSpace(s) == 0
    ensures LeadingSpace(p) == 0
  {
  }

  lemma TrimSpaceTrims(s: Bytes)
    ensures Trimmed(TrimSpace(s))
  {
    TrimLeftTrims(s);
    TrimRightTrims(TrimLeft(s));
    PrefixStart(TrimSpace(s), TrimLeft(s));
  }

  lemma TrimmedIsFixed(s: Bytes)
    requires Trimmed(s)
    ensures TrimSpace(s) == s
  {
  }

  lemma LineFeedIsTrimmed(t: Bytes)
    ensures TrailingSpace(t + [LF]) == 1 && TrimRight(t + [LF]) == TrimRight(t)
    ensures t != [] && LeadingSpace(t) == 0 ==> LeadingSpace(t + [LF]) == 0
    ensures TrimLeft([LF]) == []
  {
    var s := t + [LF];
    assert s[|t|] == LF;
    assert s[..|s| - 1] == t;
  }

  /** Ending a trimmed message with a line feed adds nothing that trimming would keep. */
  lemma TrimLineFeed(t: Bytes)
    requires Trimmed(t)
    ensures TrimSpace(t + [LF]) == t
  {
    LineFeedIsTrimmed(t);
    if t == [] {
      assert t + [LF] == [LF];
    }
  }

  // ---------------------------------------------------------------- lines

  predicate IsBreak(b: Byte) {
    b == LF || b == CR
  }

  predicate SingleLine(s: Bytes) {
    forall i | 0 <= i < |s| :: !IsBreak(s[i])
  }

  /** The longest run of bytes free of line breaks at the end of `s`. */
  function LastRun(s: Bytes): (bytes: Bytes) {
    if s == [] || IsBreak(s[|s| - 1]) then [] else LastRun(s[..|s| - 1]) + [s[|s| - 1]]
  }

  /** The last line of a file that is not empty: line breaks at the end do not count. */
  function LastLine(s: Bytes): (bytes: Bytes) {
    if s != [] && IsBreak(s[|s| - 1]) then LastLine(s[..|s| - 1]) else LastRun(s)
  }

  predicate AtLineStart(a: Bytes) {
    a == [] || IsBreak(a[|a| - 1])
  }

  lemma {:induction false} LastRunSplits(s: Bytes) returns (a: Bytes)
    ensures s == a + LastRun(s) && AtLineStart(a) && SingleLine(LastRun(s))
  {
    if s == [] || IsBreak(s[|s| - 1]) {
      a := s;
    } else {
      a := LastRunSplits(s[..|s| - 1]);
      assert s == s[..|s| - 1] + [s[|s| - 1]];
    }
  }

  /** What the last line is, for any file: everything after it is line breaks, it holds none, it
      starts the file or follows one, and it is empty only if the file is nothing but breaks. */
  lemma {:induction false} LastLineSplits(s: Bytes) returns (a: Bytes, c: Bytes)
    ensures s == a + LastLine(s) + c
    ensures SingleLine(LastLine(s)) && AtLineStart(a)
    ensures forall i | 0 <= i < |c| :: IsBreak(c[i])
    ensures LastLine(s) == [] ==> a == []
  {
    if s != [] && IsBreak(s[|s| - 1]) {
      a, c := LastLineSplits(s[..|s| - 1]);
      c := c + [s[|s| - 1]];
      assert s == s[..|s| - 1] + [s[|s| - 1]];
    } else {
      a := LastRunSplits(s);
      c := [];
    }
  }

  lemma {:induction false} LastRunOfLine(a: Bytes, line: Bytes)
    requires SingleLine(line) && AtLineStart(a)
    ensures LastRun(a + line) == line
  {
    if line == [] {
      assert a + line == a;
    } else {
      var s := a + line;
      assert s[..|s| - 1] == a + line[..|line| - 1];
      LastRunOfLine(a, line[..|line| - 1]);
      assert line == line[..|line| - 1] + [line[|line| - 1]];
    }
  }

  lemma {:induction false} LastRunAppend(a: Bytes, t: Bytes)
    ensures |LastRun(a + t)| < |t| || SingleLine(t)
  {
    if t == [] {
    } else {
      var s := a + t;
      assert s[..|s| - 1] == a + t[..|t| - 1];
      LastRunAppend(a, t[..|t| - 1]);
    }
  }

  lemma Associate(a: Bytes, b: Bytes, c: Bytes)
    ensures (a + b) + c == a + (b + c)
  {
  }

  // ---------------------------------------------------------------- white space

  /** The UTF-8 encoding of a rune of at most three bytes. */
  function Utf8(rune: nat): (bytes: Bytes)
    requires rune < 0x1_0000
  {
    if rune < 0x80 then [rune]
    else if rune < 0x800 then [0xC0 + rune / 0x40, 0x80 + rune % 0x40]
    else [0xE0 + rune / 0x1000, 0x80 + rune / 0x40 % 0x40, 0x80 + rune % 0x40]
  }

  /** The runes with Unicode's White_Space property. */
  predicate IsWhite(rune: nat) {
    || 0x09 <= rune <= 0x0D || rune == 0x20 || rune == 0x85 || rune == 0xA0 || rune == 0x1680
    || 0x2000 <= rune <= 0x200A || rune == 0x2028 || rune == 0x2029 || rune == 0x202F || rune == 0x205F
    || rune == 0x3000
  }

  lemma Punctuation(d: nat)
    requires d < 0x40
    ensures Utf8(0x2000 + d) == [0xE2, 0x80, 0x80 + d]
  {
  }

  lemma WhiteEncodings(rune: nat)
    requires IsWhite(rune) && rune < 0x1_0000
    ensures SpaceAt(Utf8(rune), 0, |Utf8(rune)|)
  {
    if 0x2000 <= rune <= 0x203F {
      Punctuation(rune - 0x2000);
    } else if rune >= 0x800 {
      assert Utf8(0x1680) == [0xE1, 0x9A, 0x80];
      assert Utf8(0x205F) == [0xE2, 0x81, 0x9F];
      assert Utf8(0x3000) == [0xE3, 0x80, 0x80];
    } else if rune >= 0x80 {
      assert Utf8(0x85) == [0xC2, 0x85] && Utf8(0xA0) == [0xC2, 0xA0];
    }
  }

  lemma WhiteIsSpace(s: Bytes, i: nat, w: nat, rune: nat)
    requires i + w <= |s| && rune < 0x1_0000 && IsWhite(rune) && Utf8(rune) == s[i..i + w]
    ensures SpaceAt(s, i, w)
  {
    WhiteEncodings(rune);
    hide IsWhite, Utf8;
    var b := s[i..i + w];
    assert forall k | 0 <= k < w :: b[k] == s[i + k];
  }

  lemma SpaceIsWhite1(s: Bytes, i: nat)
    requires i + 1 <= |s| && SpaceAt(s, i, 1)
    ensures IsWhite(s[i]) && Utf8(s[i]) == s[i..i + 1]
  {
  }

  lemma SpaceIsWhite2(s: Bytes, i: nat)
    requires i + 2 <= |s| && SpaceAt(s, i, 2)
    ensures var rune := s[i + 1] as int; IsWhite(rune) && Utf8(rune) == s[i..i + 2]
  {
    assert s[i] == 0xC2;
    assert s[i..i + 2] == [s[i], s[i + 1]];
  }

  lemma SpaceIsWhite3(s: Bytes, i: nat) returns (rune: nat)
    requires i + 3 <= |s| && SpaceAt(s, i, 3)
    ensures rune < 0x1_0000 && IsWhite(rune) && Utf8(rune) == s[i..i + 3]
  {
    var a, b, c := s[i], s[i + 1], s[i + 2];
    assert s[i..i + 3] == [a, b, c];
    if a == 0xE1 {
      rune := 0x1680;
    } else if a == 0xE3 {
      rune := 0x3000;
    } else if b == 0x81 {
      rune := 0x205F;
    } else {
      rune := 0x2000 + (c as int - 0x80);
      Punctuation(c as int - 0x80);
    }
  }

  /** What counts as white space is exactly the encodings of white space runes. */
  lemma SpaceIsWhite(s: Bytes, i: nat, w: nat)
    requires i + w <= |s|
    ensures SpaceAt(s, i, w) <==> exists rune | 0 <= rune < 0x1_0000 :: IsWhite(rune) && Utf8(rune) == s[i..i + w]
  {
    if SpaceAt(s, i, w) {
      if w == 1 {
        SpaceIsWhite1(s, i);
      } else if w == 2 {
        SpaceIsWhite2(s, i);
      } else {
        var rune := SpaceIsWhite3(s, i);
      }
    }
    hide SpaceAt, IsWhite, Utf8;
    if rune :| 0 <= rune < 0x1_0000 && IsWhite(rune) && Utf8(rune) == s[i..i + w] {
      WhiteIsSpace(s, i, w, rune);
    }
  }

  /** Nothing but white space. */
  ghost predicate White(s: Bytes)
    decreases |s|
  {
    s == [] || exists w | 1 <= w <= 3 && w <= |s| :: SpaceAt(s, 0, w) && White(s[w..])
  }

  lemma WhiteCons(s: Bytes, w: nat)
    requires 1 <= w <= 3 && w <= |s| && SpaceAt(s, 0, w) && White(s[w..])
    ensures White(s)
  {
    hide SpaceAt;
  }

  lemma SpaceInFront(a: Bytes, b: Bytes, w: nat)
    requires w <= |a|
    ensures SpaceAt(a + b, 0, w) == SpaceAt(a, 0, w) && (a + b)[w..] == a[w..] + b
  {
  }

  lemma LeadingIsSpace(s: Bytes)
    requires LeadingSpace(s) > 0
    ensures LeadingSpace(s) <= 3 && SpaceAt(s, 0, LeadingSpace(s))
  {
  }

  lemma TrailingIsSpace(s: Bytes)
    requires TrailingSpace(s) > 0
    ensures var w := TrailingSpace(s); w <= 3 && SpaceAt(s[|s| - w..], 0, w)
  {
    var w := TrailingSpace(s);
    var tail := s[|s| - w..];
    assert forall k | 0 <= k < w :: tail[k] == s[|s| - w + k];
  }

  lemma {:induction false} TrimLeftSplits(s: Bytes) returns (a: Bytes)
    ensures s == a + TrimLeft(s) && White(a)
  {
    hide SpaceAt, LeadingSpace;
    var w := LeadingSpace(s);
    if w > 0 {
      LeadingIsSpace(s);
      var b := TrimLeftSplits(s[w..]);
      hide White, TrimLeft;
      a := s[..w] + b;
      SpaceInFront(s[..w], s[w..], w);
      SpaceInFront(s[..w], b, w);
      assert s[..w] + s[w..] == s && s[..w][w..] + b == b;
      WhiteCons(a, w);
      Associate(s[..w], b, TrimLeft(s[w..]));
      assert TrimLeft(s) == TrimLeft(s[w..]) by { TrimUnfolds(s); }
    } else {
      a := [];
    }
  }

  lemma TrimUnfolds(s: Bytes)
    ensures LeadingSpace(s) > 0 ==> TrimLeft(s) == TrimLeft(s[LeadingSpace(s)..])
    ensures TrailingSpace(s) > 0 ==> TrimRight(s) == TrimRight(s[..|s| - TrailingSpace(s)])
    ensures TrailingSpace(s) == 0 ==> TrimRight(s) == s
  {
    hide LeadingSpace, TrailingSpace;
  }

  lemma {:induction false} WhiteMore(a: Bytes, b: Bytes)
    requires White(a) && White(b)
    ensures White(a + b)
    decreases |a|
  {
    hide SpaceAt;
    if a == [] {
      assert a + b == b;
    } else {
      var w :| 1 <= w <= 3 && w <= |a| && SpaceAt(a, 0, w) && White(a[w..]);
      hide White;
      WhiteMore(a[w..], b);
      SpaceInFront(a, b, w);
      WhiteCons(a + b, w);
    }
  }

  lemma OneIsWhite(s: Bytes, w: nat)
    requires 1 <= w == |s| <= 3 && SpaceAt(s, 0, w)
    ensures White(s)
  {
    hide SpaceAt;
    assert s[w..] == [];
  }

  lemma {:induction false} TrimRightSplits(s: Bytes) returns (b: Bytes)
    ensures s == TrimRight(s) + b && White(b)
  {
    hide SpaceAt, TrailingSpace, TrimRight;
    TrimUnfolds(s);
    var w := TrailingSpace(s);
    if w > 0 {
      TrailingIsSpace(s);
      var front, last := s[..|s| - w], s[|s| - w..];
      var c := TrimRightSplits(front);
      OneIsWhite(last, w);
      hide White;
      WhiteMore(c, last);
      b := c + last;
      assert front + last == s;
      Associate(TrimRight(front), c, last);
    } else {
      b := [];
    }
  }

  /** Trimming takes white space away at both ends, as much as there is, and nothing else. */
  lemma TrimSpaceSplits(s: Bytes) returns (a: Bytes, b: Bytes)
    ensures s == a + TrimSpace(s) + b && White(a) && White(b) && Trimmed(TrimSpace(s))
  {
    a := TrimLeftSplits(s);
    b := TrimRightSplits(TrimLeft(s));
    TrimSpaceTrims(s);
    hide TrimLeft, TrimRight, White, Trimmed;
    Associate(a, TrimSpace(s), b);
  }
}
