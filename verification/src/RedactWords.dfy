/** A reference reading of MQSC text, in two passes: split it into parameters, and decide each
    one from the words since the previous parameter. The redactor agrees with it everywhere. */
module RedactWords {
  import opened Text
  import opened RedactMachine
  import opened RedactTheorems

  /** What the text between parameters is made of once line prefixes and comments are dropped. */
  datatype Token = Letter(c: char) | Continuation | Blank

  datatype Lexed = Lexed(tokens: seq<Token>, length: nat) {
    function After(k: nat): (r: Lexed) {
      Lexed(tokens, k + length)
    }

    function Cons(t: Token): (r: Lexed) {
      Lexed([t] + tokens, 1 + length)
    }
  }

  /** The length of a comment, through the end of its line. */
  function CommentLength(s: string): (k: nat)
    ensures k <= |s|
  {
    if s == [] then 0 else if s[0] == '\n' then 1 else 1 + CommentLength(s[1..])
  }

  /** The tokens up to the bracket that opens the next parameter, and where that bracket is. */
  function Lex(newline: bool, checkComment: bool, s: string): (l: Lexed)
    ensures l.length <= |s|
    ensures l.length < |s| ==> s[l.length] == '('
    decreases |s|
  {
    if s == [] || s[0] == '(' then Lexed([], 0)
    else if newline && IsLinePrefix(s[0]) then Lex(newline, checkComment, s[1..]).After(1)
    else if s[0] == '+' || s[0] == '-' then Lex(false, checkComment, s[1..]).Cons(Continuation)
    else if s[0] == '\n' then Lex(true, true, s[1..]).Cons(Blank)
    else if s[0] == '\t' || s[0] == '\r' || s[0] == ' ' then Lex(false, checkComment, s[1..]).Cons(Blank)
    else if s[0] == '*' && checkComment then
      var k := 1 + CommentLength(s[1..]);
      Lex(true, true, s[k..]).After(k)
    else Lex(false, false, s[1..]).Cons(Letter(s[0]))
  }

  /** White space separates words, unless a continuation joins them. */
  predicate Separates(gap: seq<Token>) {
    Blank in gap && Continuation !in gap
  }

  /** The words of a token stream, `word` being the one under way and `gap` what followed it. */
  function Words(word: string, gap: seq<Token>, tokens: seq<Token>): (r: seq<string>)
    decreases |tokens|
  {
    if tokens == [] then [word]
    else if tokens[0].Letter? then
      if Separates(gap) then [word] + Words([tokens[0].c], [], tokens[1..])
      else Words(word + [tokens[0].c], [], tokens[1..])
    else Words(word, gap + [tokens[0]], tokens[1..])
  }

  predicate AnySensitive(words: seq<string>) {
    exists w | w in words :: IsSensitiveWord(w)
  }

  /** A parameter with the text before it, or the text after the last one. */
  datatype Piece = Setting(text: string, value: string, hidden: bool) | Tail(text: string)

  function Parse(first: bool, s: string): (r: seq<Piece>)
    decreases |s|
  {
    var lexed := Lex(first, true, s);
    if lexed.length == |s| then [Tail(s)]
    else
      var text, rest := s[..lexed.length], s[lexed.length + 1..];
      var k := ScanLength(Value, rest);
      [Setting(text, rest[..k], AnySensitive(Words("", [], lexed.tokens)))] + Parse(false, rest[k..])
  }

  function Source(p: Piece): (text: string) {
    if p.Tail? then p.text else p.text + ("(" + p.value)
  }

  function Shown(p: Piece): (text: string) {
    if p.Setting? && p.hidden then p.text + REDACTION else Source(p)
  }

  function SourceText(pieces: seq<Piece>): (text: string) {
    if pieces == [] then "" else Source(pieces[0]) + SourceText(pieces[1..])
  }

  function ShownText(pieces: seq<Piece>): (text: string) {
    if pieces == [] then "" else Shown(pieces[0]) + ShownText(pieces[1..])
  }

  // ---------------------------------------------------------------- the machine reads the same words

  /** `gap` explains the two flags that the redactor keeps between words. */
  predicate Explains(gap: seq<Token>, st: State) {
    && st.mode.Plain?
    && (st.continued <==> Continuation in gap)
    && (st.gap <==> Separates(gap))
  }

  lemma {:induction false} CommentRead(st: State, s: string)
    requires st.mode.Comment?
    ensures var k := CommentLength(s);
            Out(st, s) == s[..k] + Out(st.(mode := Plain, checkComment := true, newline := true), s[k..])
    decreases s
  {
    if s != [] {
      var next := st.(mode := Plain, checkComment := true, newline := true);
      assert s[..1] == [s[0]];
      assert Out(st, s) == s[..1] + Out(Step(st, s[0]), s[1..]);
      if s[0] != '\n' {
        CommentRead(st, s[1..]);
        hide Out;
        CopiedFurther(st, s, 1, st, CommentLength(s[1..]), next);
      }
    }
  }

  /** The decision at the next bracket: already taken, or left to the words still to come. */
  predicate WillHide(st: State, gap: seq<Token>, tokens: seq<Token>) {
    st.redacting || AnySensitive(Words(st.verb, gap, tokens))
  }

  function TokenOf(c: char): (token: Token) {
    if c == '+' || c == '-' then Continuation
    else if c == '\n' || c == '\t' || c == '\r' || c == ' ' then Blank
    else Letter(c)
  }

  function GapAfter(gap: seq<Token>, t: Token): (r: seq<Token>) {
    if t.Letter? then [] else gap + [t]
  }

  lemma AnySensitiveCons(word: string, words: seq<string>)
    ensures AnySensitive([word] + words) <==> IsSensitiveWord(word) || AnySensitive(words)
  {
    assert word in [word] + words;
    assert forall w :: w in [word] + words <==> w == word || w in words;
  }

  lemma LastWord(st: State, gap: seq<Token>)
    ensures WillHide(st, gap, []) <==> CompletedRedacting(st)
  {
    AnySensitiveCons(st.verb, []);
    assert Words(st.verb, gap, []) == [st.verb] + [];
  }

  /** One token keeps the flags explained and the decision unchanged. */
  lemma TokenRead(st: State, gap: seq<Token>, c: char, tokens: seq<Token>)
    requires Explains(gap, st) && c != '('
    requires !(st.newline && IsLinePrefix(c)) && !(c == '*' && st.checkComment)
    ensures var t := TokenOf(c);
            && Explains(GapAfter(gap, t), Step(st, c))
            && (WillHide(Step(st, c), GapAfter(gap, t), tokens) <==> WillHide(st, gap, [t] + tokens))
  {
    var t := TokenOf(c);
    assert ([t] + tokens)[1..] == tokens;
    if t.Letter? {
      if Separates(gap) {
        AnySensitiveCons(st.verb, Words([c], [], tokens));
      }
    }
  }

  /** Text copied and then more text copied is text copied. */
  lemma CopiedFurther(st: State, s: string, k: nat, mid: State, n: nat, end: State)
    requires k + n <= |s|
    requires Out(st, s) == s[..k] + Out(mid, s[k..])
    requires Out(mid, s[k..]) == s[k..][..n] + Out(end, s[k..][n..])
    ensures Out(st, s) == s[..k + n] + Out(end, s[k + n..])
  {
    hide Out;
    assert s[..k + n] == s[..k] + s[k..][..n];
    assert s[k + n..] == s[k..][n..];
  }

  /** A whole comment is copied. */
  lemma CommentCopied(st: State, s: string)
    requires st.mode.Plain? && s != [] && s[0] == '*' && st.checkComment
    ensures var k := 1 + CommentLength(s[1..]);
            Out(st, s) == s[..k] + Out(st.(checkComment := true, newline := true), s[k..])
  {
    hide Out;
    RuneCopied(st, s);
    CommentRead(Step(st, '*'), s[1..]);
    var next := st.(checkComment := true, newline := true);
    CopiedFurther(st, s, 1, Step(st, '*'), CommentLength(s[1..]), next);
  }

  lemma RuneCopied(st: State, s: string)
    requires st.mode.Plain? && s != [] && s[0] != '('
    ensures Out(st, s) == s[..1] + Out(Step(st, s[0]), s[1..])
  {
    assert s == [s[0]] + s[1..] && s[..1] == [s[0]];
    OutCons(st, s[0], s[1..]);
  }

  /** Reading `s` as far as `l` says leads to `end`: the text is copied, and on reaching the
      bracket the redactor is about to hide the value exactly if it was already, or if one of
      the words is sensitive. */
  ghost predicate ReadsTo(st: State, gap: seq<Token>, s: string, l: Lexed, end: State)
    requires l.length <= |s|
  {
    && end.mode.Plain?
    && Out(st, s) == s[..l.length] + Out(end, s[l.length..])
    && (CompletedRedacting(end) <==> WillHide(st, gap, l.tokens))
  }

  /** What reading `k` runes adds in front of what follows. */
  lemma ReadsFurther(st: State, gap: seq<Token>, s: string, k: nat,
      next: State, gap': seq<Token>, l': Lexed, l: Lexed, end: State)
    requires k <= |s| && l'.length <= |s| - k && l.length == k + l'.length
    requires Out(st, s) == s[..k] + Out(next, s[k..])
    requires ReadsTo(next, gap', s[k..], l', end)
    requires WillHide(next, gap', l'.tokens) <==> WillHide(st, gap, l.tokens)
    ensures ReadsTo(st, gap, s, l, end)
  {
    hide Out, WillHide;
    CopiedFurther(st, s, k, next, l'.length, end);
  }

  /** The flags that a rune of data leaves. */
  lemma FlagsAfter(st: State, c: char)
    requires st.mode.Plain? && c != '(' && !(st.newline && IsLinePrefix(c)) && !(c == '*' && st.checkComment)
    ensures Step(st, c).newline == (c == '\n')
    ensures Step(st, c).checkComment == (if TokenOf(c).Letter? then false else c == '\n' || st.checkComment)
  {
    hide IsSensitiveWord;
  }

  lemma LexToken(newline: bool, checkComment: bool, s: string)
    requires s != "" && s[0] != '(' && !(newline && IsLinePrefix(s[0])) && !(s[0] == '*' && checkComment)
    ensures Lex(newline, checkComment, s)
         == Lex(s[0] == '\n', if TokenOf(s[0]).Letter? then false else s[0] == '\n' || checkComment, s[1..])
            .Cons(TokenOf(s[0]))
  {
  }

  /** The first thing that is read of `s`. */
  lemma LexUnfolds(st: State, s: string)
    requires st.mode.Plain?
    ensures var l := Lex(st.newline, st.checkComment, s);
            if s == [] || s[0] == '(' then l == Lexed([], 0)
            else if st.newline && IsLinePrefix(s[0]) then
              Step(st, s[0]) == st && l == Lex(st.newline, st.checkComment, s[1..]).After(1)
            else if s[0] == '*' && st.checkComment then
              l == Lex(true, true, s[1 + CommentLength(s[1..])..]).After(1 + CommentLength(s[1..]))
            else
              var next := Step(st, s[0]);
              l == Lex(next.newline, next.checkComment, s[1..]).Cons(TokenOf(s[0]))
  {
    if s != [] && s[0] != '(' && !(st.newline && IsLinePrefix(s[0])) && !(s[0] == '*' && st.checkComment) {
      hide Lex, Step;
      FlagsAfter(st, s[0]);
      LexToken(st.newline, st.checkComment, s);
    } else {
      hide DataStep;
    }
  }

  lemma {:induction false} LexRead(st: State, gap: seq<Token>, s: string) returns (end: State)
    requires Explains(gap, st)
    ensures ReadsTo(st, gap, s, Lex(st.newline, st.checkComment, s), end)
    decreases |s|
  {
    hide Out, WillHide, ReadsTo, Lex, Step;
    var l := Lex(st.newline, st.checkComment, s);
    LexUnfolds(st, s);
    if s == [] || s[0] == '(' {
      end := st;
      LastWord(st, gap);
      NothingToRead(st, gap, s);
    } else if st.newline && IsLinePrefix(s[0]) {
      RuneCopied(st, s);
      end := LexRead(st, gap, s[1..]);
      ReadsFurther(st, gap, s, 1, st, gap, Lex(st.newline, st.checkComment, s[1..]), l, end);
    } else if s[0] == '*' && st.checkComment {
      var k := 1 + CommentLength(s[1..]);
      var next := st.(checkComment := true, newline := true);
      CommentCopied(st, s);
      SameDecision(st, next, gap, l.tokens);
      end := LexRead(next, gap, s[k..]);
      ReadsFurther(st, gap, s, k, next, gap, Lex(true, true, s[k..]), l, end);
    } else {
      var next, gap' := Step(st, s[0]), GapAfter(gap, TokenOf(s[0]));
      RuneCopied(st, s);
      var l' := Lex(next.newline, next.checkComment, s[1..]);
      TokenRead(st, gap, s[0], l'.tokens);
      end := LexRead(next, gap', s[1..]);
      ReadsFurther(st, gap, s, 1, next, gap', l', l, end);
    }
  }

  lemma NothingToRead(st: State, gap: seq<Token>, s: string)
    requires st.mode.Plain?
    ensures ReadsTo(st, gap, s, Lexed([], 0), st)
  {
    LastWord(st, gap);
    assert "" + Out(st, s) == Out(st, s);
  }

  lemma SameDecision(st: State, next: State, gap: seq<Token>, tokens: seq<Token>)
    requires next.redacting == st.redacting && next.verb == st.verb
    ensures WillHide(next, gap, tokens) <==> WillHide(st, gap, tokens)
  {
  }

  // ---------------------------------------------------------------- the theorems

  function StartOf(first: bool): (s': State) {
    if first then START else AFTER_PARAMETER
  }

  /** The bracket and the value are copied, or replaced by the mask. */
  lemma OutSetting(st: State, rest: string)
    requires st.mode.Plain?
    ensures var k := ScanLength(Value, rest);
            Out(st, "(" + rest)
            == (if CompletedRedacting(st) then REDACTION else "(" + rest[..k]) + Out(AFTER_PARAMETER, rest[k..])
  {
    hide Out, ScanLength;
    var k, hidden := ScanLength(Value, rest), CompletedRedacting(st);
    OutCons(st, '(', rest);
    OutParameter(Value, hidden, rest);
    if hidden {
      assert "" + Out(AFTER_PARAMETER, rest[k..]) == Out(AFTER_PARAMETER, rest[k..]);
    } else {
      Associate("(", rest[..k], Out(AFTER_PARAMETER, rest[k..]));
    }
  }

  lemma TextsCons(piece: Piece, pieces: seq<Piece>)
    ensures ShownText([piece] + pieces) == Shown(piece) + ShownText(pieces)
    ensures SourceText([piece] + pieces) == Source(piece) + SourceText(pieces)
  {
    assert ([piece] + pieces)[1..] == pieces;
  }

  lemma TextsTail(text: string)
    ensures ShownText([Tail(text)]) == SourceText([Tail(text)]) == text
  {
    assert [Tail(text)][1..] == [];
  }

  lemma AtBracket(s: string, n: nat)
    requires n < |s| && s[n] == '('
    ensures s[n..] == "(" + s[n + 1..]
  {
  }

  lemma OutRest(end: State, s: string, n: nat)
    requires n < |s| && s[n] == '(' && end.mode.Plain?
    ensures var rest := s[n + 1..]; var k := ScanLength(Value, rest);
            Out(end, s[n..])
            == (if CompletedRedacting(end) then REDACTION else "(" + rest[..k]) + Out(AFTER_PARAMETER, rest[k..])
  {
    hide Out, ScanLength, CompletedRedacting;
    AtBracket(s, n);
    OutSetting(end, s[n + 1..]);
  }

  /** One parameter with the text before it, and the rest. */
  lemma OutPiece(st: State, s: string, lexed: Lexed, end: State)
    requires lexed.length < |s| && s[lexed.length] == '(' && ReadsTo(st, [], s, lexed, end)
    requires !st.redacting && st.verb == ""
    ensures var n := lexed.length; var rest := s[n + 1..]; var k := ScanLength(Value, rest);
            Out(st, s) == Shown(Setting(s[..n], rest[..k], AnySensitive(Words("", [], lexed.tokens))))
                          + Out(AFTER_PARAMETER, rest[k..])
  {
    hide Out, AnySensitive, Words, ScanLength, Shown, CompletedRedacting;
    var n := lexed.length;
    var rest := s[n + 1..];
    var k := ScanLength(Value, rest);
    OutRest(end, s, n);
    var hidden := CompletedRedacting(end);
    assert hidden <==> AnySensitive(Words("", [], lexed.tokens));
    ShownSetting(s[..n], rest[..k], hidden, Out(AFTER_PARAMETER, rest[k..]));
  }

  lemma ShownSetting(text: string, value: string, hidden: bool, tail: string)
    ensures Shown(Setting(text, value, hidden)) + tail
         == text + ((if hidden then REDACTION else "(" + value) + tail)
  {
    Associate(text, if hidden then REDACTION else "(" + value, tail);
  }

  lemma {:induction false} OutIsShown(first: bool, s: string)
    ensures Out(StartOf(first), s) == ShownText(Parse(first, s))
    decreases |s|
  {
    hide Out, AnySensitive, Words, ShownText, Shown, ScanLength, Lex, Parse, ReadsTo;
    ParseUnfolds(first, s);
    var lexed := Lex(first, true, s);
    var st, n := StartOf(first), lexed.length;
    var end := LexRead(st, [], s);
    assert ReadsTo(st, [], s, lexed, end);
    if n == |s| {
      OutTail(st, s, lexed, end);
      TextsTail(s);
    } else {
      var rest := s[n + 1..];
      var k := ScanLength(Value, rest);
      OutPiece(st, s, lexed, end);
      OutIsShown(false, rest[k..]);
      TextsCons(Setting(s[..n], rest[..k], AnySensitive(Words("", [], lexed.tokens))), Parse(false, rest[k..]));
    }
  }

  lemma OutTail(st: State, s: string, lexed: Lexed, end: State)
    requires lexed.length == |s| && ReadsTo(st, [], s, lexed, end)
    ensures Out(st, s) == s
  {
    hide Out;
    assert s[..|s|] == s && s[|s|..] == "";
    OutNothing(end);
  }

  lemma OutNothing(st: State)
    ensures Out(st, "") == ""
  {
  }

  lemma ParseUnfolds(first: bool, s: string)
    ensures var lexed := Lex(first, true, s); var n := lexed.length;
            if n == |s| then Parse(first, s) == [Tail(s)]
            else
              var rest := s[n + 1..];
              var k := ScanLength(Value, rest);
              && s == s[..n] + ("(" + rest)
              && Parse(first, s) == [Setting(s[..n], rest[..k], AnySensitive(Words("", [], lexed.tokens)))]
                                    + Parse(false, rest[k..])
  {
    hide AnySensitive, Words, ScanLength;
    var n := Lex(first, true, s).length;
    if n < |s| {
      assert s[n..] == "(" + s[n + 1..];
    }
  }

  /** Parsing loses nothing. */
  lemma {:induction false} ParseIsLossless(first: bool, s: string)
    ensures SourceText(Parse(first, s)) == s
    decreases |s|
  {
    hide AnySensitive, Words, SourceText, ScanLength, Lex, Parse;
    ParseUnfolds(first, s);
    var n := Lex(first, true, s).length;
    if n == |s| {
      TextsTail(s);
    } else {
      var rest := s[n + 1..];
      var k := ScanLength(Value, rest);
      ParseIsLossless(false, rest[k..]);
      var pieces := Parse(first, s);
      TextsCons(pieces[0], Parse(false, rest[k..]));
      BackTogether(s[..n], rest, k);
    }
  }

  lemma BackTogether(text: string, rest: string, k: nat)
    requires k <= |rest|
    ensures (text + ("(" + rest[..k])) + rest[k..] == text + ("(" + rest)
  {
    Associate("(", rest[..k], rest[k..]);
    assert rest[..k] + rest[k..] == rest;
    Associate(text, "(" + rest[..k], rest[k..]);
  }

  /** The output is the trimmed input with the hidden values replaced by the mask and nothing
      else touched, and a value is hidden exactly when one of the words since the previous
      parameter holds a keyword. */
  lemma RedactHidesExactly(s: string)
    ensures var pieces := Parse(true, TrimSpace(s));
            SourceText(pieces) == TrimSpace(s) && ShownText(pieces) == Redacted(s)
  {
    ParseIsLossless(true, TrimSpace(s));
    OutIsShown(true, TrimSpace(s));
  }

  lemma {:induction false} NothingHidden(pieces: seq<Piece>)
    requires forall p | p in pieces :: p.Tail? || !p.hidden
    ensures ShownText(pieces) == SourceText(pieces)
  {
    if pieces != [] {
      NothingHidden(pieces[1..]);
    }
  }

  /** Text with no sensitive parameter comes out as it went in. */
  lemma RedactKeepsTheRest(s: string)
    requires forall p | p in Parse(true, TrimSpace(s)) :: p.Tail? || !p.hidden
    ensures Redacted(s) == TrimSpace(s)
  {
    RedactHidesExactly(s);
    NothingHidden(Parse(true, TrimSpace(s)));
  }

  /** Settings, then the text after the last one; only a value that runs to the end of the text
      may be left open. */
  ghost predicate WellShaped(pieces: seq<Piece>) {
    if |pieces| <= 1 then pieces != [] && pieces[0].Tail?
    else
      && pieces[0].Setting?
      && (ClosedValue(pieces[0].value) || (OpenValue(pieces[0].value) && pieces[1..] == [Tail("")]))
      && WellShaped(pieces[1..])
  }

  lemma ShapeMore(piece: Piece, pieces: seq<Piece>)
    requires piece.Setting? && WellShaped(pieces)
    requires ClosedValue(piece.value) || (OpenValue(piece.value) && pieces == [Tail("")])
    ensures WellShaped([piece] + pieces)
  {
    hide ClosedValue, OpenValue;
    var all := [piece] + pieces;
    assert all[0] == piece && all[1..] == pieces && pieces != [];
  }

  lemma ParseNothing()
    ensures Parse(false, "") == [Tail("")]
  {
  }

  lemma {:induction false} ParseShape(first: bool, s: string)
    ensures WellShaped(Parse(first, s))
    decreases |s|
  {
    hide AnySensitive, Words, ScanLength, Lex, Parse, ClosedValue, OpenValue;
    ParseUnfolds(first, s);
    var n := Lex(first, true, s).length;
    if n < |s| {
      hide WellShaped;
      var rest := s[n + 1..];
      var k := ScanLength(Value, rest);
      ParseShape(false, rest[k..]);
      TakenValue(rest);
      if k == |rest| {
        assert rest[k..] == "";
        ParseNothing();
      }
      ShapeMore(Parse(first, s)[0], Parse(false, rest[k..]));
    }
  }

  lemma TakenValue(s: string)
    ensures var k := ScanLength(Value, s);
            ClosedValue(s[..k]) || (OpenValue(s[..k]) && k == |s|)
  {
    ValueTaken(Value, s);
  }

  /** A keyword may be spelled with the long s, which is an S in upper case. */
  lemma LongSIsSensitive(a: char, b: char)
    requires a in "sS\U{17F}" && b in "sS\U{17F}"
    ensures IsSensitiveWord("PA" + [a, b] + "WORD")
  {
    var word := "PA" + [a, b] + "WORD";
    assert ToUpper(word) == "PASSWORD";
    assert OccursAt("PASSWORD", SENSITIVE_PARAMETERS[1], 0);
    assert Contains(ToUpper(word), SENSITIVE_PARAMETERS[1]);
  }
}
