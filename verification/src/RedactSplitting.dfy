/** A keyword may be spread over several lines: continuations, line numbers and comment lines
    inside it change nothing but themselves. */
module RedactSplitting {
  import opened Text
  import opened RedactMachine
  import opened RedactWords

  predicate IsContinuation(c: char) {
    c == '+' || c == '-'
  }

  /** The starts of lines before any data: numbers, colons, white space and whole comment lines, and
      lines that hold nothing but continuations. */
  ghost predicate BeforeData(s: string)
    decreases |s|
  {
    s == "" || (
      if s[0] == '*' then
        var k := CommentLength(s[1..]);
        k > 0 && s[k] == '\n' && BeforeData(s[1 + k..])
      else if IsContinuation(s[0]) then RestOfLine(s[1..])
      else IsLinePrefix(s[0]) && BeforeData(s[1..]))
  }

  /** White space and more continuations, the end of the line, and the starts of further lines. */
  ghost predicate RestOfLine(s: string)
    decreases |s|
  {
    s != "" && if s[0] == '\n' then BeforeData(s[1..])
               else (s[0] == ' ' || s[0] == '\t' || s[0] == '\r' || IsContinuation(s[0])) && RestOfLine(s[1..])
  }

  /** A continuation character, and everything up to the data of the line where the word goes on. */
  ghost predicate Joiner(s: string) {
    s != "" && IsContinuation(s[0]) && RestOfLine(s[1..])
  }

  /** `s` is copied, and it leads from `st` to `st'`. */
  ghost predicate Copies(st: State, s: string, st': State) {
    Run(st, s) == st' && Out(st, s) == s
  }

  lemma CopiesMore(st: State, s: string, k: nat, mid: State, st': State)
    requires k <= |s| && Copies(st, s[..k], mid) && Copies(mid, s[k..], st')
    ensures Copies(st, s, st')
  {
    hide Out, Run;
    assert s == s[..k] + s[k..];
    RunAppend(st, s[..k], s[k..]);
    OutAppend(st, s[..k], s[k..]);
  }

  lemma CopiesRune(st: State, s: string)
    requires s != "" && (st.mode.Comment? || (st.mode.Plain? && s[0] != '('))
    ensures Copies(st, s[..1], Step(st, s[0]))
  {
    assert s[..1][1..] == "";
  }

  lemma {:induction false} CommentCopies(st: State, s: string)
    requires st.mode.Comment?
    requires var k := CommentLength(s); k > 0 && s[k - 1] == '\n'
    ensures Copies(st, s[..CommentLength(s)], st.(mode := Plain, checkComment := true, newline := true))
    decreases s
  {
    var k := CommentLength(s);
    CopiesRune(st, s);
    if s[0] != '\n' {
      CommentCopies(st, s[1..]);
      assert s[..k][..1] == s[..1] && s[..k][1..] == s[1..][..k - 1];
      CopiesMore(st, s[..k], 1, st, st.(mode := Plain, checkComment := true, newline := true));
    }
  }

  lemma {:induction false} BeforeDataCopies(st: State, s: string)
    requires st.mode.Plain? && st.newline && st.checkComment && st.continued && !st.gap && BeforeData(s)
    ensures Copies(st, s, st)
    decreases |s|
  {
    if s != "" {
      CopiesRune(st, s);
      if s[0] == '*' {
        var k := CommentLength(s[1..]);
        CommentCopies(Step(st, '*'), s[1..]);
        assert s[..1 + k][..1] == s[..1] && s[..1 + k][1..] == s[1..][..k];
        CopiesMore(st, s[..1 + k], 1, Step(st, '*'), st);
        BeforeDataCopies(st, s[1 + k..]);
        CopiesMore(st, s, 1 + k, st, st);
      } else if IsContinuation(s[0]) {
        var next := Step(st, s[0]);
        RestOfLineCopies(next, s[1..]);
        CopiesMore(st, s, 1, next, st);
      } else {
        BeforeDataCopies(st, s[1..]);
        CopiesMore(st, s, 1, st, st);
      }
    }
  }

  lemma {:induction false} RestOfLineCopies(st: State, s: string)
    requires st.mode.Plain? && !st.newline && st.continued && !st.gap && RestOfLine(s)
    ensures Copies(st, s, st.(checkComment := true, newline := true))
    decreases |s|
  {
    var next := Step(st, s[0]);
    var end := st.(checkComment := true, newline := true);
    CopiesRune(st, s);
    if s[0] == '\n' {
      BeforeDataCopies(next, s[1..]);
    } else {
      RestOfLineCopies(next, s[1..]);
    }
    CopiesMore(st, s, 1, next, end);
  }

  lemma JoinerCopies(st: State, s: string)
    requires st.mode.Plain? && Joiner(s)
    ensures Copies(st, s, st.(continued := true, gap := false, checkComment := true, newline := true))
  {
    var next := Step(st, s[0]);
    CopiesRune(st, s);
    RestOfLineCopies(next, s[1..]);
    CopiesMore(st, s, 1, next, st.(continued := true, gap := false, checkComment := true, newline := true));
  }

  /** A rune that goes on with a word, or the bracket after it. */
  predicate GoesOn(c: char) {
    !IsSpace(c) && !IsLinePrefix(c) && !IsContinuation(c) && c != '*'
  }

  lemma JoinedWordGoesOn(st: State, j: string, b: string)
    requires st.mode.Plain? && Joiner(j) && b != "" && GoesOn(b[0]) && (!st.gap || b[0] == '(')
    ensures Out(st, j + b) == j + Out(st, b)
  {
    JoinerCopies(st, j);
    OutAppend(st, j, b);
    var st' := st.(continued := true, gap := false, checkComment := true, newline := true);
    assert Step(st', b[0]) == Step(st, b[0]) && Emit(st', b[0]) == Emit(st, b[0]);
  }

  /** Trimming on the right stops at the latest at the first rune of `b`. */
  lemma TrimRightJoin(a: string, b: string)
    requires b != "" && !IsSpace(b[0])
    ensures TrimRight(a + b) == a + TrimRight(b)
    ensures TrimRight(b) != "" && TrimRight(b)[0] == b[0]
  {
    hide TrimRight;
    assert b == [b[0]] + b[1..];
    TrimRightAppend([b[0]], b[1..]);
    TrimRightAppend(a + [b[0]], b[1..]);
    Associate(a, [b[0]], b[1..]);
    Associate(a, [b[0]], TrimRight(b[1..]));
  }

  lemma TrimJoin(a: string, b: string)
    requires b != "" && !IsSpace(b[0])
    ensures TrimSpace(a + b) == TrimLeft(a) + TrimRight(b)
  {
    hide TrimRight, TrimLeft;
    TrimLeftAppend(a, b);
    TrimRightJoin(TrimLeft(a), b);
  }

  /** Splitting a word (or the place between a keyword and its bracket) over lines adds the
      joiner to the output and changes nothing else: the same values are hidden. */
  lemma SplittingChangesNothing(a: string, j: string, b: string)
    requires Joiner(j) && b != "" && GoesOn(b[0])
    requires var st := Run(START, TrimLeft(a)); st.mode.Plain? && (!st.gap || b[0] == '(')
    ensures var st := Run(START, TrimLeft(a));
            var before, after := Out(START, TrimLeft(a)), Out(st, TrimRight(b));
            Redacted(a + b) == before + after && Redacted(a + (j + b)) == before + (j + after)
  {
    hide TrimRight, TrimLeft, Out, Run, BeforeData, RestOfLine;
    var l, r := TrimLeft(a), TrimRight(b);
    TrimRightJoin(j, b);
    TrimJoin(a, b);
    TrimJoin(a, j + b);
    OutAppend(START, l, r);
    OutAppend(START, l, j + r);
    JoinedWordGoesOn(Run(START, l), j, r);
  }
}
