/** The redactor seen from outside: what happens to MQSC settings, stated about the text alone. Which
    words hide a value, what a value is, and what joins and separates words are all spelled out here. */
module RedactSettings {
  import opened Text
  import opened RedactMachine
  import opened RedactTheorems
  import opened RedactWords
  import opened RedactSplitting

  // ---------------------------------------------------------------- which words are sensitive

  /** `c` is the capital letter `k`, in either case; the long s is a small S as well. */
  predicate SameLetter(c: char, k: char) {
    c == k || c as int == k as int + 32 || (k == 'S' && c == '\U{17F}')
  }

  predicate SpelledAt(w: string, i: nat, keyword: string) {
    i + |keyword| <= |w| && forall j | 0 <= j < |keyword| :: SameLetter(w[i + j], keyword[j])
  }

  predicate Spells(w: string, keyword: string) {
    exists i | 0 <= i <= |w| :: SpelledAt(w, i, keyword)
  }

  predicate Hides(w: string) {
    Spells(w, "LDAPPWD") || Spells(w, "PASSWORD") || Spells(w, "SSLCRYP")
  }

  predicate IsCapital(k: char) {
    'A' <= k <= 'Z' && k != 'I'
  }

  lemma UpperIs(c: char, k: char)
    requires IsCapital(k)
    ensures UpperRune(c) == k <==> SameLetter(c, k)
  {
  }

  lemma SpelledIsUpper(w: string, i: nat, keyword: string)
    requires forall j | 0 <= j < |keyword| :: IsCapital(keyword[j])
    ensures OccursAt(ToUpper(w), keyword, i) <==> SpelledAt(w, i, keyword)
  {
    if i + |keyword| <= |w| {
      var u := ToUpper(w)[i..i + |keyword|];
      forall j | 0 <= j < |keyword|
        ensures u[j] == keyword[j] <==> SameLetter(w[i + j], keyword[j])
      {
        UpperIs(w[i + j], keyword[j]);
      }
      if SpelledAt(w, i, keyword) {
        assert u == keyword;
      }
    }
  }

  lemma SpelledIsContained(w: string, keyword: string)
    requires forall j | 0 <= j < |keyword| :: IsCapital(keyword[j])
    ensures Contains(ToUpper(w), keyword) <==> Spells(w, keyword)
  {
    forall i: nat | i <= |w|
      ensures OccursAt(ToUpper(w), keyword, i) <==> SpelledAt(w, i, keyword)
    {
      SpelledIsUpper(w, i, keyword);
    }
    hide OccursAt, SpelledAt, ToUpper;
    assert |ToUpper(w)| == |w| by { UpperLength(w); }
  }

  lemma UpperLength(w: string)
    ensures |ToUpper(w)| == |w|
  {
  }

  /** The words that hide a value are those that spell LDAPPWD, PASSWORD or SSLCRYP somewhere, in any
      mixture of cases, and no others. */
  lemma SensitiveIff(w: string)
    ensures IsSensitiveWord(w) <==> Hides(w)
  {
    SpelledIsContained(w, "LDAPPWD");
    SpelledIsContained(w, "PASSWORD");
    SpelledIsContained(w, "SSLCRYP");
    hide Contains, Spells, ToUpper;
    var u := ToUpper(w);
    assert IsSensitive(u) <==> Contains(u, "LDAPPWD") || Contains(u, "PASSWORD") || Contains(u, "SSLCRYP")
      by { KeywordsAre(u); }
  }

  lemma KeywordsAre(u: string)
    ensures IsSensitive(u) <==> Contains(u, "LDAPPWD") || Contains(u, "PASSWORD") || Contains(u, "SSLCRYP")
  {
    hide Contains;
    assert SENSITIVE_PARAMETERS[0] == "LDAPPWD" && SENSITIVE_PARAMETERS[1] == "PASSWORD"
        && SENSITIVE_PARAMETERS[2] == "SSLCRYP";
  }

  // ---------------------------------------------------------------- what a value is

  /** What may precede the data of a line: digits, colons and white space. */
  predicate IsNumbering(c: char) {
    c in "0123456789: \t\n\U{C}\r"
  }

  lemma NumberingIsPrefix(c: char)
    ensures IsLinePrefix(c) <==> IsNumbering(c)
  {
  }

  /** The place `i` comes after a line break, with nothing but numbering in between. */
  ghost predicate AtLineStart(s: string, i: nat)
    requires i <= |s|
  {
    exists n | 0 <= n < i :: s[n] == '\n' && forall k | n < k < i :: IsNumbering(s[k])
  }

  /** The place `i` is on a comment line: a line that begins with an asterisk, numbering aside. */
  ghost predicate OnCommentLine(s: string, i: nat)
    requires i <= |s|
  {
    exists p | 0 <= p < i :: s[p] == '*' && AtLineStart(s, p) && forall k | p < k < i :: s[k] != '\n'
  }

  /** Up to the place `n` the text has its own quote only on comment lines. */
  ghost predicate StaysQuoted(quote: char, s: string, n: nat)
    requires n <= |s|
  {
    forall i | 0 <= i < n && s[i] == quote :: OnCommentLine(s, i)
  }

  /** A value is made of plain text and quoted strings, and ends with a bracket. */
  datatype Segment = Bare(c: char) | Str(quote: char, body: string)

  predicate IsQuote(c: char) {
    c == '\'' || c == '"'
  }

  ghost predicate WellFormed(seg: Segment) {
    match seg
    case Bare(c) => c != ')' && !IsQuote(c)
    case Str(q, body) => IsQuote(q) && StaysQuoted(q, body, |body|) && !OnCommentLine(body, |body|)
  }

  function Render(segs: seq<Segment>): (text: string) {
    if segs == [] then ""
    else (match segs[0] case Bare(c) => [c] case Str(q, body) => [q] + body + [q]) + Render(segs[1..])
  }

  ghost predicate IsValue(v: string) {
    exists segs: seq<Segment> ::
      (forall i | 0 <= i < |segs| :: WellFormed(segs[i])) && v == Render(segs) + ")"
  }

  // the scan of a quoted string

  ghost function Place(quote: char, s: string, n: nat): (scan: Scan)
    requires n <= |s|
  {
    if OnCommentLine(s, n) then CommentLine(quote)
    else if AtLineStart(s, n) then LineStart(quote)
    else Quoted(quote)
  }

  lemma LineFeedIsNumbering()
    ensures IsNumbering('\n')
  {
  }

  /** One rune further on. */
  lemma LineStartStep(s: string, n: nat)
    requires n < |s|
    ensures AtLineStart(s, n + 1) <==> s[n] == '\n' || (IsNumbering(s[n]) && AtLineStart(s, n))
  {
    hide IsNumbering;
    assert IsNumbering('\n') by { LineFeedIsNumbering(); }
    if s[n] != '\n' && AtLineStart(s, n + 1) {
      var m :| 0 <= m < n + 1 && s[m] == '\n' && forall k | m < k < n + 1 :: IsNumbering(s[k]);
      assert m < n;
    }
    if IsNumbering(s[n]) && AtLineStart(s, n) {
      var m :| 0 <= m < n && s[m] == '\n' && forall k | m < k < n :: IsNumbering(s[k]);
      assert forall k | m < k < n + 1 :: IsNumbering(s[k]);
    }
  }

  lemma CommentStep(s: string, n: nat)
    requires n < |s|
    ensures OnCommentLine(s, n + 1) <==>
            (s[n] == '*' && AtLineStart(s, n)) || (s[n] != '\n' && OnCommentLine(s, n))
  {
    hide AtLineStart;
    if OnCommentLine(s, n + 1) {
      var p :| 0 <= p < n + 1 && s[p] == '*' && AtLineStart(s, p) && forall k | p < k < n + 1 :: s[k] != '\n';
      if p < n {
        assert s[n] != '\n';
        assert OnCommentLine(s, n);
      }
    }
    if s[n] != '\n' && OnCommentLine(s, n) {
      var p :| 0 <= p < n && s[p] == '*' && AtLineStart(s, p) && forall k | p < k < n :: s[k] != '\n';
      assert forall k | p < k < n + 1 :: s[k] != '\n';
    }
  }

  /** A line does not begin inside a comment line. */
  lemma {:induction false} NotBoth(s: string, n: nat)
    requires n <= |s|
    ensures !(OnCommentLine(s, n) && AtLineStart(s, n))
  {
    if n > 0 {
      NotBoth(s, n - 1);
      LineStartStep(s, n - 1);
      CommentStep(s, n - 1);
    }
  }

  lemma PlaceStep(quote: char, s: string, n: nat)
    requires n < |s| && IsQuote(quote) && (s[n] == quote ==> OnCommentLine(s, n))
    ensures ScanStep(Place(quote, s, n), s[n]) == Place(quote, s, n + 1)
  {
    NotBoth(s, n);
    LineStartStep(s, n);
    CommentStep(s, n);
    NumberingIsPrefix(s[n]);
    hide AtLineStart, OnCommentLine;
  }

  lemma {:induction false} ScanIsPlace(quote: char, s: string, n: nat)
    requires n <= |s| && IsQuote(quote) && StaysQuoted(quote, s, n)
    ensures ScanAll(Quoted(quote), s[..n]) == Place(quote, s, n)
  {
    if n == 0 {
      assert s[..0] == "";
    } else {
      ScanIsPlace(quote, s, n - 1);
      PlaceStep(quote, s, n - 1);
      ScanMore(Quoted(quote), s, n - 1);
    }
  }

  lemma ScanMore(scan: Scan, s: string, n: nat)
    requires n < |s|
    ensures ScanAll(scan, s[..n + 1]) == ScanStep(ScanAll(scan, s[..n]), s[n])
  {
    assert s[..n + 1] == s[..n] + [s[n]];
    ScanSplits(scan, s[..n], [s[n]]);
    ScanOne(ScanAll(scan, s[..n]), s[n]);
  }

  lemma NeverCloses(quote: char, s: string)
    requires IsQuote(quote) && StaysQuoted(quote, s, |s|)
    ensures ScanAll(Quoted(quote), s) != Closed
  {
    ScanIsPlace(quote, s, |s|);
    assert s[..|s|] == s;
  }

  /** The quote that ends a quoted string. */
  lemma {:induction false} QuoteEnds(quote: char, s: string, n: nat) returns (m: nat)
    requires n <= |s| && IsQuote(quote) && StaysQuoted(quote, s, n) && ScanAll(Quoted(quote), s) == Closed
    ensures m < |s| && s[m] == quote && StaysQuoted(quote, s, m) && !OnCommentLine(s, m)
    decreases |s| - n
  {
    if n == |s| {
      NeverCloses(quote, s);
      assert false;
    } else if s[n] == quote && !OnCommentLine(s, n) {
      m := n;
    } else {
      hide OnCommentLine;
      m := QuoteEnds(quote, s, n + 1);
    }
  }

  lemma NothingBefore(s: string)
    ensures !AtLineStart(s, 0) && !OnCommentLine(s, 0)
  {
  }

  /** What `s` says up to the place `n` does not depend on what follows. */
  lemma {:induction false} PlacesInPrefix(quote: char, s: string, n: nat, i: nat)
    requires i <= n <= |s|
    ensures AtLineStart(s[..n], i) == AtLineStart(s, i) && OnCommentLine(s[..n], i) == OnCommentLine(s, i)
  {
    if i == 0 {
      NothingBefore(s);
      NothingBefore(s[..n]);
    } else {
      hide AtLineStart, OnCommentLine, IsNumbering;
      assert s[..n][i - 1] == s[i - 1];
      PlacesInPrefix(quote, s, n, i - 1);
      LineStartStep(s, i - 1);
      LineStartStep(s[..n], i - 1);
      CommentStep(s, i - 1);
      CommentStep(s[..n], i - 1);
    }
  }

  lemma BodyOf(quote: char, s: string, m: nat)
    requires m <= |s| && StaysQuoted(quote, s, m) && !OnCommentLine(s, m)
    ensures StaysQuoted(quote, s[..m], m) && !OnCommentLine(s[..m], m)
  {
    forall i | 0 <= i < m && s[..m][i] == quote
      ensures OnCommentLine(s[..m], i)
    {
      PlacesInPrefix(quote, s, m, i);
    }
    PlacesInPrefix(quote, s, m, m);
  }

  lemma ScanString(quote: char, body: string)
    requires WellFormed(Str(quote, body))
    ensures ScanAll(Value, [quote] + body + [quote]) == Value
  {
    ScanIsPlace(quote, body, |body|);
    assert body[..|body|] == body;
    hide AtLineStart, OnCommentLine;
    NumberingIsPrefix(quote);
    ScanSplits(Value, [quote] + body, [quote]);
    ScanSplits(Value, [quote], body);
    ScanOne(Value, quote);
    ScanOne(ScanAll(Quoted(quote), body), quote);
  }

  lemma {:induction false} ScanRendered(segs: seq<Segment>)
    requires forall i | 0 <= i < |segs| :: WellFormed(segs[i])
    ensures ScanAll(Value, Render(segs)) == Value
  {
    if segs != [] {
      var seg := segs[0];
      assert WellFormed(seg);
      var first := match seg case Bare(c) => [c] case Str(q, body) => [q] + body + [q];
      ScanRendered(segs[1..]);
      ScanSplits(Value, first, Render(segs[1..]));
      match seg
      case Bare(c) => ScanOne(Value, c);
      case Str(q, body) => ScanString(q, body);
    }
  }

  lemma RenderCons(seg: Segment, segs: seq<Segment>)
    ensures Render([seg] + segs)
         == (match seg case Bare(c) => [c] case Str(q, body) => [q] + body + [q]) + Render(segs)
  {
    assert ([seg] + segs)[1..] == segs;
  }

  /** The segments of a value. */
  lemma {:induction false} SegmentsOf(v: string) returns (segs: seq<Segment>)
    requires ScanAll(Value, v) == Closed && ScanLength(Value, v) == |v|
    ensures (forall i | 0 <= i < |segs| :: WellFormed(segs[i])) && v == Render(segs) + ")"
    decreases |v|
  {
    ClosedAtBracket(Value, v);
    if |v| == 1 {
      segs := [];
    } else if !IsQuote(v[0]) {
      BareFirst(v);
      var tail := SegmentsOf(v[1..]);
      segs := [Bare(v[0])] + tail;
      RenderCons(Bare(v[0]), tail);
      assert v == [v[0]] + v[1..];
    } else {
      var q, m := StringFirst(v);
      var tail := SegmentsOf(v[m + 2..]);
      var seg := Str(q, v[1..m + 1]);
      segs := [seg] + tail;
      RenderCons(seg, tail);
      hide Render, ScanAll, ScanLength;
      Rejoin(v, m);
      Associate([q] + v[1..m + 1] + [q], Render(tail), ")");
    }
  }

  lemma Rejoin(v: string, m: nat)
    requires m + 2 <= |v| && v[0] == v[m + 1]
    ensures v == [v[0]] + v[1..m + 1] + [v[0]] + v[m + 2..]
  {
  }

  lemma BareFirst(v: string)
    requires ScanAll(Value, v) == Closed && ScanLength(Value, v) == |v| > 1 && !IsQuote(v[0])
    ensures v[0] != ')' && ScanAll(Value, v[1..]) == Closed && ScanLength(Value, v[1..]) == |v| - 1
  {
  }

  lemma StringFirst(v: string) returns (q: char, m: nat)
    requires ScanAll(Value, v) == Closed && ScanLength(Value, v) == |v| > 1 && IsQuote(v[0])
    ensures q == v[0] && m + 2 <= |v| && v[m + 1] == q && WellFormed(Str(q, v[1..m + 1]))
    ensures ScanAll(Value, v[m + 2..]) == Closed && ScanLength(Value, v[m + 2..]) == |v| - m - 2
  {
    q := v[0];
    var s := v[1..];
    assert ScanAll(Quoted(q), s) == Closed && ScanLength(Quoted(q), s) == |s|;
    m := QuoteEnds(q, s, 0);
    BodyOf(q, s, m);
    assert s[..m] == v[1..m + 1];
    ScanIsPlace(q, s, m);
    ScanMore(Quoted(q), s, m);
    NumberingIsPrefix(q);
    hide AtLineStart, OnCommentLine;
    assert ScanAll(Quoted(q), s[..m + 1]) == Value;
    assert s == s[..m + 1] + s[m + 1..] && s[m + 1..] == v[m + 2..];
    ScanSplits(Quoted(q), s[..m + 1], s[m + 1..]);
    LengthSplits(Quoted(q), s[..m + 1], s[m + 1..]);
  }

  lemma {:induction false} LengthSplits(scan: Scan, a: string, b: string)
    requires !scan.Closed? && ScanAll(scan, a) != Closed
    ensures ScanLength(scan, a + b) == |a| + ScanLength(ScanAll(scan, a), b)
    decreases a
  {
    if a == "" {
      assert a + b == b;
    } else {
      assert (a + b)[1..] == a[1..] + b;
      if ScanStep(scan, a[0]).Closed? {
        ClosedStays(Closed, a[1..]);
      }
      LengthSplits(ScanStep(scan, a[0]), a[1..], b);
    }
  }

  /** The value of a parameter ends at the first bracket outside quotes, and comment lines do not end a
      quote: what the redactor takes for a value is plain text and quoted strings, up to a bracket. */
  lemma ValueIff(v: string)
    ensures ClosedValue(v) <==> IsValue(v)
  {
    ClosedAtBracket(Value, v);
    if ClosedValue(v) {
      var segs := SegmentsOf(v);
    }
    if IsValue(v) {
      var segs: seq<Segment> :| (forall i | 0 <= i < |segs| :: WellFormed(segs[i])) && v == Render(segs) + ")";
      ScanRendered(segs);
      assert v[..|v| - 1] == Render(segs);
    }
  }

  // ---------------------------------------------------------------- any position

  lemma QuotedIsValue(quote: char, v: string)
    requires IsQuote(quote) && quote !in v && '\n' !in v
    ensures IsValue([quote] + v + [quote] + ")")
  {
    var seg := Str(quote, v);
    forall i | 0 <= i <= |v|
      ensures !AtLineStart(v, i)
    {
    }
    hide AtLineStart;
    assert WellFormed(seg);
    RenderCons(seg, []);
    assert [seg] + [] == [seg];
    assert Render([seg]) + ")" == [quote] + v + [quote] + ")";
  }

  lemma LetterIsValue(c: char)
    requires c != ')' && !IsQuote(c)
    ensures IsValue([c] + ")")
  {
    var seg := Bare(c);
    RenderCons(seg, []);
    assert [seg] + [] == [seg] && WellFormed(seg);
    assert Render([seg]) + ")" == [c] + ")";
  }

  /** A quoted value is hidden as a whole, brackets and quotes of the other kind included: what is
      written is what would be written for any other value in its place. */
  lemma QuotedValueIsHidden(before: string, quote: char, v: string, after: string)
    requires OpensRedacted(before) && (quote == '\'' || quote == '"') && quote !in v && '\n' !in v
    ensures Redacted(before + "(" + ([quote] + v + [quote] + ")") + after)
         == Redacted(before + "(" + ("x" + ")") + after)
  {
    QuotedIsValue(quote, v);
    LetterIsValue('x');
    ValueIff([quote] + v + [quote] + ")");
    ValueIff("x" + ")");
    hide ClosedValue, OpenValue, IsValue, OpensRedacted;
    RedactedValueIsSecret(before, [quote] + v + [quote] + ")", "x" + ")", after);
  }

  /** `(` read after `before` opens a parameter, and one that is shown. */
  predicate OpensShown(before: string) {
    var st := Run(START, TrimLeft(before));
    st.mode.Plain? && !CompletedRedacting(st)
  }

  lemma OutShown(b: string, v: string, a: string)
    requires Run(START, b).mode.Plain? && !CompletedRedacting(Run(START, b))
    requires ScanLength(Value, v + a) == |v|
    ensures Out(START, b + ("(" + (v + a))) == Out(START, b) + (("(" + v) + Out(AFTER_PARAMETER, a))
  {
    hide Out, Run, ScanLength, CompletedRedacting;
    OutAppend(START, b, "(" + (v + a));
    OutSetting(Run(START, b), v + a);
    assert (v + a)[..|v|] == v && (v + a)[|v|..] == a;
  }

  /** A value in any other position is copied as a whole, and what comes before and after it does not
      depend on it. */
  lemma ShownValueIsCopied(before: string, value: string, after: string)
    requires OpensShown(before) && IsValue(value)
    ensures Redacted(before + "(" + value + after)
         == Out(START, TrimLeft(before)) + (("(" + value) + Out(AFTER_PARAMETER, TrimRight(after)))
  {
    ValueIff(value);
    assert ClosedValue(value);
    hide IsValue;
    TrimClosed(before, value, after);
    OutShown(TrimLeft(before), value, TrimRight(after));
  }

  // ---------------------------------------------------------------- words and settings

  /** A rune that always belongs to a word. */
  predicate IsLetter(c: char) {
    c !in " \t\r\n+-("
  }

  predicate Letters(w: string) {
    forall i | 0 <= i < |w| :: IsLetter(w[i])
  }

  /** A word wherever it stands, at the start of a line or not. */
  predicate IsWord(w: string) {
    w != "" && Letters(w) && !IsNumbering(w[0]) && w[0] != '*' && !IsSpace(w[0])
  }

  /** A setting as it is logged. */
  function Logged(w: string, value: string, hidden: bool): (text: string) {
    w + if hidden then "(*********)" else "(" + value
  }

  function WordState(verb: string, redacting: bool): (st: State) {
    State(Plain, verb, redacting, false, false, false, false)
  }

  lemma {:induction false} LettersCopied(verb: string, redacting: bool, w: string)
    requires Letters(w)
    ensures Copies(WordState(verb, redacting), w, WordState(verb + w, redacting))
    decreases |w|
  {
    if w == "" {
      assert verb + w == verb;
    } else {
      var st := WordState(verb, redacting);
      CopiesRune(st, w);
      LetterStep(verb, redacting, w[0]);
      LettersCopied(verb + [w[0]], redacting, w[1..]);
      hide Copies;
      Associate(verb, [w[0]], w[1..]);
      assert w == [w[0]] + w[1..];
      CopiesMore(st, w, 1, WordState(verb + [w[0]], redacting), WordState(verb + w, redacting));
    }
  }

  lemma LetterStep(verb: string, redacting: bool, c: char)
    requires IsLetter(c)
    ensures Step(WordState(verb, redacting), c) == WordState(verb + [c], redacting)
  {
  }

  /** Where a new word can begin: nothing has been decided since the last parameter. */
  predicate AtWord(st: State) {
    st.mode.Plain? && !st.redacting && st.verb == ""
  }

  lemma EmptyHidesNothing()
    ensures !IsSensitiveWord("")
  {
    SensitiveIff("");
  }

  lemma FirstLetter(st: State, c: char)
    requires AtWord(st) && IsLetter(c) && !(st.newline && IsNumbering(c)) && !(st.checkComment && c == '*')
    ensures Step(st, c) == WordState([c], false)
  {
    NumberingIsPrefix(c);
    EmptyHidesNothing();
    hide IsSensitiveWord, IsNumbering;
    assert "" + [c] == [c];
  }

  lemma WordCopied(st: State, w: string)
    requires AtWord(st) && w != "" && Letters(w)
    requires !(st.newline && IsNumbering(w[0])) && !(st.checkComment && w[0] == '*')
    ensures Copies(st, w, WordState(w, false))
  {
    FirstLetter(st, w[0]);
    CopiesRune(st, w);
    LettersCopied([w[0]], false, w[1..]);
    hide Copies;
    assert w == [w[0]] + w[1..];
    CopiesMore(st, w, 1, WordState([w[0]], false), WordState(w, false));
  }

  lemma CopiesThen(st: State, s: string, st': State, rest: string)
    requires Copies(st, s, st')
    ensures Out(st, s + rest) == s + Out(st', rest)
  {
    OutAppend(st, s, rest);
  }

  lemma ValueThen(st: State, value: string, after: string)
    requires st.mode.Plain? && IsValue(value)
    ensures Out(st, "(" + (value + after))
         == (if CompletedRedacting(st) then "(*********)" else "(" + value) + Out(AFTER_PARAMETER, after)
  {
    ValueIff(value);
    assert ClosedValue(value);
    ClosedScan(Value, value, after);
    hide Out, IsValue, CompletedRedacting, ScanLength;
    OutSetting(st, value + after);
    assert (value + after)[..|value|] == value && (value + after)[|value|..] == after;
  }

  /** A setting is written by itself, and leads to the state after a parameter. */
  lemma SettingThen(st: State, w: string, value: string, after: string)
    requires AtWord(st) && w != "" && Letters(w) && IsValue(value)
    requires !(st.newline && IsNumbering(w[0])) && !(st.checkComment && w[0] == '*')
    ensures Out(st, w + ("(" + (value + after))) == Logged(w, value, Hides(w)) + Out(AFTER_PARAMETER, after)
  {
    WordCopied(st, w);
    CopiesThen(st, w, WordState(w, false), "(" + (value + after));
    ValueThen(WordState(w, false), value, after);
    SensitiveIff(w);
    hide Out, IsValue, Hides, IsSensitiveWord;
    Associate(w, if Hides(w) then "(*********)" else "(" + value, Out(AFTER_PARAMETER, after));
  }

  /** Text that ends with a value. */
  predicate Ends(s: string) {
    s != "" && s[|s| - 1] == ')'
  }

  lemma EndsMore(a: string, s: string)
    requires Ends(s)
    ensures Ends(a + s)
  {
  }

  lemma ValueEnds(value: string)
    requires IsValue(value)
    ensures Ends(value)
  {
  }

  lemma SettingEnds(w: string, value: string)
    requires IsValue(value)
    ensures Ends(w + ("(" + value))
  {
    ValueEnds(value);
    hide IsValue, Ends;
    EndsMore("(", value);
    EndsMore(w, "(" + value);
  }

  /** Text that begins with a word and ends with a value is trimmed already. */
  lemma NothingToTrim(first: string, rest: string)
    requires first != "" && !IsSpace(first[0]) && Ends(rest)
    ensures Redacted(first + rest) == Out(START, first + rest)
  {
    var all := first + rest;
    assert all[0] == first[0] && all[|all| - 1] == rest[|rest| - 1];
    TrimmedIsFixed(all);
  }

  lemma NoMore(s: string)
    ensures s + "" == s && Out(AFTER_PARAMETER, "") == ""
  {
  }

  /** A setting at the end of the text. */
  lemma LastSetting(st: State, w: string, value: string)
    requires AtWord(st) && w != "" && Letters(w) && IsValue(value)
    requires !(st.newline && IsNumbering(w[0])) && !(st.checkComment && w[0] == '*')
    ensures Out(st, w + ("(" + value)) == Logged(w, value, Hides(w))
  {
    SettingThen(st, w, value, "");
    hide Out, IsValue, Hides;
    NoMore(value);
    NoMore(Logged(w, value, Hides(w)));
  }

  /** A single setting: its value is hidden if and only if its name spells a sensitive keyword, and
      otherwise nothing is changed. */
  lemma OneSetting(w: string, value: string)
    requires IsWord(w) && IsValue(value)
    ensures Redacted(w + ("(" + value)) == Logged(w, value, Hides(w))
  {
    LastSetting(START, w, value);
    ValueEnds(value);
    EndsMore("(", value);
    hide Out, IsValue, Hides, Ends, Redacted;
    NothingToTrim(w, "(" + value);
  }

  /** Two settings, with nothing in between: each is decided by its own name. The second may begin with
      a digit, which counts as part of it. */
  lemma AdjacentSettings(w: string, value: string, w': string, value': string)
    requires IsWord(w) && IsValue(value) && w' != "" && Letters(w') && w'[0] != '*' && IsValue(value')
    ensures Redacted(w + ("(" + (value + (w' + ("(" + value')))))
         == Logged(w, value, Hides(w)) + Logged(w', value', Hides(w'))
  {
    var second := w' + ("(" + value');
    LastSetting(AFTER_PARAMETER, w', value');
    SettingThen(START, w, value, second);
    SettingEnds(w', value');
    hide Out, IsValue, Hides, Ends, Redacted;
    EndsMore(value, second);
    EndsMore("(", value + second);
    NothingToTrim(w, "(" + (value + second));
  }

  lemma BlankThen(st: State, blank: char, w: string)
    requires st.mode.Plain? && !st.newline && !st.continued && blank in " \t\r\n" && IsWord(w)
    ensures var next := Step(st, blank);
            && Copies(st, [blank], next) && Copies(next, w, WordState(w, CompletedRedacting(st)))
  {
    var next := Step(st, blank);
    CopiesRune(st, [blank]);
    assert [blank][..1] == [blank];
    assert next.mode.Plain? && next.gap && next.verb == st.verb && next.redacting == st.redacting;
    NumberingIsPrefix(w[0]);
    CopiesRune(next, w);
    assert Step(next, w[0]) == WordState([w[0]], CompletedRedacting(st));
    LettersCopied([w[0]], CompletedRedacting(st), w[1..]);
    hide Copies;
    assert w == [w[0]] + w[1..];
    CopiesMore(next, w, 1, WordState([w[0]], CompletedRedacting(st)), WordState(w, CompletedRedacting(st)));
  }

  lemma LastWordAndValue(st: State, w: string, hidden: bool, value: string)
    requires Copies(st, w, WordState(w, hidden)) && IsValue(value)
    ensures Out(st, w + ("(" + value)) == Logged(w, value, hidden || Hides(w))
  {
    SensitiveIff(w);
    hide Copies, Out, IsValue, Hides, IsSensitiveWord;
    NoMore(value);
    ValueThen(WordState(w, hidden), value, "");
    NoMore(if hidden || Hides(w) then "(*********)" else "(" + value);
    CopiesThen(st, w, WordState(w, hidden), "(" + value);
  }

  /** White space and continuation signs. */
  predicate IsGap(g: string) {
    g != "" && forall i | 0 <= i < |g| :: g[i] in " \t\r\n+-"
  }

  predicate HasSign(g: string) {
    exists i | 0 <= i < |g| :: g[i] == '+' || g[i] == '-'
  }

  /** The state after a word and a gap. */
  predicate AfterGap(st: State, w: string, sign: bool) {
    st.mode.Plain? && st.verb == w && !st.redacting && (st.continued <==> sign) && (st.gap <==> !sign)
  }

  lemma SignMore(g: string, c: char)
    ensures HasSign(g + [c]) <==> HasSign(g) || c == '+' || c == '-'
  {
    var all := g + [c];
    assert all[|g|] == c;
    if HasSign(g) {
      var i :| 0 <= i < |g| && (g[i] == '+' || g[i] == '-');
      assert all[i] == g[i];
    }
  }

  lemma GapStep(st: State, w: string, sign: bool, c: char)
    requires AfterGap(st, w, sign) && c in " \t\r\n+-"
    ensures AfterGap(Step(st, c), w, sign || c == '+' || c == '-')
  {
  }

  lemma FirstGapStep(w: string, c: char)
    requires c in " \t\r\n+-"
    ensures AfterGap(Step(WordState(w, false), c), w, c == '+' || c == '-')
  {
  }

  lemma {:induction false} GapCopied(w: string, g: string) returns (st: State)
    requires IsGap(g)
    ensures Copies(WordState(w, false), g, st) && AfterGap(st, w, HasSign(g))
    decreases |g|
  {
    var n := |g| - 1;
    var c := g[n];
    assert g == g[..n] + [c];
    if n == 0 {
      CopiesRune(WordState(w, false), g);
      assert g[..1] == g && g[0] == c;
      FirstGapStep(w, c);
      st := Step(WordState(w, false), c);
      assert HasSign(g) <==> c == '+' || c == '-';
    } else {
      var before := GapCopied(w, g[..n]);
      SignMore(g[..n], c);
      GapStep(before, w, HasSign(g[..n]), c);
      CopiesRune(before, [c]);
      assert [c][..1] == [c];
      st := Step(before, c);
      hide Copies, AfterGap;
      assert g[n..] == [c];
      CopiesMore(WordState(w, false), g, n, before, st);
    }
  }

  lemma WordAfterGap(st: State, w: string, sign: bool, w': string)
    requires AfterGap(st, w, sign) && IsWord(w')
    ensures Copies(st, w', if sign then WordState(w + w', false) else WordState(w', IsSensitiveWord(w)))
  {
    NumberingIsPrefix(w'[0]);
    var verb, redacting := if sign then w else "", if sign then false else IsSensitiveWord(w);
    CopiesRune(st, w');
    assert Step(st, w'[0]) == WordState(verb + [w'[0]], redacting);
    LettersCopied(verb + [w'[0]], redacting, w'[1..]);
    hide Copies, IsSensitiveWord;
    Associate(verb, [w'[0]], w'[1..]);
    assert w' == [w'[0]] + w'[1..] && "" + w' == w';
    CopiesMore(st, w', 1, WordState(verb + [w'[0]], redacting), WordState(verb + w', redacting));
  }

  /** Two words before a value, with anything of white space and signs between them, on one line or on
      several: with a sign they are one word; without, each of them hides the value, but only by itself. */
  lemma GapDecides(w: string, g: string, w': string, value: string)
    requires IsWord(w) && IsGap(g) && IsWord(w') && IsValue(value)
    ensures Redacted(w + (g + (w' + ("(" + value))))
         == w + (g + Logged(w', value, if HasSign(g) then Hides(w + w') else Hides(w) || Hides(w')))
  {
    WordCopied(START, w);
    var st := GapCopied(w, g);
    WordAfterGap(st, w, HasSign(g), w');
    SensitiveIff(w);
    SettingEnds(w', value);
    hide IsSensitiveWord, Hides, Copies, Out, IsValue, Ends, Redacted, AfterGap, HasSign;
    if HasSign(g) {
      JoinedAndValue(st, w, w', value);
    } else {
      LastWordAndValue(st, w', Hides(w), value);
    }
    CopiesThen(WordState(w, false), g, st, w' + ("(" + value));
    CopiesThen(START, w, WordState(w, false), g + (w' + ("(" + value)));
    EndsMore(g, w' + ("(" + value));
    NothingToTrim(w, g + (w' + ("(" + value)));
  }

  lemma JoinedAndValue(st: State, w: string, w': string, value: string)
    requires Copies(st, w', WordState(w + w', false)) && IsValue(value)
    ensures Out(st, w' + ("(" + value)) == Logged(w', value, Hides(w + w'))
  {
    SensitiveIff(w + w');
    hide Copies, Out, IsValue, Hides, IsSensitiveWord;
    NoMore(value);
    ValueThen(WordState(w + w', false), value, "");
    NoMore(if Hides(w + w') then "(*********)" else "(" + value);
    CopiesThen(st, w', WordState(w + w', false), "(" + value);
  }

  lemma {:induction false} NeverClosed(v: string)
    requires ')' !in v && forall i | 0 <= i < |v| :: !IsQuote(v[i])
    ensures ScanAll(Value, v) == Value
    decreases |v|
  {
    if v != "" {
      NeverClosed(v[1..]);
    }
  }

  lemma HidingWordOpens(w: string)
    requires IsWord(w) && Hides(w)
    ensures OpensRedacted(w)
  {
    WordCopied(START, w);
    SensitiveIff(w);
    NoSpaceFirst(w);
    hide Hides, IsSensitiveWord, Letters;
  }

  lemma NothingAfter(w: string, v: string)
    ensures w + "(" + v + "" == w + ("(" + v)
  {
  }

  /** A value that is not closed is hidden to the end of the text. */
  lemma OpenValueIsHidden(w: string, v: string)
    requires IsWord(w) && Hides(w) && ')' !in v && forall i | 0 <= i < |v| :: !IsQuote(v[i])
    ensures Redacted(w + ("(" + v)) == w + "(*********)"
  {
    NeverClosed(v);
    assert OpenValue(v);
    LetterIsValue('x');
    ValueIff("x" + ")");
    HidingWordOpens(w);
    OneSetting(w, "x" + ")");
    hide ScanAll, Redacted, IsValue, Hides, OpensRedacted, ScanLength, IsWord, OpenValue, ClosedValue;
    NothingAfter(w, v);
    NothingAfter(w, "x" + ")");
    RedactedValueIsSecret(w, v, "x" + ")", "");
  }

  /** Two settings with white space between them: each is decided by its own name. */
  lemma TwoSettings(w: string, value: string, blank: char, w': string, value': string)
    requires IsWord(w) && IsValue(value) && blank in " \t\r\n" && IsWord(w') && IsValue(value')
    ensures Redacted(w + ("(" + (value + ([blank] + (w' + ("(" + value'))))))
         == Logged(w, value, Hides(w)) + ([blank] + Logged(w', value', Hides(w')))
  {
    var second := [blank] + (w' + ("(" + value'));
    BlankThen(AFTER_PARAMETER, blank, w');
    EmptyHidesNothing();
    LastWordAndValue(Step(AFTER_PARAMETER, blank), w', false, value');
    SettingThen(START, w, value, second);
    SettingEnds(w', value');
    hide IsSensitiveWord, Hides, Copies, Out, IsValue, Step, Ends, Redacted;
    CopiesThen(AFTER_PARAMETER, [blank], Step(AFTER_PARAMETER, blank), w' + ("(" + value'));
    EndsMore([blank], w' + ("(" + value'));
    EndsMore(value, second);
    EndsMore("(", value + second);
    NothingToTrim(w, "(" + (value + second));
  }

  // ---------------------------------------------------------------- comments, numbers and continuations

  predicate Numbering(num: string) {
    forall i | 0 <= i < |num| :: IsNumbering(num[i])
  }

  lemma CommentEnds(comment: string, rest: string)
    requires '\n' !in comment
    ensures CommentLength(comment + ("\n" + rest)) == |comment| + 1
    decreases |comment|
  {
    var s := comment + ("\n" + rest);
    if comment == "" {
      assert s[0] == '\n';
    } else {
      assert s[0] == comment[0] && s[1..] == comment[1..] + ("\n" + rest);
      CommentEnds(comment[1..], rest);
    }
  }

  lemma CommentThen(st: State, comment: string, rest: string)
    requires st.mode.Plain? && st.checkComment && '\n' !in comment
    ensures Out(st, "*" + (comment + ("\n" + rest)))
         == "*" + (comment + ("\n" + Out(st.(checkComment := true, newline := true), rest)))
  {
    var s := "*" + (comment + ("\n" + rest));
    assert s[1..] == comment + ("\n" + rest);
    CommentEnds(comment, rest);
    CommentCopied(st, s);
    hide Out;
    assert s[..|comment| + 2] == "*" + (comment + "\n") && s[|comment| + 2..] == rest;
    Associate("*" + comment, "\n", Out(st.(checkComment := true, newline := true), rest));
    Associate("*", comment, "\n");
    Associate("*", comment, "\n" + Out(st.(checkComment := true, newline := true), rest));
  }

  lemma CommentMoreEnds(comment: string, rest: string)
    requires Ends(rest)
    ensures Ends("*" + (comment + ("\n" + rest))) && Ends(comment + ("\n" + rest))
  {
    hide Ends;
    EndsMore("\n", rest);
    EndsMore(comment, "\n" + rest);
    EndsMore("*", comment + ("\n" + rest));
  }

  lemma CommentToTrim(comment: string, rest: string)
    requires Ends(rest) && '\n' !in comment
    ensures Redacted("*" + (comment + ("\n" + rest))) == "*" + (comment + ("\n" + Out(START, rest)))
  {
    CommentThen(START, comment, rest);
    CommentMoreEnds(comment, rest);
    assert START.(checkComment := true, newline := true) == START;
    hide Out, Ends, Redacted;
    NothingToTrim("*", comment + ("\n" + rest));
  }

  /** A comment line is copied, and what it says does not count. */
  lemma CommentIsIgnored(comment: string, w: string, value: string)
    requires '\n' !in comment && IsWord(w) && IsValue(value)
    ensures Redacted("*" + (comment + ("\n" + (w + ("(" + value)))))
         == "*" + (comment + ("\n" + Logged(w, value, Hides(w))))
  {
    LastSetting(START, w, value);
    SettingEnds(w, value);
    hide Out, IsValue, Hides, Ends, Redacted, IsWord, Logged;
    CommentToTrim(comment, w + ("(" + value));
  }

  /** So is a comment directly after a value, though it is not at the start of a line. */
  lemma CommentAfterValueIsIgnored(w: string, value: string, comment: string, w': string, value': string)
    requires IsWord(w) && IsValue(value) && '\n' !in comment && IsWord(w') && IsValue(value')
    ensures Redacted(w + ("(" + (value + ("*" + (comment + ("\n" + (w' + ("(" + value'))))))))
         == Logged(w, value, Hides(w)) + ("*" + (comment + ("\n" + Logged(w', value', Hides(w')))))
  {
    var second := "*" + (comment + ("\n" + (w' + ("(" + value'))));
    LastSetting(AFTER_PARAMETER.(newline := true), w', value');
    CommentThen(AFTER_PARAMETER, comment, w' + ("(" + value'));
    SettingThen(START, w, value, second);
    SettingEnds(w', value');
    CommentMoreEnds(comment, w' + ("(" + value'));
    hide Out, IsValue, Hides, Ends, Redacted;
    EndsMore(value, second);
    EndsMore("(", value + second);
    NothingToTrim(w, "(" + (value + second));
  }

  lemma {:induction false} NumberingCopied(st: State, num: string)
    requires st.mode.Plain? && st.newline && Numbering(num)
    ensures Copies(st, num, st)
    decreases |num|
  {
    if num != "" {
      NumberingIsPrefix(num[0]);
      CopiesRune(st, num);
      NumberingCopied(st, num[1..]);
      CopiesMore(st, num, 1, st, st);
    }
  }

  /** A line number before a setting is copied, and does not belong to its name. */
  lemma NumberIsIgnored(num: string, w: string, value: string)
    requires num != "" && Numbering(num) && !IsSpace(num[0]) && IsWord(w) && IsValue(value)
    ensures Redacted(num + (w + ("(" + value))) == num + Logged(w, value, Hides(w))
  {
    LastSetting(START, w, value);
    NumberingCopied(START, num);
    CopiesThen(START, num, START, w + ("(" + value));
    SettingEnds(w, value);
    hide Out, IsValue, Hides, Copies, Ends, Redacted;
    NothingToTrim(num, w + ("(" + value));
  }

  /** Comment lines, each followed by the numbering of the next line. */
  function CommentLines(comments: seq<string>, num: string): (text: string) {
    if comments == [] then "" else "*" + (comments[0] + ("\n" + (num + CommentLines(comments[1..], num))))
  }

  lemma NumberingIsNoSign(c: char)
    requires IsNumbering(c)
    ensures IsLinePrefix(c) && c != '*' && !IsContinuation(c)
  {
  }

  lemma {:induction false} NumberingBefore(num: string, rest: string)
    requires Numbering(num) && BeforeData(rest)
    ensures BeforeData(num + rest)
    decreases |num|
  {
    if num == "" {
      assert num + rest == rest;
    } else {
      NumberingIsNoSign(num[0]);
      hide IsNumbering, IsLinePrefix;
      NumberingBefore(num[1..], rest);
      assert (num + rest)[1..] == num[1..] + rest;
    }
  }

  lemma {:induction false} CommentsBefore(comments: seq<string>, num: string)
    requires Numbering(num) && forall i | 0 <= i < |comments| :: '\n' !in comments[i]
    ensures BeforeData(CommentLines(comments, num))
  {
    if comments != [] {
      CommentsBefore(comments[1..], num);
      var rest := CommentLines(comments[1..], num);
      NumberingBefore(num, rest);
      var s, after := CommentLines(comments, num), comments[0] + ("\n" + (num + rest));
      assert s[1..] == after;
      CommentEnds(comments[0], num + rest);
      var k := |comments[0]| + 1;
      assert s[k] == '\n' && s[1 + k..] == num + rest;
    }
  }

  /** A name that is continued on another line - with either sign, line numbers, and comment lines in
      between - is a single name. */
  lemma ContinuedName(w: string, sign: char, num: string, comments: seq<string>, w': string, value: string)
    requires IsWord(w) && (sign == '+' || sign == '-') && Numbering(num) && IsWord(w') && IsValue(value)
    requires forall i | 0 <= i < |comments| :: '\n' !in comments[i]
    ensures var j := [sign] + ("\n" + (num + CommentLines(comments, num)));
            Redacted(w + (j + (w' + ("(" + value)))) == w + (j + Logged(w', value, Hides(w + w')))
  {
    var rest := num + CommentLines(comments, num);
    var j, b := [sign] + ("\n" + rest), w' + ("(" + value);
    CommentsBefore(comments, num);
    NumberingBefore(num, CommentLines(comments, num));
    IsJoiner(sign, rest);
    Continued(w, j, w', value);
  }

  lemma LettersJoin(w: string, w': string)
    requires IsWord(w) && IsWord(w')
    ensures IsWord(w + w')
  {
  }

  lemma Continued(w: string, j: string, w': string, value: string)
    requires IsWord(w) && Joiner(j) && IsWord(w') && IsValue(value)
    ensures Redacted(w + (j + (w' + ("(" + value)))) == w + (j + Logged(w', value, Hides(w + w')))
  {
    var b := w' + ("(" + value);
    LettersJoin(w, w');
    WordCopied(START, w);
    NumberingIsPrefix(w'[0]);
    NoSpaceFirst(w);
    hide Out, IsValue, Hides, TrimRight, TrimLeft, Redacted, Joiner;
    SplittingChangesNothing(w, j, b);
    OneSetting(w + w', value);
    Associate(w, w', "(" + value);
    Associate(w, w', if Hides(w + w') then "(*********)" else "(" + value);
    Cancel(w, Out(WordState(w, false), TrimRight(b)), Logged(w', value, Hides(w + w')));
  }

  lemma NoSpaceFirst(w: string)
    requires IsWord(w)
    ensures TrimLeft(w) == w
  {
  }

  lemma IsJoiner(sign: char, rest: string)
    requires (sign == '+' || sign == '-') && BeforeData(rest)
    ensures Joiner([sign] + ("\n" + rest))
  {
    hide BeforeData;
    var j := [sign] + ("\n" + rest);
    assert j[1..] == "\n" + rest && j[1..][1..] == rest;
  }

  lemma Cancel(a: string, b: string, c: string)
    requires a + b == a + c
    ensures b == c
  {
    assert (a + b)[|a|..] == b && (a + c)[|a|..] == c;
  }

  // ---------------------------------------------------------------- white space around the text

  predicate IsBlank(c: char) {
    c in "\t\n\U{B}\U{C}\r \U{85}\U{A0}\U{1680}\U{2000}\U{2001}\U{2002}\U{2003}\U{2004}\U{2005}\U{2006}\U{2007}"
    || c in "\U{2008}\U{2009}\U{200A}\U{2028}\U{2029}\U{202F}\U{205F}\U{3000}"
  }

  lemma BlankIsSpace(c: char)
    ensures IsBlank(c) <==> IsSpace(c)
  {
  }

  lemma TrimOne(s: string)
    requires s != "" && IsSpace(s[0])
    ensures TrimLeft(s) == TrimLeft(s[1..])
  {
    hide IsSpace;
  }

  lemma {:induction false} LeftBlanks(a: string, s: string)
    requires forall i | 0 <= i < |a| :: IsBlank(a[i])
    ensures TrimLeft(a + s) == TrimLeft(s)
    decreases |a|
  {
    hide TrimLeft, IsSpace;
    if a == "" {
      assert a + s == s;
    } else {
      BlankIsSpace(a[0]);
      hide IsBlank;
      LeftBlanks(a[1..], s);
      assert (a + s)[1..] == a[1..] + s;
      TrimOne(a + s);
    }
  }

  lemma {:induction false} RightBlanks(s: string, b: string)
    requires forall i | 0 <= i < |b| :: IsBlank(b[i])
    ensures TrimRight(s + b) == TrimRight(s)
    decreases |b|
  {
    if b == "" {
      assert s + b == s;
    } else {
      var n := |b| - 1;
      BlankIsSpace(b[n]);
      hide IsBlank, IsSpace;
      RightBlanks(s, b[..n]);
      assert (s + b)[..|s + b| - 1] == s + b[..n];
    }
  }

  lemma {:induction false} LeftBeforeRight(s: string, b: string)
    requires forall i | 0 <= i < |b| :: IsBlank(b[i])
    ensures TrimLeft(s + b) == if TrimLeft(s) == "" then TrimLeft(b) else TrimLeft(s) + b
    decreases |s|
  {
    hide IsBlank, IsSpace;
    if s == "" {
      assert s + b == b;
    } else if IsSpace(s[0]) {
      LeftBeforeRight(s[1..], b);
      assert (s + b)[1..] == s[1..] + b;
    }
  }

  /** White space around the text changes nothing. */
  lemma SurroundingBlanks(a: string, s: string, b: string)
    requires (forall i | 0 <= i < |a| :: IsBlank(a[i])) && (forall i | 0 <= i < |b| :: IsBlank(b[i]))
    ensures Redacted(a + (s + b)) == Redacted(s)
  {
    hide IsBlank, IsSpace;
    LeftBlanks(a, s + b);
    LeftBeforeRight(s, b);
    if TrimLeft(s) == "" {
      LeftBlanks(b, "");
      assert b + "" == b;
    } else {
      RightBlanks(TrimLeft(s), b);
    }
  }
}
