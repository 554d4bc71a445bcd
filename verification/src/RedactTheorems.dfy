/** What the redactor guarantees, for every input text. */
module RedactTheorems {
  import opened Text
  import opened RedactMachine

  // ---------------------------------------------------------------- idempotence

  predicate Swallowing(st: State) {
    st.mode.Parameter? && st.redacting
  }

  /** The mask itself is read as a parameter value: the machine is after a parameter again. */
  lemma MaskIsAValue(st: State, rest: string)
    requires st.mode.Plain? && CompletedRedacting(st)
    ensures Out(st, REDACTION + rest) == REDACTION + Out(AFTER_PARAMETER, rest)
  {
    var value := REDACTION[1..];
    assert (REDACTION + rest)[1..] == value + rest;
    StarsAreSwallowed(9, rest);
    assert seq(9, _ => '*') + [')'] == value;
    assert (value + rest) == seq(9, _ => '*') + ([')'] + rest);
  }

  lemma {:induction false} StarsAreSwallowed(n: nat, rest: string)
    ensures Out(InParameter(Value, true), seq(n, _ => '*') + ([')'] + rest)) == Out(AFTER_PARAMETER, rest)
  {
    var s := seq(n, _ => '*') + ([')'] + rest);
    if n == 0 {
      assert s == [')'] + rest && s[1..] == rest;
    } else {
      assert s[1..] == seq(n - 1, _ => '*') + ([')'] + rest);
      StarsAreSwallowed(n - 1, rest);
    }
  }

  /** Where the run on the output is while the run on the input is in state `st`: already past
      the parameter whose value the input's run is swallowing. */
  function Ahead(st: State): (s': State) {
    if Swallowing(st) then AFTER_PARAMETER else st
  }

  /** One rune of the input: what it emits takes the run on the output from `Ahead` to `Ahead`. */
  lemma EmitAhead(st: State, c: char, rest: string)
    ensures Out(Ahead(st), Emit(st, c) + rest) == Emit(st, c) + Out(Ahead(Step(st, c)), rest)
  {
    hide Out;
    if Swallowing(st) {
      assert "" + rest == rest;
      assert "" + Out(AFTER_PARAMETER, rest) == Out(AFTER_PARAMETER, rest);
    } else if st.mode.Plain? && c == '(' && CompletedRedacting(st) {
      MaskIsAValue(st, rest);
    } else {
      OutCons(st, c, rest);
    }
  }

  lemma {:induction false} OutOfOut(st: State, s: string)
    ensures Out(Ahead(st), Out(st, s)) == Out(st, s)
    decreases s
  {
    if s != [] {
      OutOfOut(Step(st, s[0]), s[1..]);
      EmitAhead(st, s[0], Out(Step(st, s[0]), s[1..]));
    }
  }

  lemma OutStart(st: State, s: string)
    requires !Swallowing(st) && s != []
    ensures Out(st, s) != [] && Out(st, s)[0] == s[0]
  {
  }

  /** The output ends as the input does, or with the closing bracket of a mask. */
  lemma {:induction false} OutEnd(st: State, s: string)
    requires s != []
    ensures var o := Out(st, s);
            if o == [] then Swallowing(st) else o[|o| - 1] == s[|s| - 1] || o[|o| - 1] == ')'
    decreases s
  {
    var next := Step(st, s[0]);
    assert Out(st, s) == Emit(st, s[0]) + Out(next, s[1..]);
    EmitEnd(st, s[0]);
    if |s| > 1 {
      hide Out, Emit, Step;
      OutEnd(next, s[1..]);
    }
  }

  lemma EmitEnd(st: State, c: char)
    ensures if Emit(st, c) == [] then Swallowing(st) else Emit(st, c) == REDACTION || Emit(st, c) == [c]
    ensures Swallowing(Step(st, c)) ==> Emit(st, c) == [] || Emit(st, c) == REDACTION
  {
  }

  /** Redacting what has been redacted changes nothing. */
  lemma RedactIsIdempotent(s: string)
    ensures Redacted(Redacted(s)) == Redacted(s)
  {
    var t := TrimSpace(s);
    TrimSpaceEnds(s);
    if t != [] {
      OutStart(START, t);
      OutEnd(START, t);
    }
    TrimmedIsFixed(Redacted(s));
    OutOfOut(START, t);
  }

  // ---------------------------------------------------------------- secrecy

  /** `value` ends exactly where the scan of a parameter value that starts with it ends. */
  predicate ClosedValue(value: string) {
    value != [] && ScanLength(Value, value) == |value| && ScanAll(Value, value) == Closed
  }

  /** A value that never closes: it runs to the end of the text. */
  predicate OpenValue(value: string) {
    ScanAll(Value, value) != Closed
  }

  /** `(` read after `before` opens a parameter, and one that is redacted. */
  predicate OpensRedacted(before: string) {
    var st := Run(START, TrimLeft(before));
    st.mode.Plain? && CompletedRedacting(st)
  }

  lemma {:induction false} ClosedScan(scan: Scan, value: string, rest: string)
    requires !scan.Closed? && ScanAll(scan, value) == Closed && ScanLength(scan, value) == |value|
    ensures ScanLength(scan, value + rest) == |value|
    ensures value != [] && value[|value| - 1] == ')'
    decreases value
  {
    assert (value + rest)[1..] == value[1..] + rest;
    var next := ScanStep(scan, value[0]);
    if !next.Closed? {
      ClosedScan(next, value[1..], rest);
    } else {
      assert |value| == 1;
    }
  }

  /** What a scan takes is closed exactly at its end, or is all there is and never closes. */
  lemma {:induction false} ValueTaken(scan: Scan, s: string)
    requires !scan.Closed?
    ensures var k := ScanLength(scan, s);
            if ScanAll(scan, s[..k]) == Closed then ScanLength(scan, s[..k]) == k && k > 0 else k == |s|
    decreases s
  {
    var k := ScanLength(scan, s);
    if s != [] {
      assert s[..k] == [s[0]] + s[1..][..k - 1];
      assert s[..k][1..] == s[1..][..k - 1];
      assert ScanAll(scan, s[..k]) == ScanAll(ScanStep(scan, s[0]), s[1..][..k - 1]);
      var next := ScanStep(scan, s[0]);
      if !next.Closed? {
        ValueTaken(next, s[1..]);
      }
    }
  }

  /** A value closes at a bracket outside quotes, and at the first such bracket: up to it the
      scan is outside quotes and has not closed. */
  lemma {:induction false} ClosedAtBracket(scan: Scan, v: string)
    requires !scan.Closed?
    ensures ScanAll(scan, v) == Closed && ScanLength(scan, v) == |v|
       <==> v != "" && v[|v| - 1] == ')' && ScanAll(scan, v[..|v| - 1]) == Value
    decreases v
  {
    if |v| == 1 {
      assert v[..0] == v[1..] == "";
      assert ScanAll(scan, v) == ScanStep(scan, v[0]) && ScanAll(scan, v[..0]) == scan;
      assert ScanLength(scan, v) == 1;
    } else if v != "" {
      var next, rest, n := ScanStep(scan, v[0]), v[1..], |v| - 1;
      assert v[..n][1..] == rest[..n - 1] && v[n] == rest[n - 1];
      assert ScanAll(scan, v[..n]) == ScanAll(next, rest[..n - 1]);
      assert ScanAll(scan, v) == ScanAll(next, rest) && ScanLength(scan, v) == 1 + ScanLength(next, rest);
      if next.Closed? {
        ClosedStays(next, rest[..n - 1]);
      } else {
        hide ScanAll, ScanLength;
        ClosedAtBracket(next, rest);
      }
    }
  }

  lemma {:induction false} ScanSplits(scan: Scan, a: string, b: string)
    ensures ScanAll(scan, a + b) == ScanAll(ScanAll(scan, a), b)
    decreases a
  {
    if a == [] {
      assert a + b == b;
    } else {
      assert (a + b)[1..] == a[1..] + b;
      ScanSplits(ScanStep(scan, a[0]), a[1..], b);
    }
  }

  lemma {:induction false} PrefixIsSkipped(quote: char, prefix: string)
    requires forall i | 0 <= i < |prefix| :: IsLinePrefix(prefix[i])
    ensures ScanAll(LineStart(quote), prefix) == LineStart(quote)
    decreases prefix
  {
    if prefix != [] {
      PrefixIsSkipped(quote, prefix[1..]);
    }
  }

  lemma {:induction false} CommentIsSkipped(quote: char, comment: string)
    requires '\n' !in comment
    ensures ScanAll(CommentLine(quote), comment) == CommentLine(quote)
    decreases comment
  {
    if comment != [] {
      CommentIsSkipped(quote, comment[1..]);
    }
  }

  /** A comment line inside a quoted value cannot end the quote, whatever it says: after it the scan
      is at the start of the next line of the same quoted string. */
  lemma CommentCannotEndQuote(quote: char, prefix: string, comment: string)
    requires quote != '\n'
    requires (forall i | 0 <= i < |prefix| :: IsLinePrefix(prefix[i])) && '\n' !in comment
    ensures ScanAll(Quoted(quote), ['\n'] + prefix + ['*'] + comment + ['\n']) == LineStart(quote)
  {
    hide ScanAll;
    ScanSplits(Quoted(quote), ['\n'] + prefix + ['*'] + comment, ['\n']);
    ScanSplits(Quoted(quote), ['\n'] + prefix + ['*'], comment);
    ScanSplits(Quoted(quote), ['\n'] + prefix, ['*']);
    ScanSplits(Quoted(quote), ['\n'], prefix);
    ScanOne(Quoted(quote), '\n');
    ScanOne(LineStart(quote), '*');
    ScanOne(CommentLine(quote), '\n');
    PrefixIsSkipped(quote, prefix);
    CommentIsSkipped(quote, comment);
  }

  lemma ScanOne(scan: Scan, c: char)
    ensures ScanAll(scan, [c]) == ScanStep(scan, c)
  {
  }

  lemma {:induction false} OpenPrefix(scan: Scan, value: string, rest: string)
    requires ScanAll(scan, value + rest) != Closed
    ensures ScanAll(scan, value) != Closed
    decreases value
  {
    if value == [] {
      assert value + rest == rest;
      if scan.Closed? {
        ClosedStays(scan, rest);
      }
    } else {
      assert (value + rest)[1..] == value[1..] + rest;
      OpenPrefix(ScanStep(scan, value[0]), value[1..], rest);
    }
  }

  lemma {:induction false} ClosedStays(scan: Scan, s: string)
    requires scan.Closed?
    ensures ScanAll(scan, s) == Closed
    decreases s
  {
    if s != [] {
      ClosedStays(scan, s[1..]);
    }
  }

  lemma {:induction false} OpenScan(scan: Scan, value: string)
    requires ScanAll(scan, value) != Closed
    ensures ScanLength(scan, value) == |value|
    decreases value
  {
    if value != [] {
      OpenScan(ScanStep(scan, value[0]), value[1..]);
    }
  }

  lemma Regroup(a: string, b: string, c: string, d: string)
    ensures a + b + c + d == a + (b + c) + d == a + (b + (c + d))
  {
  }

  lemma TrimClosed(before: string, value: string, after: string)
    requires ClosedValue(value)
    ensures TrimSpace(before + "(" + value + after) == TrimLeft(before) + ("(" + (value + TrimRight(after)))
    ensures ScanLength(Value, value + TrimRight(after)) == |value|
  {
    ClosedScan(Value, value, TrimRight(after));
    hide ScanAll, ScanLength, TrimLeft;
    Regroup(before, "(", value, after);
    TrimAround(before, "(" + value, after);
    Regroup(TrimLeft(before), "(", value, TrimRight(after));
  }

  lemma TrimOpen(before: string, value: string)
    requires OpenValue(value)
    ensures TrimSpace(before + "(" + value) == TrimLeft(before) + ("(" + TrimRight(value))
    ensures ScanLength(Value, TrimRight(value)) == |TrimRight(value)|
  {
    hide ScanAll, ScanLength, TrimLeft;
    var v := TrimRight(value);
    TrimRightIsPrefix(value);
    assert value == v + value[|v|..];
    OpenPrefix(Value, v, value[|v|..]);
    OpenScan(Value, v);
    TrimAround(before, "(", value);
    assert TrimLeft(before) + "(" + v == TrimLeft(before) + ("(" + v);
  }

  lemma TrimParameter(before: string, value: string, after: string) returns (v: string, a: string)
    requires ClosedValue(value) || (OpenValue(value) && after == "")
    ensures TrimSpace(before + "(" + value + after) == TrimLeft(before) + ("(" + (v + a))
    ensures ScanLength(Value, v + a) == |v| && a == TrimRight(after)
  {
    hide TrimSpace, TrimLeft, ScanLength, ClosedValue, OpenValue;
    a := TrimRight(after);
    if ClosedValue(value) {
      v := value;
      TrimClosed(before, value, after);
    } else {
      v := TrimRight(value);
      TrimOpen(before, value);
      assert before + "(" + value + after == before + "(" + value && v + a == v;
    }
  }

  lemma OutSwallowed(v: string, a: string)
    requires ScanLength(Value, v + a) == |v|
    ensures Out(InParameter(Value, true), v + a) == Out(AFTER_PARAMETER, a)
  {
    hide Out, ScanLength;
    OutParameter(Value, true, v + a);
    assert (v + a)[|v|..] == a;
    assert "" + Out(AFTER_PARAMETER, a) == Out(AFTER_PARAMETER, a);
  }

  lemma OutRedactedParameter(b: string, v: string, a: string)
    requires Run(START, b).mode.Plain? && CompletedRedacting(Run(START, b))
    requires ScanLength(Value, v + a) == |v|
    ensures Out(START, b + ("(" + (v + a))) == Out(START, b) + (REDACTION + Out(AFTER_PARAMETER, a))
  {
    hide Out, Run, ScanLength;
    OutAppend(START, b, "(" + (v + a));
    OutCons(Run(START, b), '(', v + a);
    OutSwallowed(v, a);
  }

  /** What is written for a parameter in a position that is redacted: the text before it, the
      mask, and the text after it, whatever the value was. */
  lemma RedactedParameter(before: string, value: string, after: string)
    requires OpensRedacted(before)
    requires ClosedValue(value) || (OpenValue(value) && after == "")
    ensures Redacted(before + "(" + value + after)
            == Out(START, TrimLeft(before)) + (REDACTION + Out(AFTER_PARAMETER, TrimRight(after)))
  {
    var v, a := TrimParameter(before, value, after);
    OutRedactedParameter(TrimLeft(before), v, a);
  }

  /** The output does not depend on a redacted value: any other value that closes gives the
      same output, and a value that never closes gives the output of a closed one at the end. */
  lemma RedactedValueIsSecret(before: string, value: string, value': string, after: string)
    requires OpensRedacted(before)
    requires ClosedValue(value) || (OpenValue(value) && after == "")
    requires ClosedValue(value') || (OpenValue(value') && after == "")
    ensures Redacted(before + "(" + value + after) == Redacted(before + "(" + value' + after)
  {
    RedactedParameter(before, value, after);
    RedactedParameter(before, value', after);
  }
}
