/** `internal/mqscredact/mqscredact.go`: the redactor as written, loop for loop, proved to
    compute the transducer of module `RedactMachine`. */
module Mqscredact {
  import opened Options
  import opened Text
  import opened RedactMachine

  /** The `bufio.Reader`: the runes not read yet. `Peek` looks at one byte in the source; a lead
      byte of a multi-byte rune is data exactly like the rune, and other runes are one byte. */
  class RuneReader {
    var rest: string

    constructor (text: string)
      ensures rest == text
    {
      rest := text;
    }

    method ReadRune() returns (c: Option<char>)
      modifies this
      ensures c.None? ==> old(rest) == [] && rest == []
      ensures c.Some? ==> old(rest) == [c.value] + rest
    {
      if rest == [] {
        return None;
      }
      c := Some(rest[0]);
      rest := rest[1..];
    }

    method Peek() returns (c: Option<char>)
      ensures c == if rest == [] then None else Some(rest[0])
    {
      if rest == [] {
        return None;
      }
      return Some(rest[0]);
    }
  }

  /** What a scan in state `from` still consumes of `before` is `taken`, and then what a scan in
      state `scan` consumes of `rest`. */
  ghost predicate Continues(from: Scan, before: string, taken: string, scan: Scan, rest: string) {
    && before == taken + rest
    && ScanLength(from, before) == |taken| + ScanLength(scan, rest)
  }

  /** One more rune: either the scan goes on, or the bracket closed it. */
  lemma ContinuesWith(from: Scan, before: string, taken: string, scan: Scan, rest: string, c: char, rest': string)
    requires Continues(from, before, taken, scan, rest)
    requires rest == [c] + rest' && !scan.Closed?
    ensures Continues(from, before, taken + [c], ScanStep(scan, c), rest')
  {
    assert rest[1..] == rest';
    assert before == (taken + [c]) + rest';
  }

  /** A line of a quoted string that does not open with a comment is scanned as quoted text. */
  lemma DataStartsLine(quote: char, rest: string)
    requires rest != [] ==> !IsLinePrefix(rest[0]) && rest[0] != '*'
    ensures ScanLength(LineStart(quote), rest) == ScanLength(Quoted(quote), rest)
  {
  }

  method FindEndOfParameterString(stringDenoter: char, r: RuneReader) returns (parameter: string)
    modifies r
    ensures Continues(Quoted(stringDenoter), old(r.rest), parameter, Value, r.rest)
    ensures |r.rest| <= |old(r.rest)|
  {
    parameter := "";
    ghost var before := r.rest;
    ghost var from := Quoted(stringDenoter);
    while true
      invariant |r.rest| <= |old(r.rest)|
      invariant Continues(from, before, parameter, from, r.rest)
      decreases |r.rest|
    {
      ghost var rest := r.rest;
      var c := r.ReadRune();
      if c.None? {
        return;
      }
      ContinuesWith(from, before, parameter, from, rest, c.value, r.rest);
      parameter := parameter + [c.value];
      if c.value == stringDenoter {
        break;
      } else if c.value == '\n' {
        while true
          invariant |r.rest| < |rest|
          invariant Continues(from, before, parameter, LineStart(stringDenoter), r.rest)
          decreases |r.rest|
        {
          var next := r.Peek();
          if next.None? {
            return;
          }
          if !IsLinePrefix(next.value) {
            if next.value == '*' {
              ghost var scan := LineStart(stringDenoter);
              ghost var start := r.rest;
              while true
                invariant |r.rest| <= |start|
                invariant Continues(from, before, parameter, scan, r.rest)
                invariant if r.rest == start then scan == LineStart(stringDenoter) && start != [] && start[0] == '*'
                          else scan == CommentLine(stringDenoter)
                decreases |r.rest|
              {
                ghost var rest' := r.rest;
                c := r.ReadRune();
                if c.None? {
                  return;
                }
                ContinuesWith(from, before, parameter, scan, rest', c.value, r.rest);
                scan := ScanStep(scan, c.value);
                parameter := parameter + [c.value];
                if c.value == '\n' {
                  break;
                }
              }
              continue;
            }
            DataStartsLine(stringDenoter, r.rest);
            break;
          }
          ghost var rest' := r.rest;
          c := r.ReadRune();
          ContinuesWith(from, before, parameter, LineStart(stringDenoter), rest', c.value, r.rest);
          parameter := parameter + [c.value];
        }
      }
    }
  }

  /** A quoted string inside a value. */
  lemma ContinuesQuoted(before: string, taken: string, quote: char, quoted: string, s: string, rest: string)
    requires Continues(Value, before, taken, Quoted(quote), quoted)
    requires Continues(Quoted(quote), quoted, s, Value, rest)
    ensures Continues(Value, before, taken + s, Value, rest)
  {
    assert before == (taken + s) + rest;
  }

  lemma ValueTaken(before: string, taken: string, scan: Scan, rest: string)
    requires Continues(Value, before, taken, scan, rest)
    requires scan.Closed? || rest == []
    ensures var k := ScanLength(Value, before);
            taken == before[..k] && rest == before[k..]
  {
  }

  method GetParameterString(r: RuneReader) returns (parameter: string)
    modifies r
    ensures |r.rest| <= |old(r.rest)|
    ensures var before := old(r.rest);
            var k := ScanLength(Value, before);
            parameter == "(" + before[..k] && r.rest == before[k..]
  {
    ghost var before := r.rest;
    ghost var taken := "";
    parameter := "(";
    while true
      invariant |r.rest| <= |old(r.rest)|
      invariant parameter == "(" + taken
      invariant Continues(Value, before, taken, Value, r.rest)
      decreases |r.rest|
    {
      ghost var rest := r.rest;
      var c := r.ReadRune();
      if c.None? {
        ValueTaken(before, taken, Value, rest);
        return;
      }
      ContinuesWith(Value, before, taken, Value, rest, c.value, r.rest);
      Associate("(", taken, [c.value]);
      parameter := parameter + [c.value];
      taken := taken + [c.value];
      if c.value == ')' {
        ValueTaken(before, taken, Closed, r.rest);
        break;
      } else if c.value == '\'' || c.value == '"' {
        ghost var quoted := r.rest;
        var s := FindEndOfParameterString(c.value, r);
        ContinuesQuoted(before, taken, c.value, quoted, s, r.rest);
        Associate("(", taken, s);
        parameter := parameter + s;
        taken := taken + s;
      }
    }
  }

  /** The variables the source resets between parameters; `newline` is not one of them. */
  method ResetAllParameters() returns (currentVerb: string, originalString: string,
      lineContinuation: bool, foundGap: bool, parameterNext: bool, redacting: bool, checkComment: bool)
    ensures currentVerb == originalString == ""
    ensures !lineContinuation && !foundGap && !parameterNext && !redacting && checkComment
  {
    return "", "", false, false, false, false, true;
  }

  method IsSensitiveCommand(command: string) returns (r: bool)
    ensures r == IsSensitive(command)
  {
    for i := 0 to |SENSITIVE_PARAMETERS|
      invariant forall k | 0 <= k < i :: !Contains(command, SENSITIVE_PARAMETERS[k])
    {
      if Contains(command, SENSITIVE_PARAMETERS[i]) {
        return true;
      }
    }
    return false;
  }

  // ------------------------------------------------------------------ the main loop

  /** With `returnStr` settled, `originalString` pending and the machine in state `st`, reading
      `rest` completes the output `total`. */
  ghost predicate Ahead(total: string, returnStr: string, originalString: string, st: State, rest: string) {
    total == (returnStr + originalString) + Out(st, rest)
  }

  /** The same when the bracket of a parameter has just been read. */
  ghost predicate AheadValue(total: string, returnStr: string, redacting: bool, rest: string) {
    total == (returnStr + if redacting then REDACTION else "(") + Out(InParameter(Value, redacting), rest)
  }

  lemma NothingRead(out: string)
    ensures Ahead(Redacted(out), "", "", START, TrimSpace(out))
  {
    assert Redacted(out) == ("" + "") + Redacted(out);
  }

  lemma AllRead(total: string, returnStr: string, originalString: string, st: State)
    requires Ahead(total, returnStr, originalString, st, "")
    ensures total == returnStr + originalString
    ensures originalString == "" ==> total == returnStr
  {
  }

  lemma RuneRead(total: string, returnStr: string, originalString: string, st: State, c: char, rest: string)
    requires Ahead(total, returnStr, originalString, st, [c] + rest)
    requires st.mode.Comment? || (st.mode.Plain? && c != '(')
    ensures Ahead(total, returnStr, originalString + [c], Step(st, c), rest)
  {
    assert ([c] + rest)[1..] == rest;
    Associate(returnStr + originalString, [c], Out(Step(st, c), rest));
    Associate(returnStr, originalString, [c]);
  }

  lemma BracketRead(total: string, returnStr: string, originalString: string, st: State, rest: string)
    requires Ahead(total, returnStr, originalString, st, ['('] + rest) && st.mode.Plain?
    ensures AheadValue(total, returnStr + originalString, CompletedRedacting(st), rest)
  {
    assert (['('] + rest)[1..] == rest;
    Associate(returnStr + originalString, Emit(st, '('), Out(Step(st, '('), rest));
  }

  lemma NothingBefore(s: string)
    ensures "" + s == s
  {
  }

  lemma ValueRead(total: string, returnStr: string, redacting: bool, rest: string)
    requires AheadValue(total, returnStr, redacting, rest)
    ensures var k := ScanLength(Value, rest);
            Ahead(total, returnStr + if redacting then REDACTION else "(" + rest[..k], "", AFTER_PARAMETER, rest[k..])
  {
    hide Out, ScanLength;
    OutParameter(Value, redacting, rest);
    var k := ScanLength(Value, rest);
    var taken := if redacting then REDACTION else "(" + rest[..k];
    if !redacting {
      Associate(returnStr + "(", rest[..k], Out(AFTER_PARAMETER, rest[k..]));
      Associate(returnStr, "(", rest[..k]);
    } else {
      NothingBefore(Out(AFTER_PARAMETER, rest[k..]));
    }
    assert returnStr + taken == (returnStr + taken) + "";
  }

  lemma ContinuationRead(total: string, returnStr: string, originalString: string, st: State, c: char, rest: string)
    requires Ahead(total, returnStr, originalString, st, [c] + rest) && st.mode.Plain?
    requires c == '+' || c == '-'
    ensures Ahead(total, returnStr, originalString + [c], st.(newline := false, continued := true, gap := false), rest)
  {
    RuneRead(total, returnStr, originalString, st, c, rest);
  }

  lemma BlankRead(total: string, returnStr: string, originalString: string, st: State, c: char, rest: string)
    requires Ahead(total, returnStr, originalString, st, [c] + rest) && st.mode.Plain? && !st.newline
    requires c == '\n' || c == '\t' || c == '\r' || c == ' '
    ensures Ahead(total, returnStr, originalString + [c],
      st.(gap := st.gap || !st.continued, checkComment := st.checkComment || c == '\n', newline := c == '\n'), rest)
  {
    RuneRead(total, returnStr, originalString, st, c, rest);
  }

  /** A rune of a word; a gap before it means that the previous word is complete and settled. */
  lemma WordRead(total: string, returnStr: string, originalString: string, st: State, c: char, rest: string)
    requires Ahead(total, returnStr, originalString, st, [c] + rest) && st.mode.Plain?
    requires c != '+' && c != '-' && c != '\n' && c != '\t' && c != '\r' && c != ' ' && c != '('
    requires !(c == '*' && st.checkComment) && !(st.newline && IsLinePrefix(c))
    ensures if st.gap
      then Ahead(total, returnStr + originalString, "" + [c],
        State(Plain, "" + [c], CompletedRedacting(st), false, false, false, false), rest)
      else Ahead(total, returnStr, originalString + [c],
        State(Plain, st.verb + [c], st.redacting, false, false, false, false), rest)
  {
    RuneRead(total, returnStr, originalString, st, c, rest);
    Associate(returnStr, originalString, [c]);
    assert "" + [c] == [c];
  }

  method Redact(out: string) returns (returnStr: string)
    ensures returnStr == Redacted(out)
  {
    hide Ahead, AheadValue, Out, IsSensitive, ToUpper, TrimSpace, Redacted;
    var text := TrimSpace(out);
    returnStr := "";
    var currentVerb, originalString, lineContinuation, foundGap, parameterNext, redacting, checkComment :=
      ResetAllParameters();
    var newline := true;
    var r := new RuneReader(text);
    ghost var total := Redacted(out);
    NothingRead(out);

    while true
      invariant parameterNext ==> !newline
      invariant if parameterNext
        then AheadValue(total, returnStr, redacting, r.rest)
        else Ahead(total, returnStr, originalString,
          State(Plain, currentVerb, redacting, lineContinuation, foundGap, checkComment, newline), r.rest)
      decreases |r.rest|
    {
      if parameterNext {
        ValueRead(total, returnStr, redacting, r.rest);
        var parameterStr := GetParameterString(r);
        if !redacting {
          returnStr := returnStr + parameterStr;
        } else {
          returnStr := returnStr + REDACTION;
        }
        currentVerb, originalString, lineContinuation, foundGap, parameterNext, redacting, checkComment :=
          ResetAllParameters();
      }
      ghost var st := State(Plain, currentVerb, redacting, lineContinuation, foundGap, checkComment, newline);

      var c := r.ReadRune();
      if c.None? {
        AllRead(total, returnStr, originalString, st);
        if originalString != "" {
          returnStr := returnStr + originalString;
        }
        break;
      }

      if newline {
        if IsLinePrefix(c.value) {
          RuneRead(total, returnStr, originalString, st, c.value, r.rest);
          originalString := originalString + [c.value];
          continue;
        }
        newline := false;
      }

      if c.value == '+' || c.value == '-' {
        ContinuationRead(total, returnStr, originalString, st, c.value, r.rest);
        lineContinuation := true;
        foundGap := false;
        originalString := originalString + [c.value];
        continue;
      } else if c.value == '\n' || c.value == '\t' || c.value == '\r' || c.value == ' ' {
        BlankRead(total, returnStr, originalString, st, c.value, r.rest);
        if c.value == '\n' {
          checkComment := true;
          newline := true;
        }
        if !lineContinuation {
          foundGap := true;
        }
        originalString := originalString + [c.value];
        continue;
      } else if c.value == '(' {
        BracketRead(total, returnStr, originalString, st, r.rest);
        parameterNext := true;
      } else if c.value == '*' && checkComment {
        RuneRead(total, returnStr, originalString, st, c.value, r.rest);
        originalString := originalString + [c.value];
        ghost var comment := st.(mode := Comment, newline := false);
        while true
          invariant Ahead(total, returnStr, originalString, comment, r.rest)
          decreases |r.rest|
        {
          c := r.ReadRune();
          if c.None? {
            AllRead(total, returnStr, originalString, comment);
            if originalString != "" {
              returnStr := returnStr + originalString;
            }
            return;
          }
          RuneRead(total, returnStr, originalString, comment, c.value, r.rest);
          originalString := originalString + [c.value];
          if c.value == '\n' {
            break;
          }
        }
        checkComment := true;
        newline := true;
        continue;
      } else {
        WordRead(total, returnStr, originalString, st, c.value, r.rest);
      }

      checkComment := false;
      if lineContinuation {
        lineContinuation := false;
      }
      if foundGap || parameterNext {
        currentVerb := ToUpper(currentVerb);
        var sensitive := IsSensitiveCommand(currentVerb);
        if sensitive {
          redacting := true;
        }
        returnStr := returnStr + originalString;
        originalString := "";
        currentVerb := "";
        foundGap := false;
        lineContinuation := false;
      }
      originalString := originalString + [c.value];
      currentVerb := currentVerb + [c.value];
    }
  }
}
