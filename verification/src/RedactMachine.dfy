/** The redactor of `internal/mqscredact` as a transducer: one step per rune, emitting
    the runes that reach the log. The imperative code (module `Mqscredact`) is proved to
    compute exactly this, and the theorems are stated about it. */
module RedactMachine {
  import opened Text

  const REDACTION := "(*********)"
  const SENSITIVE_PARAMETERS := ["LDAPPWD", "PASSWORD", "SSLCRYP"]

  /** The complement of the regular expression [^:0-9\s]: what may precede the data of a line. */
  predicate IsLinePrefix(c: char) {
    c == ':' || '0' <= c <= '9' || c == '\t' || c == '\n' || c == '\U{C}' || c == '\r' || c == ' '
  }

  predicate IsSensitive(command: string) {
    exists k | 0 <= k < |SENSITIVE_PARAMETERS| :: Contains(command, SENSITIVE_PARAMETERS[k])
  }

  /** A word hides the parameter that follows it when its upper-case form holds a keyword. */
  predicate IsSensitiveWord(word: string) {
    IsSensitive(ToUpper(word))
  }

  // ---------------------------------------------------------------- the value of a parameter

  /** Where a scan of a parameter value is: outside quotes, inside a quoted string, at the
      start of a line of a quoted string, in a comment line of a quoted string, or past `)`. */
  datatype Scan = Value | Quoted(quote: char) | LineStart(quote: char) | CommentLine(quote: char) | Closed

  function QuotedStep(quote: char, c: char): (next: Scan) {
    if c == quote then Value else if c == '\n' then LineStart(quote) else Quoted(quote)
  }

  function ScanStep(scan: Scan, c: char): (next: Scan) {
    match scan
    case Value => if c == ')' then Closed else if c == '\'' || c == '"' then Quoted(c) else Value
    case Quoted(q) => QuotedStep(q, c)
    case LineStart(q) =>
      if IsLinePrefix(c) then LineStart(q)
      else if c == '*' then CommentLine(q)
      else QuotedStep(q, c)
    case CommentLine(q) => if c == '\n' then LineStart(q) else CommentLine(q)
    case Closed => Closed
  }

  function ScanAll(scan: Scan, s: string): (next: Scan)
    decreases s
  {
    if s == [] then scan else ScanAll(ScanStep(scan, s[0]), s[1..])
  }

  /** How many runes a scan consumes: through the closing bracket, or everything. */
  function ScanLength(scan: Scan, s: string): (k: nat)
    ensures k <= |s|
    decreases s
  {
    if scan.Closed? || s == [] then 0 else 1 + ScanLength(ScanStep(scan, s[0]), s[1..])
  }

  // ---------------------------------------------------------------- the whole text

  datatype Mode = Plain | Comment | Parameter(scan: Scan)

  /** `mode` is where the code is; the other fields are the variables of `Redact`. */
  datatype State = State(
    mode: Mode, verb: string, redacting: bool, continued: bool, gap: bool, checkComment: bool, newline: bool)

  const START := State(Plain, "", false, false, false, true, true)
  const AFTER_PARAMETER := State(Plain, "", false, false, false, true, false)

  /** The state when the value of a parameter is being read: the other variables are reset after it. */
  function InParameter(scan: Scan, redacting: bool): (s': State) {
    State(Parameter(scan), "", redacting, false, false, false, false)
  }

  /** `redacting` once the word read so far has been completed. */
  predicate CompletedRedacting(st: State) {
    st.redacting || IsSensitiveWord(st.verb)
  }

  /** A rune of plain text once any line prefix has been skipped. */
  function DataStep(st: State, c: char): (s': State) {
    match c
    case '+' => st.(continued := true, gap := false)
    case '-' => st.(continued := true, gap := false)
    case '\n' => st.(gap := st.gap || !st.continued, checkComment := true, newline := true)
    case '\t' => st.(gap := st.gap || !st.continued)
    case '\r' => st.(gap := st.gap || !st.continued)
    case ' ' => st.(gap := st.gap || !st.continued)
    case '(' => InParameter(Value, CompletedRedacting(st))
    case _ =>
      if c == '*' && st.checkComment then st.(mode := Comment)
      else if st.gap then State(Plain, [c], CompletedRedacting(st), false, false, false, false)
      else State(Plain, st.verb + [c], st.redacting, false, false, false, false)
  }

  function Step(st: State, c: char): (s': State) {
    match st.mode
    case Plain =>
      if st.newline && IsLinePrefix(c) then st else DataStep(st.(newline := false), c)
    case Comment =>
      if c == '\n' then st.(mode := Plain, checkComment := true, newline := true) else st
    case Parameter(scan) =>
      var next := ScanStep(scan, c);
      if next.Closed? then AFTER_PARAMETER else InParameter(next, st.redacting)
  }

  /** What reaches the output when the rune `c` is read in state `st`. */
  function Emit(st: State, c: char): (text: string) {
    match st.mode
    case Plain => if c == '(' && CompletedRedacting(st) then REDACTION else [c]
    case Comment => [c]
    case Parameter(_) => if st.redacting then "" else [c]
  }

  function Run(st: State, s: string): (s': State)
    decreases s
  {
    if s == [] then st else Run(Step(st, s[0]), s[1..])
  }

  function Out(st: State, s: string): (text: string)
    decreases s
  {
    if s == [] then "" else Emit(st, s[0]) + Out(Step(st, s[0]), s[1..])
  }

  function Redacted(s: string): (text: string) {
    Out(START, TrimSpace(s))
  }

  // ---------------------------------------------------------------- composition

  lemma OutCons(st: State, c: char, rest: string)
    ensures Out(st, [c] + rest) == Emit(st, c) + Out(Step(st, c), rest)
  {
    assert ([c] + rest)[1..] == rest;
  }

  lemma {:induction false} RunAppend(st: State, a: string, b: string)
    ensures Run(st, a + b) == Run(Run(st, a), b)
    decreases a
  {
    if a == [] {
      assert a + b == b;
    } else {
      assert (a + b)[1..] == a[1..] + b;
      RunAppend(Step(st, a[0]), a[1..], b);
    }
  }

  lemma {:induction false} OutAppend(st: State, a: string, b: string)
    ensures Out(st, a + b) == Out(st, a) + Out(Run(st, a), b)
    decreases a
  {
    if a == [] {
      assert a + b == b;
    } else {
      assert (a + b)[1..] == a[1..] + b;
      OutAppend(Step(st, a[0]), a[1..], b);
    }
  }

  /** Reading a parameter value: the runes consumed are copied, or all swallowed when
      redacting, and the machine goes on after them in the state for ordinary text. */
  lemma {:induction false} OutParameter(scan: Scan, redacting: bool, s: string)
    requires !scan.Closed?
    ensures var k := ScanLength(scan, s);
            Out(InParameter(scan, redacting), s)
            == (if redacting then "" else s[..k]) + Out(AFTER_PARAMETER, s[k..])
    decreases s
  {
    if s != [] {
      var next := ScanStep(scan, s[0]);
      var k := ScanLength(scan, s);
      OutCons(InParameter(scan, redacting), s[0], s[1..]);
      assert s == [s[0]] + s[1..];
      hide Out, ScanStep;
      if next.Closed? {
        assert k == 1 && s[..1] == [s[0]];
      } else {
        OutParameter(next, redacting, s[1..]);
        TakeOneMore(s, k, Out(AFTER_PARAMETER, s[k..]));
      }
    }
  }

  lemma TakeOneMore(s: string, k: nat, tail: string)
    requires 0 < k <= |s|
    ensures s[..k] + tail == [s[0]] + (s[1..][..k - 1] + tail) && s[k..] == s[1..][k - 1..]
    ensures "" + tail == tail
  {
    assert s[..k] == [s[0]] + s[1..][..k - 1];
    Associate([s[0]], s[1..][..k - 1], tail);
  }
}
