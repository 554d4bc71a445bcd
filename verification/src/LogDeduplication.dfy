/** Deduplication: which messages a logger drops when they are appended with `deduplicateLine`. */
module LogDeduplication {
  import opened LogText
  import opened LogRotation
  import opened LogRetention

  /** Messages that deduplication is meant for: visible and on one line. */
  predicate OneLiner(e: Entry) {
    TrimSpace(e.text) != [] && SingleLine(TrimSpace(e.text))
  }

  /** Whether a message is to be left out: it is to be deduplicated, and repeats the one before it. */
  predicate Repeats(entries: seq<Entry>, e: Entry) {
    e.deduplicate && entries != [] && Message(entries[|entries| - 1].text) == Message(e.text)
  }

  /** The input with each message that is to be left out left out. */
  function Collapsed(entries: seq<Entry>): (r: seq<Bytes>) {
    if entries == [] then []
    else
      var n := |entries| - 1;
      if Repeats(entries[..n], entries[n]) then Collapsed(entries[..n])
      else Collapsed(entries[..n]) + [Message(entries[n].text)]
  }

  lemma TrimmedText(text: Bytes)
    ensures var t := TrimSpace(text); Trimmed(t) && TrimSpace(t) == t && TrimSpace(Message(text)) == t
  {
    TrimSpaceTrims(text);
    TrimmedIsFixed(TrimSpace(text));
    TrimLineFeed(TrimSpace(text));
  }

  /** A trimmed text does not end with a line break. */
  lemma TrimmedEnd(t: Bytes)
    requires Trimmed(t) && t != []
    ensures !IsBreak(t[|t| - 1])
  {
  }

  lemma BreakIsSkipped(s: Bytes)
    ensures LastLine(s + [LF]) == LastLine(s)
  {
    assert (s + [LF])[..|s|] == s;
  }

  lemma NoBreakAtEnd(a: Bytes, t: Bytes)
    requires t != [] && !IsBreak(t[|t| - 1])
    ensures LastLine(a + t) == LastRun(a + t)
  {
    assert (a + t)[|a + t| - 1] == t[|t| - 1];
  }

  lemma LastLineOfMessage(a: Bytes, t: Bytes)
    requires Trimmed(t) && t != []
    ensures LastLine(a + (t + [LF])) == LastRun(a + t)
  {
    TrimmedEnd(t);
    hide LastLine, LastRun, Trimmed;
    BreakIsSkipped(a + t);
    NoBreakAtEnd(a, t);
    Associate(a, t, [LF]);
  }

  lemma ReplaceNothing(s: Bytes)
    requires SingleLine(s)
    ensures ReplaceLineFeeds(s) == s
  {
  }

  /** A byte inside the UTF-8 encoding of a rune; valid text does not start with one. */
  predicate IsContinuation(b: Byte) {
    0x80 <= b < 0xC0
  }

  /** `t` is text of its own: nothing written just before it can make white space of its start. */
  predicate StandsAlone(t: Bytes) {
    t == [] || !IsContinuation(t[0])
  }

  lemma LeadingFits(x: Bytes, y: Bytes)
    requires 0 < LeadingSpace(x + y) <= |x| || LeadingSpace(x) > 0
    ensures LeadingSpace(x + y) == LeadingSpace(x)
  {
  }

  /** What precedes a trimmed text is trimmed away exactly if it is white space. */
  lemma {:induction false} TrimLeftAfter(x: Bytes, t: Bytes)
    requires LeadingSpace(t) == 0
    ensures TrimLeft(x + t) == t <==> TrimLeft(x) == []
  {
    var w := LeadingSpace(x + t);
    if x == [] {
      assert x + t == t;
    } else if 0 < w <= |x| {
      LeadingFits(x, t);
      assert (x + t)[w..] == x[w..] + t;
      TrimLeftAfter(x[w..], t);
    } else {
      if LeadingSpace(x) > 0 {
        LeadingFits(x, t);
      }
      if w > 0 {
        TrimLeftShortens((x + t)[w..]);
      }
    }
  }

  lemma BlankUnfolds(y: Bytes)
    requires y != [] && TrimRight(y) == []
    ensures TrailingSpace(y) > 0 && TrimRight(y[..|y| - TrailingSpace(y)]) == []
  {
    hide TrailingSpace;
  }

  lemma OneRune(y: Bytes)
    requires TrailingSpace(y) == |y| > 0
    ensures LeadingSpace(y) > 0
  {
  }

  /** What starts with no white space is not all white space. */
  lemma {:induction false} BlankIsLeading(y: Bytes)
    requires y != [] && TrimRight(y) == []
    ensures LeadingSpace(y) > 0
  {
    hide LeadingSpace, TrailingSpace, TrimRight;
    BlankUnfolds(y);
    var n := |y| - TrailingSpace(y);
    if n == 0 {
      OneRune(y);
    } else {
      BlankIsLeading(y[..n]);
      LeadingFits(y[..n], y[n..]);
      assert y[..n] + y[n..] == y;
    }
  }

  lemma SuffixTrailing(y: Bytes, s: Bytes)
    requires |y| <= |s| && y == s[|s| - |y|..] && TrailingSpace(s) == 0
    ensures TrailingSpace(y) == 0
  {
    assert forall k | 0 <= k < |y| :: y[k] == s[|s| - |y| + k];
  }

  /** White space at the end that is longer than `t` would have the start of `t` inside a rune. */
  lemma NoTrailing(x: Bytes, t: Bytes)
    requires Trimmed(t) && t != [] && StandsAlone(t)
    ensures TrailingSpace(x + t) == 0
  {
    var s := x + t;
    assert forall k | 0 <= k < |t| :: s[|x| + k] == t[k];
  }

  lemma {:induction false} TrimLeftIsSuffix(s: Bytes)
    ensures |TrimLeft(s)| <= |s| && TrimLeft(s) == s[|s| - |TrimLeft(s)|..]
  {
    if LeadingSpace(s) > 0 {
      TrimLeftIsSuffix(s[LeadingSpace(s)..]);
    }
  }

  lemma NothingTrailing(s: Bytes)
    requires TrailingSpace(s) == 0
    ensures TrimRight(s) == s
  {
  }

  lemma OnlyLeading(s: Bytes)
    requires TrailingSpace(s) == 0
    ensures TrimSpace(s) == TrimLeft(s)
  {
    hide TrailingSpace, LeadingSpace, TrimLeft;
    TrimLeftIsSuffix(s);
    SuffixTrailing(TrimLeft(s), s);
    NothingTrailing(TrimLeft(s));
  }

  lemma TrimAfter(x: Bytes, t: Bytes)
    requires Trimmed(t) && t != [] && (x == [] || StandsAlone(t))
    ensures TrimSpace(x + t) == t <==> TrimSpace(x) == []
  {
    if x == [] {
      hide TrimSpace, Trimmed;
      assert x + t == t;
      TrimmedIsFixed(t);
      NothingToTrim();
    } else {
      NoTrailing(x, t);
      assert LeadingSpace(t) == 0;
      hide TrimSpace, Trimmed, LeadingSpace, TrailingSpace, TrimLeft, StandsAlone;
      OnlyLeading(x + t);
      TrimLeftAfter(x, t);
      BlankBothWays(x);
    }
  }

  lemma BlankBothWays(x: Bytes)
    ensures TrimSpace(x) == [] <==> TrimLeft(x) == []
  {
    hide TrailingSpace, LeadingSpace, TrimLeft;
    TrimLeftTrims(x);
    if TrimLeft(x) != [] && TrimSpace(x) == [] {
      BlankIsLeading(TrimLeft(x));
    }
    assert TrimRight([]) == [] by { NothingToTrim(); }
  }

  lemma TrimKeepsLine(s: Bytes)
    requires SingleLine(s)
    ensures SingleLine(TrimSpace(s))
  {
    TrimLeftIsSuffix(s);
    TrimRightTrims(TrimLeft(s));
  }

  lemma {:induction false} LastRunJoins(a: Bytes, t: Bytes)
    requires SingleLine(t)
    ensures LastRun(a + t) == LastRun(a) + t
  {
    if t == [] {
      assert a + t == a;
    } else {
      var s := a + t;
      assert s[..|s| - 1] == a + t[..|t| - 1];
      LastRunJoins(a, t[..|t| - 1]);
      assert t == t[..|t| - 1] + [t[|t| - 1]];
    }
  }

  /** The message is not accepted where it has just been written. */
  predicate Dropped(a: Bytes, text: Bytes) {
    !ShouldAppend(a + Message(text), Message(text), true)
  }

  lemma BlankIsDropped(a: Bytes, text: Bytes)
    requires TrimSpace(text) == []
    ensures Dropped(a, text) <==> TrimSpace(LastLine(a)) == []
  {
    TrimmedText(text);
    var s := a + [LF];
    assert s[..|s| - 1] == a && LastLine(s) == LastLine(a);
  }

  lemma CleanMessage(text: Bytes)
    requires SingleLine(TrimSpace(text))
    ensures Clean(Message(text)) == TrimSpace(text)
  {
    TrimmedText(text);
    ReplaceNothing(TrimSpace(text));
  }

  lemma CleanLine(line: Bytes)
    requires SingleLine(line)
    ensures Clean(line) == TrimSpace(line)
  {
    TrimKeepsLine(line);
    ReplaceNothing(TrimSpace(line));
  }

  lemma LineIsDropped(a: Bytes, text: Bytes)
    requires TrimSpace(text) != [] && SingleLine(TrimSpace(text))
    ensures Dropped(a, text) <==> TrimSpace(LastRun(a) + TrimSpace(text)) == TrimSpace(text)
  {
    var t, x := TrimSpace(text), LastRun(a);
    TrimmedText(text);
    CleanMessage(text);
    LastLineOfMessage(a, t);
    LastRunJoins(a, t);
    var b := LastRunSplits(a);
    hide TrimSpace, Clean, LastLine, LastRun, Trimmed;
    CleanLine(x + t);
    assert Message(text) == t + [LF];
  }

  lemma StartHasNoRun(a: Bytes)
    requires AtLineStart(a)
    ensures LastRun(a) == []
  {
  }

  lemma LinesAreKept(a: Bytes, text: Bytes)
    requires !SingleLine(TrimSpace(text))
    ensures !Dropped(a, text)
  {
    var t := TrimSpace(text);
    TrimmedText(text);
    LastLineOfMessage(a, t);
    LastRunAppend(a, t);
    TrimShortens(LastRun(a + t));
    assert |Clean(LastRun(a + t))| < |Clean(Message(text))|;
  }

  /** The line that decides about the repetition of a trimmed message `t` written after `a`: the line
      that it has become part of, or, as a blank message adds no line of its own, the last one of `a`. */
  function LineRead(a: Bytes, t: Bytes): (bytes: Bytes) {
    if t == [] then LastLine(a) else LastRun(a) + t
  }

  /** Repeating the message that was written last is noticed exactly when the message is a single line,
      and the line it has become part of is the message again once white space is trimmed. Unless the
      message goes on with a rune of that line, that is so if and only if there is nothing visible on it
      before the message. Where the message starts a line, as in every file that the logger has written,
      a visible message is dropped if and only if it is a single line. */
  lemma RepeatIsDropped(a: Bytes, text: Bytes)
    ensures var t := TrimSpace(text); Dropped(a, text) <==> SingleLine(t) && TrimSpace(LineRead(a, t)) == t
    ensures var t := TrimSpace(text);
            AtLineStart(a) || StandsAlone(t) ==>
              (Dropped(a, text) <==>
                SingleLine(t) && TrimSpace(if t == [] then LastLine(a) else LastRun(a)) == [])
    ensures AtLineStart(a) && TrimSpace(text) != [] ==> (Dropped(a, text) <==> SingleLine(TrimSpace(text)))
  {
    var t := TrimSpace(text);
    TrimmedText(text);
    hide TrimSpace, Dropped, LastRun, LastLine, Trimmed, AtLineStart, StandsAlone;
    if !SingleLine(t) {
      LinesAreKept(a, text);
    } else if t == [] {
      BlankIsDropped(a, text);
    } else {
      LineIsDropped(a, text);
      if AtLineStart(a) {
        StartHasNoRun(a);
        NothingToTrim();
      }
      if AtLineStart(a) || StandsAlone(t) {
        TrimAfter(LastRun(a), t);
      }
    }
  }

  lemma NothingToTrim()
    ensures TrimSpace([]) == TrimRight([]) == []
  {
  }

  lemma {:induction false} TrimLeftShortens(s: Bytes)
    ensures |TrimLeft(s)| <= |s|
  {
    if LeadingSpace(s) > 0 {
      TrimLeftShortens(s[LeadingSpace(s)..]);
    }
  }

  lemma TrimShortens(s: Bytes)
    ensures |TrimSpace(s)| <= |s|
  {
    TrimLeftShortens(s);
    TrimRightTrims(TrimLeft(s));
  }

  /** After a one-line message, another one-line message is accepted exactly if it differs. */
  lemma DifferenceDecides(a: Bytes, before: Bytes, e: Entry)
    requires AtLineStart(a) && TrimSpace(before) != [] && SingleLine(TrimSpace(before)) && OneLiner(e)
    ensures ShouldAppend(a + Message(before), Message(e.text), true) <==> Message(before) != Message(e.text)
  {
    var t := TrimSpace(before);
    TrimmedText(before);
    TrimmedText(e.text);
    LastLineOfMessage(a, t);
    LastRunOfLine(a, t);
    ReplaceNothing(t);
    ReplaceNothing(TrimSpace(e.text));
    assert Message(before)[..|t|] == t;
    assert Message(e.text)[..|TrimSpace(e.text)|] == TrimSpace(e.text);
  }

  lemma FirstIsAccepted(e: Entry)
    requires OneLiner(e)
    ensures ShouldAppend([], Message(e.text), true)
  {
    TrimmedText(e.text);
    ReplaceNothing(TrimSpace(e.text));
  }

  lemma {:induction false} JoinedEndsLine(ms: seq<Bytes>)
    requires forall m | m in ms :: m != [] && m[|m| - 1] == LF
    ensures AtLineStart(Joined(ms))
  {
  }

  /** The state of the logger after `entries`: the newest file ends with the last message. */
  ghost predicate EndsWith(h: History, entries: seq<Entry>) {
    && |h.cuts| >= 2
    && (forall m | m in h.accepted :: m != [] && m[|m| - 1] == LF)
    && (entries == [] ==> Contents(h.files, 1) == [])
    && (entries != [] ==>
         && h.accepted != [] && h.cuts[1] < |h.accepted|
         && h.accepted[|h.accepted| - 1] == Message(entries[|entries| - 1].text))
  }

  lemma NewestFile(h: History, n: nat, entries: seq<Entry>) returns (a: Bytes)
    requires Layout(h, n) && n >= 1 && EndsWith(h, entries) && entries != []
    ensures AtLineStart(a) && Contents(h.files, 1) == a + Message(entries[|entries| - 1].text)
  {
    hide Message;
    assert Holds(h, 1);
    var ms := h.accepted[h.cuts[1]..h.cuts[0]];
    assert Joined(ms) == Joined(ms[..|ms| - 1]) + ms[|ms| - 1];
    hide Joined;
    a := Joined(ms[..|ms| - 1]);
    assert forall m | m in ms[..|ms| - 1] :: m in h.accepted;
    JoinedEndsLine(ms[..|ms| - 1]);
  }

  lemma PlainIsAccepted(files: Directory, e: Entry)
    requires !e.deduplicate
    ensures Accepts(files, e)
  {
  }

  lemma OnlyRepeatsAreDropped(h: History, n: nat, entries: seq<Entry>, e: Entry)
    requires n >= 1 && Layout(h, n) && EndsWith(h, entries)
    requires OneLiner(e) && forall d | d in entries :: OneLiner(d)
    ensures Accepts(h.files, e) <==> !Repeats(entries, e)
  {
    hide Joined, Message, ShouldAppend, TrimSpace;
    if !e.deduplicate {
      PlainIsAccepted(h.files, e);
    } else if entries == [] {
      FirstIsAccepted(e);
    } else {
      var a := NewestFile(h, n, entries);
      assert entries[|entries| - 1] in entries;
      DifferenceDecides(a, entries[|entries| - 1].text, e);
    }
  }

  lemma CollapsedMore(entries: seq<Entry>, e: Entry)
    ensures Collapsed(entries + [e])
         == if Repeats(entries, e) then Collapsed(entries) else Collapsed(entries) + [Message(e.text)]
  {
    hide Message;
    assert (entries + [e])[..|entries|] == entries;
  }

  lemma RecordEndsWith(h: History, entries: seq<Entry>, e: Entry, limits: Limits)
    requires limits.files >= 1 && Layout(h, limits.files) && EndsWith(h, entries)
    requires Accepts(h.files, e) || Repeats(entries, e)
    ensures EndsWith(Record(h, e, limits), entries + [e])
  {
    hide Joined, Appended, Message, Accepts, Rotates;
    MessageEnds(e.text);
    assert Holds(h, 1);
  }

  /** The logger has accepted the input with repeats collapsed, and still knows the last message. */
  ghost predicate Collapses(h: History, entries: seq<Entry>, limits: Limits) {
    && Layout(h, limits.files) && EndsWith(h, entries) && h.accepted == Collapsed(entries)
    && forall d | d in entries :: OneLiner(d)
  }

  lemma RecordCollapses(h: History, entries: seq<Entry>, e: Entry, limits: Limits)
    requires |h.cuts| == limits.files + 1 && limits.files >= 1 && Collapses(h, entries, limits) && OneLiner(e)
    ensures Collapses(Record(h, e, limits), entries + [e], limits)
  {
    hide Layout, EndsWith, Appended, Message, Accepts, Rotates, OneLiner, Collapsed, Repeats;
    OnlyRepeatsAreDropped(h, limits.files, entries, e);
    CollapsedMore(entries, e);
    RecordEndsWith(h, entries, e, limits);
    RecordKeepsLayout(h, e, limits);
  }

  lemma MessageEnds(text: Bytes)
    ensures Message(text) != [] && Message(text)[|Message(text)| - 1] == LF
  {
  }

  lemma StartCollapses(files: Directory, limits: Limits)
    requires Fresh(files, limits.files) && limits.files >= 1
    ensures Collapses(Start(files, limits.files), [], limits)
  {
    StartLayout(files, limits.files);
  }

  lemma {:induction false} RunCollapses(h: History, entries: seq<Entry>, limits: Limits)
    requires |h.cuts| == limits.files + 1 && limits.files >= 1 && Collapses(h, [], limits)
    requires forall e | e in entries :: OneLiner(e)
    ensures Collapses(RecordAll(h, entries, limits), entries, limits)
  {
    hide Collapses, OneLiner, Record;
    if entries != [] {
      var n := |entries| - 1;
      RunCollapses(h, entries[..n], limits);
      RecordCollapses(RecordAll(h, entries[..n], limits), entries[..n], entries[n], limits);
      assert entries[..n] + [entries[n]] == entries;
    }
  }

  /** One-line messages, deduplicated or not: what is accepted is the input with those left out that are
      to be deduplicated and repeat the one before them, across any rotations. */
  lemma DeduplicationCollapsesRepeats(files: Directory, entries: seq<Entry>, limits: Limits)
    requires Fresh(files, limits.files) && limits.files >= 1
    requires forall e | e in entries :: OneLiner(e)
    ensures RecordAll(Start(files, limits.files), entries, limits).accepted == Collapsed(entries)
  {
    StartCollapses(files, limits);
    RunCollapses(Start(files, limits.files), entries, limits);
  }

  /** The same, one message at a time: with any mixture of flags, a message is left out if and only if
      its flag is set and the message before it was the same. */
  lemma RepeatsAreLeftOut(files: Directory, entries: seq<Entry>, e: Entry, limits: Limits)
    requires Fresh(files, limits.files) && limits.files >= 1
    requires forall d | d in entries + [e] :: TrimSpace(d.text) != [] && SingleLine(TrimSpace(d.text))
    ensures var n := |entries|; var start := Start(files, limits.files);
            var accepted := RecordAll(start, entries, limits).accepted;
            RecordAll(start, entries + [e], limits).accepted ==
              if e.deduplicate && n > 0 && TrimSpace(entries[n - 1].text) == TrimSpace(e.text) then accepted
              else accepted + [TrimSpace(e.text) + [LF]]
  {
    forall d | d in entries
      ensures OneLiner(d)
    {
      assert d in entries + [e];
    }
    forall d | d in entries + [e]
      ensures OneLiner(d)
    {
    }
    DeduplicationCollapsesRepeats(files, entries, limits);
    DeduplicationCollapsesRepeats(files, entries + [e], limits);
    CollapsedMore(entries, e);
    if entries != [] {
      SameMessage(entries[|entries| - 1].text, e.text);
    }
  }

  lemma SameMessage(text: Bytes, text': Bytes)
    ensures Message(text) == Message(text') <==> TrimSpace(text) == TrimSpace(text')
  {
    hide TrimSpace;
    assert Message(text)[..|TrimSpace(text)|] == TrimSpace(text);
    assert Message(text')[..|TrimSpace(text')|] == TrimSpace(text');
  }

  lemma PlainRecord(h: History, e: Entry, limits: Limits)
    requires |h.cuts| == limits.files + 1 && limits.files >= 1 && !e.deduplicate
    ensures Record(h, e, limits).accepted == h.accepted + [TrimSpace(e.text) + [LF]]
  {
    PlainIsAccepted(h.files, e);
    RecordAccepts(h, e, limits);
  }

  /** What is stored for a text: the text, trimmed and with one line feed. */
  function Stored(entries: seq<Entry>): (r: seq<Bytes>) {
    seq(|entries|, i requires 0 <= i < |entries| => TrimSpace(entries[i].text) + [LF])
  }

  lemma StoredMore(entries: seq<Entry>, e: Entry)
    ensures Stored(entries + [e]) == Stored(entries) + [TrimSpace(e.text) + [LF]]
  {
    hide TrimSpace;
  }

  /** Without deduplication every message is accepted, whatever it is. */
  lemma {:induction false} EverythingIsKept(h: History, entries: seq<Entry>, limits: Limits)
    requires |h.cuts| == limits.files + 1 && limits.files >= 1
    requires forall i | 0 <= i < |entries| :: !entries[i].deduplicate
    ensures RecordAll(h, entries, limits).accepted == h.accepted + Stored(entries)
  {
    if entries != [] {
      var n := |entries| - 1;
      EverythingIsKept(h, entries[..n], limits);
      hide Stored, Record;
      PlainRecord(RecordAll(h, entries[..n], limits), entries[n], limits);
      StoredMore(entries[..n], entries[n]);
      assert entries[..n] + [entries[n]] == entries;
      hide TrimSpace;
      assert h.accepted + (Stored(entries[..n]) + [TrimSpace(entries[n].text) + [LF]])
          == (h.accepted + Stored(entries[..n])) + [TrimSpace(entries[n].text) + [LF]];
    }
  }

  /** What file 1 holds after a message has been appended without deduplication, for every directory,
      message and limit: the message, trimmed and with one line feed, at its end, and before it what was
      there, or nothing if the two together would have reached the limit. */
  lemma PlainIsAppended(files: Directory, text: Bytes, maxFileBytes: int, n: int)
    ensures var after := Appended(files, text, false, maxFileBytes, n);
            var before := if 1 in files then files[1] else [];
            && 1 in after
            && after[1] == (if |before| + |TrimSpace(text)| + 1 >= maxFileBytes then [] else before)
                           + (TrimSpace(text) + [LF])
  {
    var r := Rotated(Opened(files), n);
    assert 1 in r <==> ExistsAfter(Opened(files), n, 1);
    hide TrimSpace;
  }

  /** A deduplicated message is dropped exactly if it agrees with the last line of file 1, both trimmed,
      byte by byte, a line feed counting as a space. */
  lemma ComparedByteByByte(file: Bytes, text: Bytes)
    ensures var t, l := TrimSpace(text), TrimSpace(LastLine(file));
            !ShouldAppend(file, Message(text), true) <==>
            |t| == |l| && forall i | 0 <= i < |t| ::
              t[i] == l[i] || ((t[i] == 10 || t[i] == 32) && (l[i] == 10 || l[i] == 32))
  {
    TrimmedText(text);
    var t, l := TrimSpace(text), TrimSpace(LastLine(file));
    hide TrimSpace, LastLine;
    var t', l' := ReplaceLineFeeds(t), ReplaceLineFeeds(l);
    if |t| == |l| {
      assert forall i | 0 <= i < |t| :: t'[i] == l'[i] <==>
        (t[i] == l[i] || ((t[i] == 10 || t[i] == 32) && (l[i] == 10 || l[i] == 32)));
    }
  }
}
