/** What the files of a rotating logger hold after any run of `Append`: the end of the stream of
    messages it accepted, cut between two messages, with bounds on what is kept. */
module LogRetention {
  import opened LogText
  import opened LogRotation

  datatype Entry = Entry(text: Bytes, deduplicate: bool)

  datatype Limits = Limits(maxFileBytes: int, files: nat)

  /** The directory, the messages accepted so far, and how often the files have been rotated.
      `cuts[i]` is the number of accepted messages that are older than all those in files 1..i. */
  datatype History = History(files: Directory, accepted: seq<Bytes>, cuts: seq<nat>, rotations: nat)

  predicate Accepts(files: Directory, e: Entry) {
    ShouldAppend(Contents(files, 1), Message(e.text), e.deduplicate)
  }

  predicate Rotates(files: Directory, e: Entry, limits: Limits) {
    IsFull(Contents(files, 1), Message(e.text), limits.maxFileBytes)
  }

  /** One call of `Append`. */
  function Record(h: History, e: Entry, limits: Limits): (next: History)
    requires |h.cuts| == limits.files + 1 && limits.files >= 1
  {
    var files := Appended(h.files, e.text, e.deduplicate, limits.maxFileBytes, limits.files);
    var n: nat := |h.accepted| + 1;
    if !Accepts(h.files, e) then h.(files := files)
    else if Rotates(h.files, e, limits) then
      History(files, h.accepted + [Message(e.text)], [n] + h.cuts[..limits.files], h.rotations + 1)
    else History(files, h.accepted + [Message(e.text)], h.cuts[0 := n], h.rotations)
  }

  function RecordAll(h: History, entries: seq<Entry>, limits: Limits): (r: History)
    requires |h.cuts| == limits.files + 1 && limits.files >= 1
    ensures |r.cuts| == limits.files + 1
  {
    if entries == [] then h
    else Record(RecordAll(h, entries[..|entries| - 1], limits), entries[|entries| - 1], limits)
  }

  /** The files are rotated by exactly those messages that are accepted and would have made file 1 reach
      the limit. */
  lemma RecordCountsRotations(h: History, e: Entry, limits: Limits)
    requires |h.cuts| == limits.files + 1 && limits.files >= 1
    ensures var file := if 1 in h.files then h.files[1] else [];
            Record(h, e, limits).rotations == h.rotations +
              if Accepts(h.files, e) && |file| + |TrimSpace(e.text)| + 1 >= limits.maxFileBytes then 1 else 0
  {
    hide ShouldAppend, TrimSpace, Appended;
  }

  /** A logger whose files are empty or missing. */
  ghost predicate Fresh(files: Directory, n: nat) {
    forall i | 1 <= i <= n :: Contents(files, i) == []
  }

  function Start(files: Directory, n: nat): (next: History) {
    History(files, [], seq(n + 1, _ => 0), 0)
  }

  function Joined(messages: seq<Bytes>): (bytes: Bytes) {
    if messages == [] then [] else Joined(messages[..|messages| - 1]) + messages[|messages| - 1]
  }

  /** file n ++ ... ++ file 1 */
  function AllFiles(files: Directory, n: nat): (bytes: Bytes) {
    if n == 0 then [] else Contents(files, n) + AllFiles(files, n - 1)
  }

  lemma {:induction false} JoinedAppend(a: seq<Bytes>, b: seq<Bytes>)
    ensures Joined(a + b) == Joined(a) + Joined(b)
  {
    if b == [] {
      assert a + b == a;
    } else {
      assert (a + b)[..|a + b| - 1] == a + b[..|b| - 1];
      JoinedAppend(a, b[..|b| - 1]);
    }
  }

  // ---------------------------------------------------------------- the layout of the files

  /** File `i` holds the messages between its two cuts. */
  ghost predicate Holds(h: History, i: nat)
    requires 1 <= i < |h.cuts|
  {
    && h.cuts[i] <= h.cuts[i - 1] <= |h.accepted|
    && Contents(h.files, i) == Joined(h.accepted[h.cuts[i]..h.cuts[i - 1]])
  }

  ghost predicate Layout(h: History, n: nat) {
    && |h.cuts| == n + 1 && h.cuts[0] == |h.accepted|
    && forall i: nat | 1 <= i <= n :: Holds(h, i)
  }

  /** What a call leaves in file `i`. */
  function FileAfter(files: Directory, e: Entry, limits: Limits, i: int): (bytes: Bytes) {
    if !Accepts(files, e) then Contents(files, i)
    else if Rotates(files, e, limits) then (if i == 1 then Message(e.text) else Contents(files, i - 1))
    else if i == 1 then Contents(files, 1) + Message(e.text)
    else Contents(files, i)
  }

  lemma AppendedFile(files: Directory, e: Entry, limits: Limits, i: int)
    requires 1 <= i <= limits.files
    ensures Contents(Appended(files, e.text, e.deduplicate, limits.maxFileBytes, limits.files), i)
         == FileAfter(files, e, limits, i)
  {
    hide ShouldAppend, Message;
    var before := Opened(files);
    assert before[1] == Contents(files, 1);
    if Accepts(files, e) && Rotates(files, e, limits) {
      var r := Rotated(before, limits.files);
      assert i in r <==> ExistsAfter(before, limits.files, i);
      assert [] + Message(e.text) == Message(e.text);
    }
  }

  lemma HoldsAgain(h: History, i: nat, h': History, j: nat)
    requires 1 <= i < |h.cuts| && 1 <= j < |h'.cuts| && Holds(h, i)
    requires h.accepted <= h'.accepted && h'.cuts[j] == h.cuts[i] && h'.cuts[j - 1] == h.cuts[i - 1]
    requires Contents(h'.files, j) == Contents(h.files, i)
    ensures Holds(h', j)
  {
    assert h'.accepted[h.cuts[i]..h.cuts[i - 1]] == h.accepted[h.cuts[i]..h.cuts[i - 1]];
  }

  lemma RecordKeepsLayout(h: History, e: Entry, limits: Limits)
    requires Layout(h, limits.files) && limits.files >= 1
    ensures Layout(Record(h, e, limits), limits.files)
  {
    hide Joined, Appended, Accepts, Rotates, Message;
    var h', n := Record(h, e, limits), |h.accepted|;
    forall i: nat | 1 <= i <= limits.files
      ensures Holds(h', i)
    {
      AppendedFile(h.files, e, limits, i);
      assert Holds(h, i);
      if !Accepts(h.files, e) {
        HoldsAgain(h, i, h', i);
      } else if Rotates(h.files, e, limits) {
        if i == 1 {
          JoinedMore(h.accepted, n, Message(e.text));
        } else {
          assert Holds(h, i - 1);
          HoldsAgain(h, i - 1, h', i);
        }
      } else if i == 1 {
        JoinedMore(h.accepted, h.cuts[1], Message(e.text));
      } else {
        HoldsAgain(h, i, h', i);
      }
    }
  }

  lemma JoinedMore(messages: seq<Bytes>, cut: nat, m: Bytes)
    requires cut <= |messages|
    ensures Joined((messages + [m])[cut..|messages| + 1]) == Joined(messages[cut..|messages|]) + m
    ensures cut == |messages| ==> Joined(messages[cut..|messages|]) == []
  {
    JoinedOne(m);
    JoinedAppend(messages[cut..|messages|], [m]);
    assert (messages + [m])[cut..|messages| + 1] == messages[cut..|messages|] + [m];
  }

  lemma JoinedOne(m: Bytes)
    ensures Joined([m]) == m
  {
    assert [m][..0] == [];
  }

  lemma StartLayout(files: Directory, n: nat)
    requires Fresh(files, n)
    ensures Layout(Start(files, n), n)
  {
  }

  lemma {:induction false} LayoutAlways(h: History, entries: seq<Entry>, limits: Limits)
    requires Layout(h, limits.files) && limits.files >= 1
    ensures Layout(RecordAll(h, entries, limits), limits.files)
  {
    if entries != [] {
      LayoutAlways(h, entries[..|entries| - 1], limits);
      RecordKeepsLayout(RecordAll(h, entries[..|entries| - 1], limits), entries[|entries| - 1], limits);
    }
  }

  lemma {:induction false} LayoutJoins(h: History, n: nat, k: nat)
    requires Layout(h, n) && k <= n
    ensures h.cuts[k] <= |h.accepted|
    ensures AllFiles(h.files, k) == Joined(h.accepted[h.cuts[k]..])
  {
    if k > 0 {
      LayoutJoins(h, n, k - 1);
      assert Holds(h, k);
      hide Joined;
      JoinedAtCut(h.accepted, h.cuts[k], h.cuts[k - 1]);
    }
  }

  lemma JoinedAtCut(messages: seq<Bytes>, i: nat, j: nat)
    requires i <= j <= |messages|
    ensures Joined(messages[i..]) == Joined(messages[i..j]) + Joined(messages[j..])
  {
    JoinedAppend(messages[i..j], messages[j..]);
    hide Joined;
    assert messages[i..] == messages[i..j] + messages[j..];
  }

  /** The files, oldest first, are the end of the stream of accepted messages, and start with a
      whole message. */
  lemma FilesAreTheEndOfTheStream(files: Directory, entries: seq<Entry>, limits: Limits) returns (k: nat)
    requires Fresh(files, limits.files) && limits.files >= 1
    ensures var h := RecordAll(Start(files, limits.files), entries, limits);
            k <= |h.accepted| && AllFiles(h.files, limits.files) == Joined(h.accepted[k..])
  {
    StartLayout(files, limits.files);
    LayoutAlways(Start(files, limits.files), entries, limits);
    var h := RecordAll(Start(files, limits.files), entries, limits);
    LayoutJoins(h, limits.files, limits.files);
    k := h.cuts[limits.files];
  }

  // ---------------------------------------------------------------- retention

  /** How many messages file `i` holds. */
  function MessagesIn(h: History, i: nat): (n: int)
    requires 1 <= i < |h.cuts|
  {
    h.cuts[i - 1] as int - h.cuts[i] as int
  }

  /** File `i` is smaller than the limit, unless it is empty or exactly one message. */
  ghost predicate Bounded(h: History, limits: Limits, i: nat)
    requires 1 <= i < |h.cuts|
  {
    |Contents(h.files, i)| < limits.maxFileBytes || MessagesIn(h, i) <= 1
  }

  /** Rotation moves a file on only when one more message would have reached the limit: with
      messages of at most `longest` bytes, file `i` is nearly full once it has been rotated into. */
  ghost predicate WellFilled(h: History, limits: Limits, longest: nat, i: nat) {
    2 <= i <= h.rotations + 1 ==> |Contents(h.files, i)| + longest >= limits.maxFileBytes
  }

  ghost predicate Retains(h: History, limits: Limits, longest: nat) {
    && Layout(h, limits.files)
    && forall i: nat | 1 <= i <= limits.files :: Bounded(h, limits, i) && WellFilled(h, limits, longest, i)
  }

  ghost predicate AtMost(entries: seq<Entry>, longest: nat) {
    forall e | e in entries :: |Message(e.text)| <= longest
  }

  lemma RecordKeepsBounds(h: History, e: Entry, limits: Limits, longest: nat)
    requires Retains(h, limits, longest) && limits.files >= 1 && |Message(e.text)| <= longest
    ensures Retains(Record(h, e, limits), limits, longest)
  {
    hide Joined, Appended, Message, ShouldAppend;
    RecordKeepsLayout(h, e, limits);
    var h' := Record(h, e, limits);
    forall i: nat | 1 <= i <= limits.files
      ensures Bounded(h', limits, i) && WellFilled(h', limits, longest, i)
    {
      AppendedFile(h.files, e, limits, i);
      assert Bounded(h, limits, i) && WellFilled(h, limits, longest, i);
      if i > 1 {
        assert Bounded(h, limits, i - 1) && WellFilled(h, limits, longest, i - 1);
      }
    }
  }

  lemma {:induction false} RetainsAlways(h: History, entries: seq<Entry>, limits: Limits, longest: nat)
    requires Retains(h, limits, longest) && limits.files >= 1 && AtMost(entries, longest)
    ensures Retains(RecordAll(h, entries, limits), limits, longest)
  {
    if entries != [] {
      var n := |entries| - 1;
      assert entries[n] in entries;
      RetainsAlways(h, entries[..n], limits, longest);
      RecordKeepsBounds(RecordAll(h, entries[..n], limits), entries[n], limits, longest);
    }
  }

  /** Each file is smaller than the limit, or empty, or exactly one message. */
  lemma FileIsBounded(files: Directory, entries: seq<Entry>, limits: Limits, i: nat) returns (a: nat, b: nat)
    requires Fresh(files, limits.files) && 1 <= i <= limits.files
    ensures var h := RecordAll(Start(files, limits.files), entries, limits);
            && a <= b <= |h.accepted| && Contents(h.files, i) == Joined(h.accepted[a..b])
            && (|Contents(h.files, i)| < limits.maxFileBytes || b - a <= 1)
  {
    var longest := Longest(entries);
    StartLayout(files, limits.files);
    RetainsAlways(Start(files, limits.files), entries, limits, longest);
    var h := RecordAll(Start(files, limits.files), entries, limits);
    a, b := h.cuts[i], h.cuts[i - 1];
    assert Holds(h, i) && Bounded(h, limits, i);
  }

  lemma {:induction false} Longest(entries: seq<Entry>) returns (longest: nat)
    ensures AtMost(entries, longest)
  {
    hide Message;
    if entries == [] {
      longest := 0;
    } else {
      var n := |entries| - 1;
      var l := Longest(entries[..n]);
      longest := if l < |Message(entries[n].text)| then |Message(entries[n].text)| else l;
      assert entries == entries[..n] + [entries[n]];
    }
  }

  /** At most everything up to the limit is kept in each file, and at least all but the longest
      message of each file that has been rotated into. */
  lemma {:induction false} SizeOfFiles(h: History, limits: Limits, longest: nat, k: nat)
    requires Retains(h, limits, longest) && k <= limits.files && longest < limits.maxFileBytes
    requires forall m | m in h.accepted :: |m| <= longest
    ensures |AllFiles(h.files, k)| <= k * (limits.maxFileBytes - 1)
    ensures 1 <= k <= h.rotations + 1 ==>
              |AllFiles(h.files, k)| >= (k - 1) * (limits.maxFileBytes - longest) + |Contents(h.files, 1)|
  {
    if k > 0 {
      SizeOfFiles(h, limits, longest, k - 1);
      assert Holds(h, k) && Bounded(h, limits, k) && WellFilled(h, limits, longest, k);
      if MessagesIn(h, k) <= 1 {
        OneMessage(h, k, longest);
      }
      assert k * (limits.maxFileBytes - 1) == (k - 1) * (limits.maxFileBytes - 1) + (limits.maxFileBytes - 1);
      assert (k - 1) * (limits.maxFileBytes - longest)
          == (k - 2) * (limits.maxFileBytes - longest) + (limits.maxFileBytes - longest);
    }
  }

  lemma OneMessage(h: History, i: nat, longest: nat)
    requires 1 <= i < |h.cuts| && Holds(h, i) && MessagesIn(h, i) <= 1
    requires forall m | m in h.accepted :: |m| <= longest
    ensures |Contents(h.files, i)| <= longest
  {
    var ms := h.accepted[h.cuts[i]..h.cuts[i - 1]];
    if ms != [] {
      assert ms == [h.accepted[h.cuts[i]]];
      JoinedOne(h.accepted[h.cuts[i]]);
    }
  }

  /** Retention over any run, when no message reaches the limit by itself: the files never hold
      more than n * (maxFileBytes - 1) bytes, and once they have been rotated n - 1 times never less
      than (n - 1) * (maxFileBytes - longest) bytes besides file 1. */
  lemma RetentionBounds(files: Directory, entries: seq<Entry>, limits: Limits, longest: nat)
    requires Fresh(files, limits.files) && limits.files >= 1
    requires AtMost(entries, longest) && longest < limits.maxFileBytes
    ensures var h := RecordAll(Start(files, limits.files), entries, limits);
            var n, size := limits.files, |AllFiles(h.files, limits.files)|;
            && size <= n * (limits.maxFileBytes - 1)
            && (h.rotations >= n - 1 ==>
                 size >= (n - 1) * (limits.maxFileBytes - longest) + |Contents(h.files, 1)|)
  {
    hide RecordAll, AllFiles, Message;
    StartLayout(files, limits.files);
    var start := Start(files, limits.files);
    RetainsAlways(start, entries, limits, longest);
    AcceptedAtMost(start, entries, limits, longest);
    SizeOfFiles(RecordAll(start, entries, limits), limits, longest, limits.files);
  }

  lemma {:induction false} AcceptedAtMost(h: History, entries: seq<Entry>, limits: Limits, longest: nat)
    requires |h.cuts| == limits.files + 1 && limits.files >= 1
    requires (forall m | m in h.accepted :: |m| <= longest) && AtMost(entries, longest)
    ensures forall m | m in RecordAll(h, entries, limits).accepted :: |m| <= longest
  {
    if entries != [] {
      hide Message, Record;
      var n := |entries| - 1;
      assert entries[n] in entries;
      AcceptedAtMost(h, entries[..n], limits, longest);
      RecordAccepts(RecordAll(h, entries[..n], limits), entries[n], limits);
    }
  }

  lemma RecordAccepts(h: History, e: Entry, limits: Limits)
    requires |h.cuts| == limits.files + 1 && limits.files >= 1
    ensures Record(h, e, limits).accepted == h.accepted + if Accepts(h.files, e) then [Message(e.text)] else []
  {
  }
}
