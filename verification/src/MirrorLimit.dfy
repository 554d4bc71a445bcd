/** How far the mirror can be trusted: for every state that it reaches, exactly when a rotation makes
    it repeat lines, exactly when it makes it pass lines over, and hence that `Harmless` is the
    weakest limit on rotations under which every line is mirrored once and in order. */
module MirrorLimit {
  import opened Options
  import opened Mirror

  // ---------------------------------------------------------------- what can still happen

  /** A run leads from `s` to `e`, every rotation in it being harmless. */
  ghost predicate Leads(s: State, e: State) {
    exists acts: seq<Action> :: IsRun(s, acts) && KeptUp(s, acts) && After(s, acts) == e
  }

  lemma LeadsNowhere(s: State)
    ensures Leads(s, s)
  {
    assert IsRun(s, []) && KeptUp(s, []) && After(s, []) == s;
  }

  lemma LeadsOn(s: State, a: Action, e: State)
    requires Allowed(s, a) && Leads(Next(s, a), e)
    ensures Leads(s, e)
  {
    hide Next, Allowed, Enabled;
    AllowedIsEnabled(s, a);
    var acts: seq<Action> :|
      IsRun(Next(s, a), acts) && KeptUp(Next(s, a), acts) && After(Next(s, a), acts) == e;
    var all := [a] + acts;
    assert all[0] == a && all[1..] == acts;
    assert IsRun(s, all);
    assert KeptUp(s, all) && After(s, all) == e;
  }

  lemma AllowedIsEnabled(s: State, a: Action)
    requires Allowed(s, a)
    ensures Enabled(s, a)
  {
  }

  lemma {:induction false} LeadsAlong(s: State, acts: seq<Action>, e: State)
    requires IsRun(s, acts) && KeptUp(s, acts) && Leads(After(s, acts), e)
    ensures Leads(s, e)
    decreases |acts|
  {
    hide Next, Leads, Allowed;
    if acts != [] {
      LeadsAlong(Next(s, acts[0]), acts[1..], e);
      LeadsOn(s, acts[0], e);
    }
  }

  lemma LeadsFurther(s: State, m: State, e: State)
    requires Leads(s, m) && Leads(m, e)
    ensures Leads(s, e)
  {
    var acts: seq<Action> :| IsRun(s, acts) && KeptUp(s, acts) && After(s, acts) == m;
    hide Next, Leads, Allowed;
    LeadsAlong(s, acts, e);
  }

  /** `n` steps of the mirror with nothing in between. */
  function Readers(s: State, n: nat): (s': State)
    decreases n
  {
    if n == 0 then s else Readers(ReaderStep(s), n - 1)
  }

  lemma {:induction false} ReadersAppend(s: State, m: nat, n: nat)
    ensures Readers(s, m + n) == Readers(Readers(s, m), n)
    decreases m
  {
    hide ReaderStep;
    if m > 0 {
      ReadersAppend(ReaderStep(s), m - 1, n);
    }
  }

  lemma {:induction false} ReadersLead(s: State, n: nat)
    ensures Leads(s, Readers(s, n))
    decreases n
  {
    hide Leads, ReaderStep;
    if n == 0 {
      LeadsNowhere(s);
    } else {
      ReadersLead(ReaderStep(s), n - 1);
      if Finished(s) {
        FinishedStays(s);
      } else {
        LeadsOn(s, Reader, Readers(s, n));
      }
    }
  }

  lemma FinishedStays(s: State)
    requires Finished(s)
    ensures ReaderStep(s) == s
  {
  }

  // ---------------------------------------------------------------- what may go wrong

  /** Nothing is delivered twice, or after something later. */
  ghost predicate NothingRepeated(s: State) {
    forall i, j | 0 <= i < j < |s.positions| :: s.positions[i] < s.positions[j]
  }

  /** Before a line is delivered, so have been all the lines before it, from the starting point on. */
  ghost predicate NothingPassed(s: State) {
    forall i, q: nat | 0 <= i < |s.positions| && s.start <= q < s.positions[i] :: q in s.positions[..i]
  }

  ghost predicate ExactlyOnce(s: State) {
    Consecutive(s.positions, s.start)
  }

  lemma OncePassesNothing(s: State)
    requires ExactlyOnce(s)
    ensures NothingPassed(s)
  {
    forall i, q: nat | 0 <= i < |s.positions| && s.start <= q < s.positions[i]
      ensures q in s.positions[..i]
    {
      assert s.positions[..i][q - s.start] == q;
    }
  }

  lemma InvIsOnce(s: State)
    requires Inv(s)
    ensures ExactlyOnce(s)
  {
    hide Log, Position, FileStart;
  }

  lemma LedKeepsInv(s: State, e: State)
    requires Inv(s) && Leads(s, e)
    ensures Inv(e)
  {
    hide Inv;
    var acts: seq<Action> :| IsRun(s, acts) && KeptUp(s, acts) && After(s, acts) == e;
    RunKeepsInv(s, acts);
  }

  /** The places recorded are where the lines came from, in any run at all. */
  ghost predicate Traced(s: State) {
    && |s.positions| == |s.delivered|
    && (forall i | 0 <= i < |s.positions| ::
          s.positions[i] < |Log(s.files)| && s.delivered[i] == Log(s.files)[s.positions[i]])
  }

  lemma LineTraced(s: State)
    requires Traced(s) && LineAhead(s)
    ensures Traced(Drain(s, s.pc))
  {
    var f := s.f.value;
    FileInLog(s.files, f);
    var p := FileStart(s.files, f) + s.pos;
    assert Log(s.files)[p] == Log(s.files)[FileStart(s.files, f)..FileEnd(s.files, f)][s.pos];
    hide Log, FileStart;
  }

  lemma StillTraced(s: State)
    requires Traced(s) && !LineAhead(s)
    ensures Traced(ReaderStep(s))
  {
    ReaderFrame(s);
    hide ReaderStep, Log;
  }

  lemma StepTraced(s: State, a: Action)
    requires Traced(s) && Enabled(s, a)
    ensures Traced(Next(s, a))
  {
    hide ReaderStep, Log;
    if a.Reader? {
      if LineAhead(s) {
        LineStep(s);
        LineTraced(s);
      } else {
        StillTraced(s);
      }
    } else {
      WriterGrows(s, a);
    }
  }

  /** In any run, whatever the writer does, every line delivered is the line of the log at the place
      on record for it. */
  lemma {:induction false} DeliveredAreTraced(s: State, acts: seq<Action>)
    requires Traced(s) && IsRun(s, acts)
    ensures Traced(After(s, acts))
    decreases |acts|
  {
    hide Traced, Next;
    if acts != [] {
      StepTraced(s, acts[0]);
      DeliveredAreTraced(Next(s, acts[0]), acts[1..]);
    }
  }

  // ---------------------------------------------------------------- repetition

  /** The mirror is between a look at the path and the open that follows it, and will go on. */
  predicate InWindow(s: State) {
    !s.closing && (s.pc.DrainOld? || s.pc.Reopen?)
  }

  lemma StartsGrow(files: seq<seq<Line>>, i: nat, j: nat)
    requires i < j < |files|
    ensures FileEnd(files, i) <= FileStart(files, j)
  {
    assert files[..j][..i] == files[..i];
    FileInLog(files[..j], i);
  }

  /** What has been read of the file that is open, at most. */
  function ReadTo(s: State): (n: nat)
    requires OpenFileExists(s)
  {
    FileStart(s.files, s.f.value) + if s.pos < |s.files[s.f.value]| then s.pos else |s.files[s.f.value]|
  }

  ghost predicate OrderedLoop(s: State)
    requires OpenFileExists(s)
  {
    && (forall i | 0 <= i < |s.positions| :: s.positions[i] < ReadTo(s))
    && (Leaving(s) || s.fi == s.f.value)
    && (s.closing ==> s.cancelled)
    && (s.pc.DrainOld? || s.pc.Reopen? ==>
          s.f.value < Current(s) && (s.closing || s.pc.newFI == Current(s)))
  }

  /** What keeps repetition out, lines that are passed over or not. */
  ghost predicate Ordered(s: State) {
    && NothingRepeated(s)
    && (s.f.Some? ==> OpenFileExists(s))
    && (!InLoop(s.pc) && !Finished(s) ==> s.positions == [] && !s.closing)
    && (InLoop(s.pc) && !s.pc.Done? ==> OpenFileExists(s) && OrderedLoop(s))
  }

  lemma LineOrdered(s: State)
    requires Ordered(s) && Draining(s.pc) && s.pos < |s.files[s.f.value]|
    ensures Ordered(Drain(s, s.pc))
  {
    hide Log, FileStart;
  }

  lemma DrainedOrdered(s: State)
    requires Ordered(s) && Draining(s.pc) && s.pos >= |s.files[s.f.value]|
    ensures Ordered(s.(pc := AfterDrain(s.pc)))
  {
    hide Log, FileStart;
  }

  lemma ReopenOrdered(s: State)
    requires Ordered(s) && s.pc.Reopen?
    ensures Ordered(ReaderStep(s))
  {
    StartsGrow(s.files, s.f.value, Current(s));
    hide Log, FileStart;
  }

  lemma MoveOrdered(s: State)
    requires Ordered(s) && (s.pc.Await? || s.pc.Select?)
    ensures Ordered(ReaderStep(s))
  {
    hide Log, FileStart;
  }

  lemma StartOrdered(s: State)
    requires Ordered(s) && !InLoop(s.pc) && !Finished(s)
    ensures Ordered(ReaderStep(s))
  {
    hide Log, FileStart;
  }

  lemma ReaderOrdered(s: State)
    requires Ordered(s) && !Finished(s)
    ensures Ordered(ReaderStep(s))
  {
    if InLoop(s.pc) {
      OrderedIsOpen(s);
    }
    hide ReaderStep, Ordered;
    if Draining(s.pc) {
      if s.pos < |s.files[s.f.value]| {
        LineStep(s);
        LineOrdered(s);
      } else {
        DrainedStep(s);
        DrainedOrdered(s);
      }
    } else if s.pc.Reopen? {
      ReopenOrdered(s);
    } else if InLoop(s.pc) {
      MoveOrdered(s);
    } else {
      StartOrdered(s);
    }
  }

  lemma OrderedIsOpen(s: State)
    requires Ordered(s) && InLoop(s.pc) && !s.pc.Done?
    ensures OpenFileExists(s)
  {
  }

  lemma GrowthOrdered(s: State, s': State)
    requires Ordered(s) && Grown(s.files, s'.files) && (s.cancelled ==> s'.cancelled)
    requires s' == s.(files := s'.files, cancelled := s'.cancelled, cancelMark := s'.cancelMark)
    requires InWindow(s) ==> |s'.files| == |s.files|
    ensures Ordered(s')
  {
    hide Log, FileStart;
    if OpenFileExists(s) {
      assert ReadTo(s) <= ReadTo(s');
    }
    hide Grown, ReadTo;
  }

  lemma WriterOrdered(s: State, a: Action)
    requires Ordered(s) && Enabled(s, a) && !a.Reader? && (a.Rotate? ==> !InWindow(s))
    ensures Ordered(Next(s, a))
  {
    WriterGrows(s, a);
    if InWindow(s) {
      WindowHasFile(s);
    }
    hide Log, Grown, Ordered, ReaderStep;
    GrowthOrdered(s, Next(s, a));
  }

  lemma WindowHasFile(s: State)
    requires Ordered(s) && InWindow(s)
    ensures s.files != []
  {
  }

  lemma HarmlessIsOutside(s: State)
    requires Ordered(s) && Harmless(s)
    ensures !InWindow(s)
  {
  }

  lemma StepOrdered(s: State, a: Action)
    requires Ordered(s) && Allowed(s, a)
    ensures Ordered(Next(s, a))
  {
    hide Ordered, ReaderStep, Harmless;
    if a.Reader? {
      ReaderOrdered(s);
    } else {
      if a.Rotate? {
        HarmlessIsOutside(s);
      }
      WriterOrdered(s, a);
    }
  }

  lemma {:induction false} RunOrdered(s: State, acts: seq<Action>)
    requires Ordered(s) && IsRun(s, acts) && KeptUp(s, acts)
    ensures Ordered(After(s, acts))
    decreases |acts|
  {
    hide Ordered, Next;
    if acts != [] {
      StepOrdered(s, acts[0]);
      RunOrdered(Next(s, acts[0]), acts[1..]);
    }
  }

  lemma ReachedIsOrdered(s: State)
    requires Reached(s)
    ensures Ordered(s)
  {
    var s0: State, acts: seq<Action> :| Initial(s0) && IsRun(s0, acts) && KeptUp(s0, acts) && s == After(s0, acts);
    assert Ordered(s0);
    RunOrdered(s0, acts);
  }

  lemma LedIsOrdered(s: State, e: State)
    requires Ordered(s) && Leads(s, e)
    ensures NothingRepeated(e)
  {
    var acts: seq<Action> :| IsRun(s, acts) && KeptUp(s, acts) && After(s, acts) == e;
    RunOrdered(s, acts);
  }

  /** Opening a file and reading its first line. */
  lemma OpenAndRead(s: State)
    requires s.pc.Reopen? && s.files != [] && s.files[Current(s)] != []
    ensures Readers(s, 2) == s.(pc := DrainNew, f := Some(Current(s)), pos := 1, fi := s.pc.newFI,
                                delivered := s.delivered + [s.files[Current(s)][0]],
                                positions := s.positions + [FileStart(s.files, Current(s))])
  {
    var r := ReaderStep(s);
    LineStep(r);
    hide FileStart;
    assert Readers(s, 2) == Readers(r, 1) == ReaderStep(r);
  }

  /** With an inode on record that is not the one open, the next pass finds a rotation. */
  lemma SeesFalseRotation(s: State)
    requires s.pc.DrainNew? && !(s.cancelled && s.closing) && OpenFileExists(s) && s.pos == |s.files[s.f.value]|
    requires s.fi != Current(s)
    ensures Readers(s, 5) == s.(pc := Reopen(Current(s)), passMark := |Log(s.files)|,
                                closing := s.closing || s.cancelled,
                                cancelSeen := s.cancelSeen + if s.cancelled then 1 else 0)
  {
    hide Log;
    DrainedStep(s);
    var r1 := s.(pc := Select);
    var r2 := ReaderStep(r1);
    assert r2 == s.(pc := DrainOpen, passMark := |Log(s.files)|, closing := s.closing || s.cancelled,
                    cancelSeen := s.cancelSeen + if s.cancelled then 1 else 0);
    DrainedStep(r2);
    var r3 := r2.(pc := Await);
    var r4 := r2.(pc := DrainOld(Current(s)));
    assert ReaderStep(r3) == r4;
    DrainedStep(r4);
    var r5 := r2.(pc := Reopen(Current(s)));
    hide ReaderStep;
    assert Readers(s, 5) == Readers(r1, 4) == Readers(r2, 3) == Readers(r3, 2) == Readers(r4, 1) == Readers(r5, 0);
  }

  /** With the wrong inode on record for the file that is about to be opened, its line is read twice. */
  lemma ReadsTwice(w: State, line: Line)
    requires w.pc.Reopen? && !(w.cancelled && w.closing) && w.files != [] && w.pc.newFI != Current(w)
    requires w.files[Current(w)] == [line]
    ensures var p := FileStart(w.files, Current(w)); var e := Readers(w, 9);
            e.delivered == w.delivered + [line, line] && e.positions == w.positions + [p, p]
  {
    hide Log, Readers, ReaderStep, FileStart;
    var p := FileStart(w.files, Current(w));
    OpenAndRead(w);
    SeesFalseRotation(Readers(w, 2));
    ReadersAppend(w, 2, 5);
    OpenAndRead(Readers(w, 7));
    ReadersAppend(w, 7, 2);
    assert (w.delivered + [line]) + [line] == w.delivered + [line, line];
    assert (w.positions + [p]) + [p] == w.positions + [p, p];
  }

  lemma RotateThenAppend(s: State, line: Line)
    requires s.files != []
    ensures Next(Next(s, Rotate), Append(line)) == s.(files := s.files + [[line]])
    ensures Log(s.files + [[line]]) == Log(s.files) + [line]
    ensures FileStart(s.files + [[line]], |s.files|) == |Log(s.files)|
  {
    LogMore(s.files, [line]);
    hide Log;
    assert (s.files + [[]])[..|s.files|] == s.files && (s.files + [[]])[|s.files|] + [line] == [line];
    assert (s.files + [[line]])[..|s.files|] == s.files;
  }

  /** A rotation between the look at the path and the open that follows it does more than skip a
      file: the newer file is opened, taken for the older one, and mirrored twice. */
  lemma RotationInWindowRepeats(s: State, line: Line)
    requires s.pc.Reopen? && !(s.cancelled && s.closing) && s.pc.newFI == Current(s) && s.files != []
    ensures var w := Next(Next(s, Rotate), Append(line)); var p := |Log(s.files)|;
            && Log(w.files) == Log(s.files) + [line]
            && Readers(w, 9).delivered == s.delivered + [line, line]
            && Readers(w, 9).positions == s.positions + [p, p]
  {
    RotateThenAppend(s, line);
    hide Log, Readers, ReaderStep, Next, FileStart;
    ReadsTwice(s.(files := s.files + [[line]]), line);
  }

  /** The rest of the old file is read, and the open comes next. */
  lemma {:induction false} DrainsOld(s: State) returns (n: nat)
    requires s.pc.DrainOld? && OpenFileExists(s)
    ensures var e := Readers(s, n);
            && e.pc == Reopen(s.pc.newFI) && e.files == s.files && e.start == s.start
            && e.closing == s.closing && e.cancelled == s.cancelled
            && forall q | q in e.positions :: q in s.positions || q < FileEnd(s.files, s.f.value)
    decreases |s.files[s.f.value]| - s.pos
  {
    hide Log, ReaderStep, FileStart;
    var r := ReaderStep(s);
    if s.pos < |s.files[s.f.value]| {
      LineStep(s);
      var m := DrainsOld(r);
      n := m + 1;
    } else {
      DrainedStep(s);
      n := 1;
      assert Readers(s, 1) == Readers(r, 0);
    }
  }

  /** The mirror about to open, after `n` steps from `s`. */
  lemma ReachesReopen(s: State) returns (n: nat)
    requires (s.pc.DrainOld? || s.pc.Reopen?) && OpenFileExists(s)
    ensures var e := Readers(s, n);
            && e.pc == Reopen(s.pc.newFI) && e.files == s.files && e.start == s.start
            && e.closing == s.closing && e.cancelled == s.cancelled
            && forall q | q in e.positions :: q in s.positions || q < FileEnd(s.files, s.f.value)
  {
    if s.pc.DrainOld? {
      n := DrainsOld(s);
    } else {
      n := 0;
    }
  }

  lemma RepeatsFrom(u: State) returns (e: State)
    requires u.pc.Reopen? && !(u.cancelled && u.closing) && u.files != [] && u.pc.newFI != Current(u)
    requires u.files[Current(u)] == [""]
    ensures Leads(u, e) && !NothingRepeated(e)
  {
    hide Leads, Readers, ReaderStep, Log, FileStart;
    ReadsTwice(u, "");
    e := Readers(u, 9);
    ReadersLead(u, 9);
    var k := |u.positions|;
    assert e.positions[k] == e.positions[k + 1];
  }

  /** In the window, a rotation and one line are enough. */
  lemma WindowRepeats(s: State) returns (e: State)
    requires Inv(s) && InWindow(s) && s.files != []
    ensures Leads(Next(s, Rotate), e) && !NothingRepeated(e)
  {
    InWindowIsBehind(s);
    RotateThenAppend(s, "");
    AfterRotation(s);
    var w := s.(files := s.files + [[""]]);
    hide Leads, Readers, ReaderStep, Log, FileStart, FileEnd, Inv, Next, NothingRepeated;
    var n := ReachesReopen(w);
    e := RepeatsFrom(Readers(w, n));
    ReadersLead(w, n);
    LeadsFurther(w, Readers(w, n), e);
    LeadsOn(Next(s, Rotate), Append(""), e);
  }

  lemma AfterRotation(s: State)
    requires s.files != []
    ensures Next(s, Rotate) == s.(files := s.files + [[]]) && Allowed(Next(s, Rotate), Append(""))
  {
  }

  lemma InWindowIsBehind(s: State)
    requires Inv(s) && InWindow(s)
    ensures OpenFileExists(s) && s.f.value < Current(s) && s.pc.newFI == Current(s)
    ensures forall q | q in s.positions :: q < FileEnd(s.files, s.f.value)
    ensures s.start <= FileEnd(s.files, s.f.value)
  {
    hide Log, FileStart;
  }

  /** Exactly when a rotation can make the mirror repeat itself: between a look at the path and the
      open that follows it, unless the mirror is about to end. */
  lemma RotationRepeatsIff(s: State)
    requires Reached(s) && Enabled(s, Rotate)
    ensures (forall e | Leads(Next(s, Rotate), e) :: NothingRepeated(e)) <==> !InWindow(s)
  {
    ReachedKeepsInv(s);
    ReachedIsOrdered(s);
    hide Inv, Leads, NothingRepeated;
    if InWindow(s) {
      var e := WindowRepeats(s);
    } else {
      WriterOrdered(s, Rotate);
      forall e | Leads(Next(s, Rotate), e)
        ensures NothingRepeated(e)
      {
        LedIsOrdered(Next(s, Rotate), e);
      }
    }
  }

  // ---------------------------------------------------------------- loss

  /** A line is delivered while an earlier one, `q`, has not been. */
  lemma PassedOver(e: State, q: nat)
    requires e.positions != [] && LastPosition(e) > q >= e.start && q !in e.positions[..|e.positions| - 1]
    ensures !NothingPassed(e)
  {
    var i := |e.positions| - 1;
    assert q !in e.positions[..i];
  }

  function LastPosition(e: State): (n: nat)
    requires e.positions != []
  {
    e.positions[|e.positions| - 1]
  }

  /** The mirror has an older file open, and will come to open the newest, which is not empty. */
  predicate Behind(t: State) {
    && OpenFileExists(t) && t.f.value < Current(t) && t.files[Current(t)] != []
    && match t.pc
       case FirstStat(offset) => offset <= |t.files[t.f.value]|
       case DrainOpen => t.fi == t.f.value && t.pos <= |t.files[t.f.value]|
       case Await => t.fi == t.f.value && t.pos <= |t.files[t.f.value]|
       case DrainOld(_) => t.pos <= |t.files[t.f.value]|
       case Reopen(_) => true
       case DrainNew => !t.closing && t.fi == t.f.value && t.pos <= |t.files[t.f.value]|
       case Select => !t.closing && t.fi == t.f.value && t.pos <= |t.files[t.f.value]|
       case _ => false
  }

  function StepsToReopen(pc: Pc): (n: nat) {
    match pc
    case FirstStat(_) => 6
    case DrainNew => 6
    case Select => 5
    case DrainOpen => 4
    case Await => 3
    case DrainOld(_) => 2
    case _ => 0
  }

  function Unread(t: State): (n: int)
    requires OpenFileExists(t)
  {
    |t.files[t.f.value]| - t.pos
  }

  /** Still behind, with less to do. */
  ghost predicate ComesOn(t: State, r: State)
    requires OpenFileExists(t)
  {
    && Behind(r) && r.files == t.files && r.f == t.f && r.start == t.start
    && (StepsToReopen(r.pc) < StepsToReopen(t.pc)
        || (StepsToReopen(r.pc) == StepsToReopen(t.pc) && Draining(t.pc) && Draining(r.pc) && Unread(r) < Unread(t)))
    && forall q | q in r.positions :: q in t.positions || q < FileEnd(t.files, t.f.value)
  }

  lemma DrainComesOn(t: State)
    requires Behind(t) && Draining(t.pc)
    ensures ComesOn(t, ReaderStep(t))
  {
    if LineAhead(t) {
      LineStep(t);
    } else {
      DrainedStep(t);
    }
    hide ReaderStep, Log, FileStart;
  }

  lemma BehindComesOn(t: State)
    requires Behind(t) && !Draining(t.pc) && !t.pc.Reopen?
    ensures ComesOn(t, ReaderStep(t))
  {
    hide Log, FileStart;
  }

  lemma {:induction false} ReadsNewest(t: State) returns (n: nat)
    requires Behind(t)
    ensures var e := Readers(t, n);
            && e.start == t.start && e.positions != [] && LastPosition(e) == FileStart(t.files, Current(t))
            && forall q | q in e.positions[..|e.positions| - 1] ::
                 q in t.positions || q < FileEnd(t.files, t.f.value)
    decreases StepsToReopen(t.pc), if Draining(t.pc) then Unread(t) else 0
  {
    hide ReaderStep, Log, FileStart;
    if t.pc.Reopen? {
      n := 2;
      OpenAndRead(t);
      var e := Readers(t, 2);
      assert e.positions[..|e.positions| - 1] == t.positions;
    } else {
      if Draining(t.pc) {
        DrainComesOn(t);
      } else {
        BehindComesOn(t);
      }
      var m := ReadsNewest(ReaderStep(t));
      n := m + 1;
    }
  }

  lemma BehindStart(s: State)
    requires Inv(s) && s.files != [] && (s.pc.FirstStat? || InLoop(s.pc)) && !s.pc.Done? && !Leaving(s)
    requires s.f != Some(Current(s)) && s.files[Current(s)] != []
    ensures OpenFileExists(s) && Behind(s.(files := s.files + [[""]]))
    ensures forall q | q in s.positions :: q < FileEnd(s.files, s.f.value)
    ensures s.start <= FileEnd(s.files, s.f.value) < |Log(s.files)|
  {
    FileInLog(s.files, Current(s));
    EmptyGap(s.files, s.f.value, Current(s));
    hide Log, FileStart;
  }

  lemma BehindFacts(s: State)
    requires OpenFileExists(s)
    ensures var t := s.(files := s.files + [[""]]);
            && FileEnd(t.files, s.f.value) == FileEnd(s.files, s.f.value)
            && FileStart(t.files, Current(t)) == |Log(s.files)|
  {
    hide Log;
    var t, f := s.(files := s.files + [[""]]), s.f.value;
    assert t.files[..f] == s.files[..f] && t.files[..|s.files|] == s.files;
  }

  /** The file rotated away had lines in it, and an older one was open. */
  lemma UnopenedIsPassed(s: State) returns (e: State)
    requires Inv(s) && s.files != [] && (s.pc.FirstStat? || InLoop(s.pc)) && !s.pc.Done? && !Leaving(s)
    requires s.f != Some(Current(s)) && s.files[Current(s)] != []
    ensures Leads(Next(s, Rotate), e) && !NothingPassed(e)
  {
    BehindStart(s);
    BehindFacts(s);
    RotateThenAppend(s, "");
    AfterRotation(s);
    hide Leads, Readers, ReaderStep, Log, FileStart, FileEnd, Inv, Next, Behind, NothingPassed;
    var t := s.(files := s.files + [[""]]);
    var n := ReadsNewest(t);
    e := Readers(t, n);
    ReadersLead(t, n);
    LeadsOn(Next(s, Rotate), Append(""), e);
    NotAmong(e.positions[..|e.positions| - 1], s.positions, FileEnd(s.files, s.f.value));
    PassedOver(e, FileEnd(s.files, s.f.value));
  }

  lemma NotAmong(all: seq<nat>, before: seq<nat>, bound: nat)
    requires forall q | q in all :: q in before || q < bound
    requires forall q | q in before :: q < bound
    ensures bound !in all
  {
  }

  lemma OpensEmpty(u: State)
    requires u.pc.Reopen? && u.files != [] && u.files[Current(u)] == []
    ensures Readers(u, 1) == u.(pc := DrainNew, f := Some(Current(u)), pos := 0, fi := u.pc.newFI)
  {
    hide Log, FileStart;
    assert Readers(u, 1) == Readers(ReaderStep(u), 0);
  }

  /** The mirror with the wrong inode on record comes to be between look and open once more. */
  lemma BackInWindow(u: State)
    requires u.pc.Reopen? && !(u.cancelled && u.closing) && u.files != [] && u.files[Current(u)] == []
    requires u.pc.newFI != Current(u)
    ensures var g := Readers(u, 6);
            && g.pc == Reopen(Current(u)) && g.f == Some(Current(u)) && g.files == u.files
            && g.positions == u.positions && g.start == u.start
  {
    hide Log, FileStart, Readers;
    OpensEmpty(u);
    SeesFalseRotation(Readers(u, 1));
    ReadersAppend(u, 1, 5);
  }

  lemma AppendToEmpty(g: State, line: Line)
    requires g.files != [] && g.files[Current(g)] == []
    ensures Next(g, Append(line)) == g.(files := g.files[..Current(g)] + [[line]])
    ensures Log(g.files[..Current(g)] + [[line]]) == Log(g.files) + [line]
  {
    AppendExtendsLog(g.files, line);
    hide Log;
    assert g.files[Current(g)] + [line] == [line];
  }

  /** The state in which two lines have been written with a rotation between them. */
  function TwoFilesOn(g: State): (s': State)
    requires g.files != []
  {
    g.(files := g.files[..Current(g)] + [[""]] + [[""]])
  }

  lemma TwoFilesLead(g: State)
    requires g.files != [] && g.f == Some(Current(g)) && g.files[Current(g)] == []
    ensures Leads(g, TwoFilesOn(g))
  {
    var a := g.(files := g.files[..Current(g)] + [[""]]);
    AppendToEmpty(g, "");
    RotateThenAppend(a, "");
    AfterRotation(a);
    assert Allowed(a, Rotate);
    hide Leads, Log, Next;
    LeadsNowhere(TwoFilesOn(g));
    LeadsOn(Next(a, Rotate), Append(""), TwoFilesOn(g));
    LeadsOn(a, Rotate, TwoFilesOn(g));
    LeadsOn(g, Append(""), TwoFilesOn(g));
  }

  lemma TwoFilesStart(g: State)
    requires g.files != [] && g.files[Current(g)] == []
    ensures var c := TwoFilesOn(g);
            FileStart(c.files, Current(c)) == |Log(g.files)| + 1 && c.files[Current(c)] == [""]
  {
    AppendToEmpty(g, "");
    RotateThenAppend(g.(files := g.files[..Current(g)] + [[""]]), "");
  }

  /** Two lines with a rotation between them, written while the mirror has the newest file open and
      drained: the first one is passed over. */
  lemma FalseRotationPasses(g: State) returns (e: State)
    requires g.pc.Reopen? && g.files != [] && g.f == Some(Current(g)) && g.files[Current(g)] == []
    requires g.start <= |Log(g.files)| && forall q | q in g.positions :: q < |Log(g.files)|
    ensures Leads(g, e) && !NothingPassed(e)
  {
    TwoFilesLead(g);
    TwoFilesStart(g);
    var c := TwoFilesOn(g);
    assert c.pc == g.pc && c.positions == g.positions && c.start == g.start && c.files != [];
    hide Log, FileStart, Leads, TwoFilesOn, NothingPassed, ReaderStep, Readers;
    OpenAndRead(c);
    e := Readers(c, 2);
    ReadersLead(c, 2);
    LeadsFurther(g, c, e);
    assert e.positions[..|g.positions|] == g.positions;
    PassedOver(e, |Log(g.files)|);
  }

  lemma WindowAfterRotation(s: State)
    requires Inv(s) && InWindow(s) && s.files != []
    ensures var r := Next(s, Rotate);
            && r == s.(files := s.files + [[]]) && OpenFileExists(r) && Log(r.files) == Log(s.files)
            && FileEnd(r.files, r.f.value) <= |Log(s.files)| && r.pc.newFI != Current(r)
    ensures (forall q | q in s.positions :: q < |Log(s.files)|) && s.start <= |Log(s.files)|
  {
    InWindowIsBehind(s);
    RotationKeepsLog(s.files);
    var f, r := s.f.value, Next(s, Rotate);
    assert r.files[..f] == s.files[..f];
    FileInLog(s.files, f);
    hide Log, Inv;
  }

  /** The mirror about to open the newest file, which is empty, with the wrong inode on record. */
  lemma WindowReopens(r: State) returns (u: State)
    requires (r.pc.DrainOld? || r.pc.Reopen?) && OpenFileExists(r) && r.pc.newFI != Current(r)
    requires FileEnd(r.files, r.f.value) <= |Log(r.files)| && forall q | q in r.positions :: q < |Log(r.files)|
    ensures Leads(r, u) && u.pc == Reopen(r.pc.newFI) && u.files == r.files && u.start == r.start
    ensures u.closing == r.closing && u.cancelled == r.cancelled
    ensures forall q | q in u.positions :: q < |Log(u.files)|
  {
    hide Leads, Readers, Log, FileEnd, ReaderStep;
    var n := ReachesReopen(r);
    u := Readers(r, n);
    ReadersLead(r, n);
  }

  lemma WrongInodePasses(u: State) returns (e: State)
    requires u.pc.Reopen? && !(u.cancelled && u.closing) && u.files != [] && u.files[Current(u)] == []
    requires u.pc.newFI != Current(u)
    requires u.start <= |Log(u.files)| && forall q | q in u.positions :: q < |Log(u.files)|
    ensures Leads(u, e) && !NothingPassed(e)
  {
    hide Leads, Log, NothingPassed, Readers;
    BackInWindow(u);
    var g := Readers(u, 6);
    e := FalseRotationPasses(g);
    ReadersLead(u, 6);
    LeadsFurther(u, g, e);
  }

  /** In the window, lines can be passed over even if the file rotated away was empty. */
  lemma WindowPasses(s: State) returns (e: State)
    requires Inv(s) && InWindow(s) && s.files != []
    ensures Leads(Next(s, Rotate), e) && !NothingPassed(e)
  {
    WindowAfterRotation(s);
    var r := s.(files := s.files + [[]]);
    assert Next(s, Rotate) == r;
    hide Leads, Log, FileEnd, FileStart, Inv, Next, NothingPassed;
    var u := WindowReopens(r);
    e := WrongInodePasses(u);
    LeadsFurther(r, u, e);
  }

  /** How far into the file that is opened first the mirror goes: a place that was determined from
      the file that the path named at the first look. */
  function Seek(t: State): (n: nat) {
    match t.pc
    case OpenExisting(size) => if t.fromStart then 0 else size
    case _ => 0
  }

  lemma OpensFirst(t: State)
    requires (t.pc.OpenExisting? || t.pc.OpenFirst?) && t.files != [] && |t.files[Current(t)]| > Seek(t)
    ensures var e := Readers(t, 3);
            && e.start == t.start && e.f == Some(Current(t)) && e.files == t.files
            && e.delivered == t.delivered + [t.files[Current(t)][Seek(t)]]
            && e.positions == t.positions + [FileStart(t.files, Current(t)) + Seek(t)]
  {
    var r1 := ReaderStep(t);
    var r2 := ReaderStep(r1);
    assert r2.pc == DrainOpen && r2.pos == Seek(t) && r2.f == Some(Current(t));
    LineStep(r2);
    var r3 := Drain(r2, DrainOpen);
    assert r3.positions == t.positions + [FileStart(t.files, Current(t)) + Seek(t)];
    hide ReaderStep, Log, FileStart;
    assert Readers(t, 3) == Readers(r1, 2) == Readers(r2, 1) == Readers(r3, 0);
  }

  function Lines(n: nat): (r: seq<Line>) {
    seq(n, _ => "")
  }

  lemma {:induction false} AppendsLead(s: State, n: nat, e: State)
    requires s.files != []
    requires Leads(s.(files := s.files[..Current(s)] + [s.files[Current(s)] + Lines(n)]), e)
    ensures Leads(s, e)
    decreases n
  {
    var c := Current(s);
    if n == 0 {
      assert s.files[c] + Lines(0) == s.files[c];
      assert s.files[..c] + [s.files[c]] == s.files;
    } else {
      var a := Next(s, Append(""));
      assert a.files[..c] == s.files[..c] && a.files[c] + Lines(n - 1) == s.files[c] + Lines(n);
      hide Leads;
      AppendsLead(a, n - 1, e);
      LeadsOn(s, Append(""), e);
    }
  }

  lemma OpeningFacts(s: State)
    requires Inv(s) && (s.pc.OpenExisting? || s.pc.AwaitFirst? || s.pc.OpenFirst?) && s.files != []
    requires s.files[Current(s)] != []
    ensures s.positions == [] && s.start < |Log(s.files)| + Seek(s)
  {
    FileInLog(s.files, Current(s));
    hide Log, FileStart;
  }

  /** The mirror finds the newest file and reads the first line that it does not skip. */
  lemma FindsFirst(t: State) returns (e: State)
    requires (t.pc.OpenExisting? || t.pc.AwaitFirst? || t.pc.OpenFirst?) && t.files != []
    requires |t.files[Current(t)]| > Seek(t)
    ensures Leads(t, e) && e.start == t.start
    ensures e.positions == t.positions + [FileStart(t.files, Current(t)) + Seek(t)]
  {
    var o := if t.pc.AwaitFirst? then t.(pc := OpenFirst) else t;
    OpensFirst(o);
    e := Readers(o, 3);
    if t.pc.AwaitFirst? {
      assert ReaderStep(t) == o;
      hide ReaderStep, Leads, FileStart;
      ReadersLead(o, 3);
      LeadsOn(t, Reader, e);
    } else {
      hide ReaderStep, Leads, FileStart;
      ReadersLead(o, 3);
    }
  }

  /** The file rotated away had lines in it, and none was open yet. */
  lemma FirstIsPassed(s: State) returns (e: State)
    requires Inv(s) && (s.pc.OpenExisting? || s.pc.AwaitFirst? || s.pc.OpenFirst?) && s.files != []
    requires s.files[Current(s)] != []
    ensures Leads(Next(s, Rotate), e) && !NothingPassed(e)
  {
    OpeningFacts(s);
    AfterRotation(s);
    var r, k := s.(files := s.files + [[]]), Seek(s);
    var t := r.(files := r.files[..|s.files|] + [r.files[|s.files|] + Lines(k + 1)]);
    assert t.files[..|s.files|] == s.files;
    hide Leads, Inv, Log, NothingPassed, ReaderStep, Next, Readers;
    e := FindsFirst(t);
    AppendsLead(r, k + 1, e);
    PassedOver(e, s.start);
  }

  lemma HarmfulPasses(s: State) returns (e: State)
    requires Inv(s) && Enabled(s, Rotate) && !Harmless(s)
    ensures Leads(Next(s, Rotate), e) && !NothingPassed(e)
  {
    hide Inv, Leads, NothingPassed;
    if InWindow(s) {
      e := WindowPasses(s);
    } else if s.pc.FirstStat? || InLoop(s.pc) {
      e := UnopenedIsPassed(s);
    } else {
      e := FirstIsPassed(s);
    }
  }

  lemma HarmlessIsOnce(s: State, e: State)
    requires Inv(s) && Enabled(s, Rotate) && Harmless(s) && Leads(Next(s, Rotate), e)
    ensures ExactlyOnce(e) && NothingPassed(e)
  {
    StepKeepsInv(s, Rotate);
    hide Inv, Leads, ExactlyOnce, NothingPassed;
    LedKeepsInv(Next(s, Rotate), e);
    InvIsOnce(e);
    OncePassesNothing(e);
  }

  /** Exactly when a rotation can make the mirror pass lines over. */
  lemma RotationLosesIff(s: State)
    requires Reached(s) && Enabled(s, Rotate)
    ensures (forall e | Leads(Next(s, Rotate), e) :: NothingPassed(e)) <==> Harmless(s)
  {
    ReachedKeepsInv(s);
    hide Inv, Leads, NothingPassed, Harmless;
    if Harmless(s) {
      forall e | Leads(Next(s, Rotate), e)
        ensures NothingPassed(e)
      {
        HarmlessIsOnce(s, e);
      }
    } else {
      var e := HarmfulPasses(s);
    }
  }

  /** `Harmless` is the weakest limit: as long as rotations have been harmless, every line is mirrored
      once and in order whatever follows, if and only if the next rotation is harmless too. */
  lemma HarmlessIsWeakest(s: State)
    requires Reached(s) && Enabled(s, Rotate)
    ensures (forall e | Leads(Next(s, Rotate), e) :: ExactlyOnce(e)) <==> Harmless(s)
  {
    ReachedKeepsInv(s);
    hide Inv, Leads, NothingPassed, Harmless, ExactlyOnce;
    if Harmless(s) {
      forall e | Leads(Next(s, Rotate), e)
        ensures ExactlyOnce(e)
      {
        HarmlessIsOnce(s, e);
      }
    } else {
      var e := HarmfulPasses(s);
      if ExactlyOnce(e) {
        OncePassesNothing(e);
      }
    }
  }

  // ---------------------------------------------------------------- the dangers are real

  lemma StartOf(files: seq<seq<Line>>) returns (s: State)
    ensures Initial(s) && s == State(files, false, StatPath, false, None, 0, 0, false, [], [], 0, 0, 0, 0)
  {
    s := State(files, false, StatPath, false, None, 0, 0, false, [], [], 0, 0, 0, 0);
  }

  lemma LedIsReached(s: State, e: State)
    requires Initial(s) && Leads(s, e)
    ensures Reached(e)
  {
    hide Initial;
    var acts: seq<Action> :| IsRun(s, acts) && KeptUp(s, acts) && After(s, acts) == e;
  }

  /** A run comes into the window: the file that the mirror has open is rotated away, and the mirror
      looks at the path. */
  lemma WindowIsReached() returns (s: State)
    ensures Reached(s) && Enabled(s, Rotate) && InWindow(s) && s.pc.Reopen?
  {
    var s0 := StartOf([[]]);
    var s1 := ReaderStep(s0);
    var s2 := ReaderStep(s1);
    var s3 := ReaderStep(s2);
    assert s3.pc == DrainOpen && s3.f == Some(0) && s3.fi == 0 && s3.pos == 0 && s3.files == [[]];
    var s4 := s3.(files := [[], []]);
    assert Next(s3, Rotate) == s4;
    var s5 := s4.(pc := Await);
    DrainedStep(s4);
    var s6 := s4.(pc := DrainOld(1));
    assert ReaderStep(s5) == s6;
    DrainedStep(s6);
    s := s4.(pc := Reopen(1));
    hide ReaderStep, Leads;
    ReadersLead(s4, 3);
    assert Readers(s4, 3) == Readers(s5, 2) == Readers(s6, 1) == Readers(s, 0);
    LeadsOn(s3, Rotate, s);
    ReadersLead(s0, 3);
    assert Readers(s0, 3) == Readers(s1, 2) == Readers(s2, 1) == Readers(s3, 0);
    LeadsFurther(s0, s3, s);
    LedIsReached(s0, s);
  }

  /** A rotation between the first look at the path and the open: the place to start from, which was
      the end of the old file, is taken for a place in the new one. The new file is open, and its
      first line is never mirrored. */
  lemma StaleOffsetPassesLine(first: Line, a: Line, b: Line) returns (s: State, e: State)
    ensures Reached(s) && Enabled(s, Rotate) && s.pc == OpenExisting(1) && s.files == [[first]]
    ensures Leads(Next(s, Rotate), e) && e.files == s.files + [[a, b]] && e.f == Some(Current(e))
    ensures e.start == 1 && e.delivered == [b] && e.positions == [2]
  {
    var s0 := StartOf([[first]]);
    s := ReaderStep(s0);
    assert Log([[first]]) == [first] by { LogMore([], [first]); }
    assert s == s0.(pc := OpenExisting(1), start := 1);
    var t := s.(files := s.files + [[a, b]]);
    assert t.files[..1] == s.files;
    assert FileStart(t.files, 1) == 1;
    hide Leads, ReaderStep, Log, FileStart;
    OpensFirst(t);
    e := Readers(t, 3);
    ReadersLead(t, 3);
    TwoLinesLead(s, a, b, e);
    ReadersLead(s0, 1);
    assert Readers(s0, 1) == Readers(s, 0);
    LedIsReached(s0, s);
  }

  lemma TwoLinesLead(s: State, a: Line, b: Line, e: State)
    requires s.files != [] && Leads(s.(files := s.files + [[a, b]]), e)
    ensures Leads(Next(s, Rotate), e)
  {
    RotateThenAppend(s, a);
    var t := s.(files := s.files + [[a]]);
    assert t.files[..|s.files|] == s.files && [a] + [b] == [a, b];
    assert Next(t, Append(b)) == s.(files := s.files + [[a, b]]);
    hide Leads, Log;
    LeadsOn(t, Append(b), e);
    LeadsOn(Next(s, Rotate), Append(a), e);
  }
}
