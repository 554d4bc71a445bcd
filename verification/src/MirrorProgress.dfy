/** The mirror goes on: whatever has been written is mirrored after a bounded number of its steps, as
    long as it has not been told to end, and when it has been told to end, it does. */
module MirrorProgress {
  import opened Options
  import opened Mirror
  import opened MirrorLimit

  /** How far into the log the mirror has delivered. */
  function Got(t: State): (n: nat) {
    t.start + |t.delivered|
  }

  /** The file that is open ends before the place `goal`, so that a newer one has to be opened. */
  predicate Short(t: State, goal: nat) {
    OpenFileExists(t) && FileEnd(t.files, t.f.value) < goal
  }

  /** The steps, apart from reading, that it takes before the line before `goal` can be read. */
  function Detour(t: State, goal: nat): (n: nat) {
    match t.pc
    case AwaitFirst => 3
    case OpenExisting(_) => 2
    case OpenFirst => 2
    case FirstStat(_) => if Short(t, goal) then 5 else 1
    case DrainNew => if Short(t, goal) then 6 else 0
    case Select => if Short(t, goal) then 5 else 1
    case DrainOpen => if Short(t, goal) then 4 else 0
    case Await => if Short(t, goal) then 3 else 2
    case DrainOld(_) => if Short(t, goal) then 2 else 0
    case Reopen(_) => if Short(t, goal) then 1 else 0
    case _ => 0
  }

  function Distance(t: State, goal: nat): (n: int) {
    goal - Got(t) + Detour(t, goal)
  }

  /** Where the mirror can be while it still has to get to `goal`: anywhere, as long as it has not seen
      the cancellation; afterwards in the first part of its last pass. */
  predicate Going(t: State, goal: nat) {
    && !t.pc.StatPath? && !Finished(t) && t.files != []
    && (t.closing ==>
          || t.pc.DrainOpen?
          || (Short(t, goal) && (t.pc.Await? || t.pc.DrainOld? || t.pc.Reopen?))
          || (!Short(t, goal) && (t.pc.DrainOld? || t.pc.DrainNew?)))
  }

  lemma GotIsPosition(t: State)
    requires Inv(t) && InLoop(t.pc) && !t.pc.Done?
    ensures OpenFileExists(t) && Looping(t) && Position(t) == Got(t)
    ensures Position(t) == FileStart(t.files, t.f.value) + t.pos
  {
    hide Log, FileStart;
  }

  /** Closer to the goal, and still going or there. */
  ghost predicate Nearer(t: State, r: State, goal: nat) {
    && Distance(r, goal) < Distance(t, goal) && r.files == t.files && r.start == t.start
    && (Going(r, goal) || goal <= Got(r))
  }

  lemma LineNearer(t: State, goal: nat)
    requires Inv(t) && Going(t, goal) && Got(t) < goal && LineAhead(t)
    ensures Nearer(t, ReaderStep(t), goal)
  {
    LineStep(t);
    hide Log, FileStart, ReaderStep, Inv;
  }

  lemma DrainedNearer(t: State, goal: nat)
    requires Inv(t) && Going(t, goal) && Got(t) < goal && Draining(t.pc) && !LineAhead(t)
    ensures Nearer(t, ReaderStep(t), goal)
  {
    GotIsPosition(t);
    assert t.pos == |t.files[t.f.value]|;
    assert Short(t, goal);
    DrainedStep(t);
    hide Log, FileStart, ReaderStep, Inv, Position;
  }

  lemma NewestIsLong(t: State, goal: nat)
    requires t.files != [] && goal <= |Log(t.files)|
    ensures FileEnd(t.files, Current(t)) >= goal
  {
    FileInLog(t.files, Current(t));
  }

  lemma AwaitNearer(t: State, goal: nat)
    requires Inv(t) && Going(t, goal) && Got(t) < goal <= |Log(t.files)| && t.pc.Await?
    ensures Nearer(t, ReaderStep(t), goal)
  {
    GotIsPosition(t);
    NewestIsLong(t, goal);
    hide Log, FileStart, Position;
  }

  lemma SelectNearer(t: State, goal: nat)
    requires Inv(t) && Going(t, goal) && Got(t) < goal <= |Log(t.files)| && t.pc.Select?
    ensures Nearer(t, ReaderStep(t), goal)
  {
    GotIsPosition(t);
    hide Log, FileStart, Position;
  }

  lemma ReopenNearer(t: State, goal: nat)
    requires Inv(t) && Going(t, goal) && Got(t) < goal <= |Log(t.files)| && t.pc.Reopen?
    ensures Nearer(t, ReaderStep(t), goal)
  {
    GotIsPosition(t);
    NewestIsLong(t, goal);
    hide Log, FileStart, Position;
  }

  lemma StartNearer(t: State, goal: nat)
    requires Inv(t) && Going(t, goal) && Got(t) < goal <= |Log(t.files)| && !InLoop(t.pc)
    ensures Nearer(t, ReaderStep(t), goal)
  {
    NewestIsLong(t, goal);
    hide Log, FileStart, Looping, Ended;
  }

  /** Every step of the mirror brings it closer to what it has not delivered. */
  lemma ReaderNearer(t: State, goal: nat)
    requires Inv(t) && Going(t, goal) && Got(t) < goal <= |Log(t.files)|
    ensures Nearer(t, ReaderStep(t), goal)
  {
    hide Inv, ReaderStep, Nearer;
    if Draining(t.pc) {
      if LineAhead(t) {
        LineNearer(t, goal);
      } else {
        DrainedNearer(t, goal);
      }
    } else if t.pc.Await? {
      AwaitNearer(t, goal);
    } else if t.pc.Select? {
      SelectNearer(t, goal);
    } else if t.pc.Reopen? {
      ReopenNearer(t, goal);
    } else {
      StartNearer(t, goal);
    }
  }

  lemma SameDistance(t: State, r: State, goal: nat)
    requires r == t.(files := r.files, cancelled := r.cancelled, cancelMark := r.cancelMark)
    requires Short(r, goal) == Short(t, goal) && Going(t, goal) && r.files != []
    ensures Distance(r, goal) == Distance(t, goal) && Going(r, goal)
  {
    hide Short;
  }

  lemma OpenInInv(t: State)
    requires Inv(t)
    ensures t.f.Some? ==> OpenFileExists(t)
  {
    hide Log, Looping, Starting, Ended;
  }

  /** What the writer and the main thread do takes it no further away. */
  lemma WriterNoFurther(t: State, a: Action, goal: nat)
    requires Inv(t) && Allowed(t, a) && !a.Reader? && Going(t, goal) && goal <= |Log(t.files)|
    ensures var r := Next(t, a);
            && Distance(r, goal) == Distance(t, goal) && r.start == t.start && Going(r, goal)
            && goal <= |Log(r.files)|
  {
    WriterSteps(t, a);
    OpenInInv(t);
    hide Log, Inv, Next, Short, Allowed;
    var r := Next(t, a);
    ShortStays(t, r, goal);
    WriterFacts(t, r);
    SameDistance(t, r, goal);
  }

  lemma WriterFacts(t: State, r: State)
    requires WriterStep(t, r) && t.files != []
    ensures r == t.(files := r.files, cancelled := r.cancelled, cancelMark := r.cancelMark) && r.files != []
    ensures |Log(t.files)| <= |Log(r.files)|
  {
    hide Log;
  }

  lemma ShortStays(t: State, r: State, goal: nat)
    requires WriterStep(t, r) && (t.f.Some? ==> OpenFileExists(t)) && goal <= |Log(t.files)|
    ensures Short(r, goal) == Short(t, goal)
  {
    if OpenFileExists(t) {
      var f := t.f.value;
      if f == Current(t) {
        FileInLog(t.files, f);
      } else {
        assert r.files[f] == t.files[f];
      }
    }
    hide Log, FileStart;
  }

  lemma {:induction false} RunGetsThere(t: State, acts: seq<Action>, goal: nat)
    requires Inv(t) && IsRun(t, acts) && KeptUp(t, acts) && !t.pc.StatPath? && goal <= |Log(t.files)|
    requires Going(t, goal) || goal <= Got(t)
    requires Count(acts, true) >= Distance(t, goal)
    ensures goal <= Got(After(t, acts))
    decreases |acts|
  {
    if goal <= Got(t) {
      RunExtends(t, acts);
      hide Log;
    } else {
      NotThereYet(t, goal);
      hide Inv, Distance, Going, Next, Got, ReaderStep, Nearer, Log, Position;
      var r := Next(t, acts[0]);
      StepKeepsInv(t, acts[0]);
      if acts[0].Reader? {
        StepNearer(t, goal);
      } else {
        WriterNoFurther(t, acts[0], goal);
        WriterLooked(t, acts[0]);
      }
      RunGetsThere(r, acts[1..], goal);
    }
  }

  lemma NotThereYet(t: State, goal: nat)
    requires Got(t) < goal
    ensures Distance(t, goal) > 0
  {
  }

  lemma WriterLooked(t: State, a: Action)
    requires Enabled(t, a) && !a.Reader? && !t.pc.StatPath?
    ensures !Next(t, a).pc.StatPath?
  {
  }

  lemma StepNearer(t: State, goal: nat)
    requires Inv(t) && Going(t, goal) && Got(t) < goal <= |Log(t.files)|
    ensures var r := Next(t, Reader);
            && Distance(r, goal) < Distance(t, goal) && !r.pc.StatPath? && goal <= |Log(r.files)|
            && (Going(r, goal) || goal <= Got(r))
  {
    ReaderNearer(t, goal);
    ReaderFrame(t);
    hide Log, Inv, Going, Distance, Got, ReaderStep;
  }

  lemma DistanceAtMost(t: State, goal: nat)
    ensures Distance(t, goal) <= 6 + goal - t.start - |t.delivered|
  {
  }

  lemma ReachedGot(t: State)
    requires Reached(t) && !t.pc.StatPath?
    ensures Got(t) <= |Log(t.files)|
  {
    DeliveredExactlyOnce(t);
  }

  /** The mirror keeps mirroring: in every run from a state in which it has looked at the path, a file is
      there, and it has not seen a cancellation, it has delivered everything that was in the log at the
      beginning (from the starting point on) once it has made as many steps as there were lines it had
      not delivered, and six more, whatever is written, rotated and cancelled meanwhile. */
  lemma MirrorKeepsMirroring(s: State, acts: seq<Action>)
    requires Reached(s) && !s.pc.StatPath? && !Finished(s) && !s.closing && s.files != []
    requires IsRun(s, acts) && KeptUp(s, acts)
    requires Count(acts, true) >= |Log(s.files)| - s.start - |s.delivered| + 6
    ensures s.start <= |Log(s.files)| && Log(s.files)[s.start..] <= After(s, acts).delivered
  {
    var goal, e := |Log(s.files)|, After(s, acts);
    ReachedKeepsInv(s);
    ReachedGot(s);
    DistanceAtMost(s, goal);
    RunGetsThere(s, acts, goal);
    RunExtends(s, acts);
    RunKeepsInv(s, acts);
    InvDelivers(e);
    hide Inv, Distance, Position;
    PrefixDelivered(Log(s.files), Log(e.files), e.delivered, s.start);
  }

  lemma InvDelivers(e: State)
    requires Inv(e) && !e.pc.StatPath?
    ensures e.delivered != [] ==>
              e.start + |e.delivered| <= |Log(e.files)|
              && e.delivered == Log(e.files)[e.start..e.start + |e.delivered|]
  {
    hide Log, FileStart;
  }

  lemma PrefixDelivered(log: seq<Line>, log': seq<Line>, delivered: seq<Line>, start: nat)
    requires log <= log' && start <= |log| <= start + |delivered|
    requires delivered != [] ==>
      start + |delivered| <= |log'| && delivered == log'[start..start + |delivered|]
    ensures log[start..] <= delivered
  {
    if delivered != [] {
      assert log[start..] == log'[start..|log|];
      assert delivered[..|log| - start] == log'[start..|log|];
    }
  }

  // ---------------------------------------------------------------- steps with nothing in between

  lemma {:induction false} ReadersGetThere(t: State, goal: nat) returns (n: nat)
    requires Inv(t) && !t.pc.StatPath? && goal <= |Log(t.files)|
    requires Going(t, goal) || goal <= Got(t)
    ensures goal <= Got(Readers(t, n)) && Inv(Readers(t, n)) && Readers(t, n).files == t.files
    ensures Readers(t, n).start == t.start && !Readers(t, n).pc.StatPath?
    ensures goal <= Got(t) ==> n == 0
    ensures Got(t) < goal ==> n <= Distance(t, goal)
    decreases if goal <= Got(t) then 0 else Distance(t, goal)
  {
    if goal <= Got(t) {
      n := 0;
    } else {
      NotThereYet(t, goal);
      ReaderNearer(t, goal);
      ReaderKeepsInv(t);
      ReaderFrame(t);
      hide Inv, Going, ReaderStep, Log, Detour;
      var m := ReadersGetThere(ReaderStep(t), goal);
      n := m + 1;
    }
  }

  /** Left alone, the mirror has caught up with the log after that many steps. */
  lemma MirrorCatchesUp(s: State) returns (n: nat)
    requires Reached(s) && !s.pc.StatPath? && !Finished(s) && !s.closing && s.files != []
    ensures n <= |Log(s.files)| - s.start - |s.delivered| + 6
    ensures s.start <= |Log(s.files)| && Readers(s, n).delivered == Log(s.files)[s.start..]
  {
    var goal := |Log(s.files)|;
    ReachedKeepsInv(s);
    ReachedGot(s);
    DistanceAtMost(s, goal);
    n := ReadersGetThere(s, goal);
    var e := Readers(s, n);
    InvDelivers(e);
    hide Inv, Distance, Position, Readers;
    assert e.start == s.start && e.files == s.files;
  }

  // ---------------------------------------------------------------- what the writer does

  /** An appended line is the next line of the log, a rotation puts an empty file behind the others, and
      a cancellation stays. */
  lemma WriterDoes(s: State, line: Line)
    ensures s.files != [] ==> Log(Next(s, Append(line)).files) == Log(s.files) + [line]
    ensures s.files != [] ==> Next(s, Rotate).files == s.files + [[]]
    ensures s.files == [] ==> Next(s, Create).files == [[]]
    ensures !s.cancelled ==> Next(s, Cancel).cancelled && Next(s, Cancel).files == s.files
  {
    if s.files != [] {
      AppendExtendsLog(s.files, line);
    }
    hide Log;
  }

  lemma {:induction false} ReadersEnd(t: State) returns (n: nat)
    requires Inv(t) && t.cancelled
    ensures Finished(Readers(t, n))
    decreases Work(t) + 1
  {
    PositionInLog(t);
    if Finished(t) {
      n := 0;
    } else {
      MirrorStepWorks(t);
      ReaderKeepsInv(t);
      ReaderFrame(t);
      PositionInLog(ReaderStep(t));
      hide Inv, ReaderStep, Log, Position;
      var m := ReadersEnd(ReaderStep(t));
      n := m + 1;
    }
  }

  /** Cancelled at any moment and then left alone, the mirror ends, having delivered the whole log from
      the starting point on. */
  lemma CancelledMirrorEnds(s: State) returns (n: nat)
    requires Reached(s) && !s.pc.StatPath? && !s.cancelled && !Finished(s)
    ensures Finished(Readers(Next(s, Cancel), n))
    ensures s.start <= |Log(s.files)| && Log(s.files)[s.start..] <= Readers(Next(s, Cancel), n).delivered
  {
    ReachedKeepsInv(s);
    StepKeepsInv(s, Cancel);
    WriterDoes(s, "");
    var c := Next(s, Cancel);
    hide Inv, Next, Log;
    n := ReadersEnd(c);
    ReadersLead(c, n);
    var acts: seq<Action> :| IsRun(c, acts) && KeptUp(c, acts) && After(c, acts) == Readers(c, n);
    ShutdownIsComplete(s, acts);
  }
}
