/** `cmd/runmqserver/mirror.go`: a goroutine that tails a log which is appended to, rotated and
    finally cancelled while it reads. Every system call of the goroutine is one step, and the
    writer's steps fall anywhere between them. */
module Mirror {
  import opened Options

  type Line = string

  /** Where `mirrorLog` is. A file is known by its inode: its place in the order of creation. */
  datatype Pc =
    | StatPath                  // the first os.Stat, before mirrorLog returns
    | OpenExisting(size: nat)   // the path existed, `size` lines long
    | AwaitFirst                // waitForFile, when the path did not exist
    | OpenFirst                 // it does now
    | FirstStat(offset: nat)    // f.Stat, and the seek
    | DrainOpen                 // mirrorAvailableMessages at the top of the loop
    | Await                     // waitForFile and os.SameFile
    | DrainOld(newFI: nat)      // the rest of the old file after a rotation
    | Reopen(newFI: nat)
    | DrainNew                  // the new file from its start
    | Select
    | Done
    | Failed

  /** `files` are the log files in order of creation, and the path names the last one. The
      variables of the goroutine are `f` (the inode open), `pos` (lines read from it), `fi`
      and `closing`. `positions` and the last four fields only record history: where in the log
      the delivered lines came from, the place in the log where mirroring has to start, how long
      the log was when this pass of the loop began and when the context was cancelled, and how
      often the select has seen the cancellation. */
  datatype State = State(
    files: seq<seq<Line>>, cancelled: bool,
    pc: Pc, fromStart: bool, f: Option<nat>, pos: nat, fi: nat, closing: bool, delivered: seq<Line>,
    positions: seq<nat>, start: nat, passMark: nat, cancelMark: nat, cancelSeen: nat)

  datatype Action = Reader | Create | Append(line: Line) | Rotate | Cancel

  /** Everything written to the log so far. */
  function Log(files: seq<seq<Line>>): (r: seq<Line>) {
    if files == [] then [] else Log(files[..|files| - 1]) + files[|files| - 1]
  }

  predicate Finished(s: State) {
    s.pc.Done? || s.pc.Failed?
  }

  predicate Initial(s: State) {
    && s.pc == StatPath && s.f == None && !s.cancelled && !s.closing && s.delivered == []
    && s.positions == [] && s.cancelMark == 0 && s.cancelSeen == 0
  }

  predicate Enabled(s: State, a: Action) {
    match a
    case Reader => !Finished(s)
    case Create => s.files == []
    case Append(_) => s.files != []
    case Rotate => s.files != []
    case Cancel => !s.cancelled
  }

  /** The inode the path names. */
  function Current(s: State): (n: int) {
    |s.files| - 1
  }

  /** mirrorAvailableMessages: the next line is delivered, or there is none and it returns. */
  function Drain(s: State, next: Pc): (s': State)
    requires s.f.Some? && s.f.value < |s.files|
  {
    if s.pos < |s.files[s.f.value]|
    then s.(pos := s.pos + 1, delivered := s.delivered + [s.files[s.f.value][s.pos]],
            positions := s.positions + [FileStart(s.files, s.f.value) + s.pos])
    else s.(pc := next)
  }

  predicate OpenFileExists(s: State) {
    s.f.Some? && s.f.value < |s.files|
  }

  function StartPass(s: State): (s': State) {
    s.(pc := DrainOpen, passMark := |Log(s.files)|)
  }

  function ReaderStep(s: State): (s': State) {
    match s.pc
    case StatPath =>
      if s.files == [] then s.(pc := AwaitFirst, start := 0)
      else
        var last := s.files[Current(s)];
        s.(pc := OpenExisting(|last|), start := |Log(s.files)| - if s.fromStart then |last| else 0)
    case OpenExisting(size) =>
      if s.files == [] then s.(pc := Failed) else s.(f := Some(Current(s)), pc := FirstStat(size))
    case AwaitFirst =>
      if s.files != [] then s.(pc := OpenFirst)
      else if s.cancelled then s.(pc := Failed)
      else s
    case OpenFirst =>
      if s.files == [] then s.(pc := Failed) else s.(f := Some(Current(s)), pc := FirstStat(0))
    case FirstStat(offset) =>
      if s.f.None? then s.(pc := Failed)
      else StartPass(s.(fi := s.f.value, pos := if offset != 0 && !s.fromStart then offset else 0))
    case DrainOpen => if OpenFileExists(s) then Drain(s, Await) else s.(pc := Failed)
    case Await =>
      if s.files == [] then s.(pc := Failed)
      else if Current(s) == s.fi then s.(pc := Select)
      else s.(pc := DrainOld(Current(s)))
    case DrainOld(newFI) => if OpenFileExists(s) then Drain(s, Reopen(newFI)) else s.(pc := Failed)
    case Reopen(newFI) =>
      if s.files == [] then s.(pc := Failed)
      else s.(f := Some(Current(s)), pos := 0, fi := newFI, pc := DrainNew)
    case DrainNew => if OpenFileExists(s) then Drain(s, Select) else s.(pc := Failed)
    case Select =>
      if !s.cancelled then StartPass(s)
      else if s.closing then s.(pc := Done, cancelSeen := s.cancelSeen + 1)
      else StartPass(s.(closing := true, cancelSeen := s.cancelSeen + 1))
    case Done => s
    case Failed => s
  }

  function Next(s: State, a: Action): (s': State)
    requires Enabled(s, a)
  {
    match a
    case Reader => ReaderStep(s)
    case Create => s.(files := [[]])
    case Append(line) => s.(files := s.files[..Current(s)] + [s.files[Current(s)] + [line]])
    case Rotate => s.(files := s.files + [[]])
    case Cancel => s.(cancelled := true, cancelMark := |Log(s.files)|)
  }

  /** The mirror has the newest file open, has not looked for a file yet, or has ended. */
  predicate KeepsUp(s: State) {
    s.pc.StatPath? || Finished(s) || s.f == Some(Current(s))
  }

  /** The one limit on rotations, which the source's own warning hints at. A rotation does no harm
      while the mirror keeps up, while it is about to end, or when the file rotated away is empty and
      the mirror is not between a look at the path and the open that follows it (unless it is about
      to end). Module `MirrorLimit` shows that no weaker limit will do. */
  predicate Harmless(s: State) {
    || KeepsUp(s)
    || (s.closing && (s.pc.DrainNew? || s.pc.Select?))
    || (s.files != [] && s.files[Current(s)] == [] && (s.closing || !(s.pc.DrainOld? || s.pc.Reopen?)))
  }

  predicate Allowed(s: State, a: Action) {
    Enabled(s, a) && (a.Rotate? ==> Harmless(s))
  }

  /** A run: any interleaving of steps of the mirror, the writer and the main thread. */
  ghost predicate IsRun(s: State, acts: seq<Action>)
    decreases |acts|
  {
    acts == [] || (Enabled(s, acts[0]) && IsRun(Next(s, acts[0]), acts[1..]))
  }

  ghost function After(s: State, acts: seq<Action>): (s': State)
    requires IsRun(s, acts)
    decreases |acts|
  {
    if acts == [] then s else After(Next(s, acts[0]), acts[1..])
  }

  /** A run in which every rotation is harmless when it happens. */
  ghost predicate KeptUp(s: State, acts: seq<Action>)
    requires IsRun(s, acts)
    decreases |acts|
  {
    acts == [] || (Allowed(s, acts[0]) && KeptUp(Next(s, acts[0]), acts[1..]))
  }

  // ---------------------------------------------------------------- the log

  lemma LogMore(files: seq<seq<Line>>, file: seq<Line>)
    ensures Log(files + [file]) == Log(files) + file
  {
    assert (files + [file])[..|files|] == files;
  }

  lemma RotationKeepsLog(files: seq<seq<Line>>)
    ensures Log(files + [[]]) == Log(files)
  {
    LogMore(files, []);
  }

  lemma Associate(a: seq<Line>, b: seq<Line>, c: seq<Line>)
    ensures (a + b) + c == a + (b + c)
  {
  }

  lemma AppendExtendsLog(files: seq<seq<Line>>, line: Line)
    requires files != []
    ensures Log(files[..|files| - 1] + [files[|files| - 1] + [line]]) == Log(files) + [line]
  {
    hide Log;
    var before, last := files[..|files| - 1], files[|files| - 1];
    LogMore(before, last);
    LogMore(before, last + [line]);
    assert before + [last] == files;
    Associate(Log(before), last, [line]);
  }

  /** Where the file with inode `i` starts in the log. */
  function FileStart(files: seq<seq<Line>>, i: nat): (n: nat)
    requires i <= |files|
  {
    |Log(files[..i])|
  }

  function FileEnd(files: seq<seq<Line>>, i: nat): (n: nat)
    requires i < |files|
  {
    FileStart(files, i) + |files[i]|
  }

  lemma {:induction false} FileInLog(files: seq<seq<Line>>, i: nat)
    requires i < |files|
    ensures FileStart(files, i + 1) == FileEnd(files, i) <= |Log(files)|
    ensures Log(files)[FileStart(files, i)..FileEnd(files, i)] == files[i]
    ensures i == |files| - 1 ==> FileEnd(files, i) == |Log(files)|
  {
    var n := |files| - 1;
    assert files[..i + 1][..i] == files[..i];
    if i < n {
      assert files[..n][..i] == files[..i] && files[..n][..i + 1] == files[..i + 1];
      FileInLog(files[..n], i);
      assert Log(files)[FileStart(files, i)..FileEnd(files, i)]
          == Log(files[..n])[FileStart(files, i)..FileEnd(files, i)];
    } else {
      assert files[..i + 1] == files;
    }
  }

  /** The files before the newest, from the inode `lo` on, are empty. */
  ghost predicate EmptyFrom(files: seq<seq<Line>>, lo: nat) {
    forall i | lo <= i < |files| - 1 :: files[i] == []
  }

  /** Where nothing but empty files comes in between, a file ends where the later one starts. */
  lemma {:induction false} EmptyGap(files: seq<seq<Line>>, i: nat, j: nat)
    requires i < j < |files| && EmptyFrom(files, i + 1)
    ensures FileStart(files, j) == FileEnd(files, i)
  {
    FileInLog(files, j - 1);
    if j - 1 > i {
      hide Log;
      EmptyGap(files, i, j - 1);
      assert files[j - 1] == [];
    }
  }

  // ---------------------------------------------------------------- what every step keeps

  /** The place in the log the mirror has reached; nothing before the file is positioned. */
  function Position(s: State): (n: nat) {
    if s.f.Some? && s.f.value < |s.files| && !s.pc.FirstStat? then FileStart(s.files, s.f.value) + s.pos else 0
  }

  predicate InLoop(pc: Pc) {
    pc.DrainOpen? || pc.Await? || pc.DrainOld? || pc.Reopen? || pc.DrainNew? || pc.Select? || pc.Done?
  }

  /** Every line from `start` on, once, in the order of the log. */
  ghost predicate Consecutive(positions: seq<nat>, start: nat) {
    forall i | 0 <= i < |positions| :: positions[i] == start + i
  }

  ghost predicate Starting(s: State) {
    && s.delivered == [] && s.positions == [] && !s.closing && s.cancelSeen == 0
    && match s.pc
       case OpenExisting(size) =>
         && s.f == None && s.files != []
         && size <= |s.files[Current(s)]|
         && s.start == FileStart(s.files, Current(s)) + if s.fromStart then 0 else size
       case AwaitFirst => s.f == None && s.start == 0 && (s.files != [] ==> FileStart(s.files, Current(s)) == 0)
       case OpenFirst => s.f == None && s.start == 0 && s.files != [] && FileStart(s.files, Current(s)) == 0
       case FirstStat(offset) =>
         && s.f.Some? && s.f.value < |s.files| && EmptyFrom(s.files, s.f.value + 1)
         && offset <= |s.files[s.f.value]|
         && s.start == FileStart(s.files, s.f.value) + if s.fromStart then 0 else offset
       case _ => true
  }

  /** The mirror ends after this pass, and has looked at the path for the last time. */
  predicate Leaving(s: State) {
    s.closing && (s.pc.DrainNew? || s.pc.Select?)
  }

  ghost predicate Looping(s: State)
    requires s.f.Some? && s.f.value < |s.files|
  {
    var f, p := s.f.value, Position(s);
    && (Leaving(s) || (s.fi == f && EmptyFrom(s.files, f + 1)))
    && s.pos <= |s.files[f]|
    && s.start <= p <= |Log(s.files)|
    && s.delivered == Log(s.files)[s.start..p]
    && |s.positions| == |s.delivered| && Consecutive(s.positions, s.start)
    && s.passMark <= |Log(s.files)|
    && (s.closing ==> s.cancelled && s.cancelMark <= s.passMark)
    && s.cancelSeen == (if s.closing then 1 else 0)
    && (s.pc.Await? && f == Current(s) ==> s.passMark <= p)
    && (s.pc.DrainOld? ==> f < Current(s) && (s.closing || s.pc.newFI == Current(s)))
    && (s.pc.Reopen? ==> f < Current(s) && (s.closing || s.pc.newFI == Current(s)) && s.pos == |s.files[f]|)
    && (s.pc.DrainNew? ==> s.passMark <= FileEnd(s.files, f))
    && (s.pc.Select? ==> s.passMark <= p)
  }

  ghost predicate Ended(s: State) {
    && s.start + |s.delivered| <= |Log(s.files)|
    && s.delivered == Log(s.files)[s.start..s.start + |s.delivered|]
    && |s.positions| == |s.delivered| && Consecutive(s.positions, s.start)
    && (s.pc.Done? ==> s.cancelMark <= s.start + |s.delivered|)
    && (s.pc.Failed? ==> s.cancelMark == 0)
    && s.cancelSeen == (if s.pc.Done? then 2 else 0)
    && Position(s) <= |Log(s.files)|
  }

  ghost predicate Inv(s: State) {
    && (s.cancelled ==> s.cancelMark <= |Log(s.files)|)
    && (Finished(s) ==> s.cancelled)
    && (s.f.Some? ==> OpenFileExists(s))
    && (s.pc.StatPath? ==> s.f == None && s.delivered == [] && s.positions == [] && !s.closing && s.cancelSeen == 0)
    && if Finished(s) then Ended(s)
       else if InLoop(s.pc) then s.f.Some? && s.f.value < |s.files| && Looping(s)
       else s.pc.StatPath? || Starting(s)
  }

  // ---------------------------------------------------------------- steps of the writer

  /** The log has grown and nothing in it has moved; only the last file may have changed. */
  ghost predicate Grown(files: seq<seq<Line>>, files': seq<seq<Line>>) {
    && |files| <= |files'|
    && Log(files) <= Log(files')
    && (forall i: nat | i < |files| :: FileStart(files', i) == FileStart(files, i) && |files[i]| <= |files'[i]|)
    && (forall i: nat | i < |files| - 1 :: files'[i] == files[i])
  }

  lemma GrownBy(files: seq<seq<Line>>, files': seq<seq<Line>>)
    requires |files| <= |files'| && Log(files) <= Log(files')
    requires forall i: nat | i < |files| - 1 :: files'[i] == files[i]
    requires files != [] ==> files[|files| - 1] <= files'[|files| - 1]
    ensures Grown(files, files')
  {
    hide Log;
    forall i: nat | i < |files|
      ensures FileStart(files', i) == FileStart(files, i) && |files[i]| <= |files'[i]|
    {
      assert files'[..i] == files[..i];
    }
  }

  lemma WriterGrows(s: State, a: Action)
    requires Enabled(s, a) && !a.Reader?
    ensures Grown(s.files, Next(s, a).files)
  {
    hide Log, Grown;
    if s.files != [] {
      RotationKeepsLog(s.files);
      AppendExtendsLog(s.files, if a.Append? then a.line else "");
    } else {
      assert Log([]) == [] by { EmptyLog(); }
    }
    GrownBy(s.files, Next(s, a).files);
  }

  lemma EmptyLog()
    ensures Log([]) == []
  {
  }

  /** What a step of the writer or a cancellation can do to the mirror's state. */
  ghost predicate WriterStep(s: State, s': State) {
    && Grown(s.files, s'.files)
    && s' == s.(files := s'.files, cancelled := s'.cancelled, cancelMark := s'.cancelMark)
    && (s.cancelled ==> s'.cancelled && s'.cancelMark == s.cancelMark)
    && (s'.cancelled && !s.cancelled ==> s'.cancelMark == |Log(s.files)| && s'.files == s.files)
    && (|s'.files| == |s.files| || s.files == [] || (Harmless(s) && s'.files == s.files + [[]]))
    && |s'.files| <= |s.files| + 1
  }

  lemma WriterSteps(s: State, a: Action)
    requires Allowed(s, a) && !a.Reader?
    ensures WriterStep(s, Next(s, a))
  {
    WriterGrows(s, a);
  }

  lemma WriterKeepsLooping(s: State, s': State)
    requires WriterStep(s, s') && InLoop(s.pc) && !s.pc.Done? && OpenFileExists(s) && Looping(s)
    ensures OpenFileExists(s') && Looping(s')
  {
    hide Log;
    var p := Position(s);
    assert Position(s') == p;
    assert Log(s'.files)[s.start..p] == Log(s.files)[s.start..p];
  }

  lemma GrowthKeepsStarting(s: State, s': State)
    requires WriterStep(s, s') && !InLoop(s.pc) && !s.pc.StatPath? && !Finished(s) && Starting(s)
    requires |s'.files| == |s.files|
    ensures Starting(s')
  {
    hide Log;
  }

  lemma CreationKeepsStarting(s: State, s': State)
    requires WriterStep(s, s') && s.pc.AwaitFirst? && Starting(s) && s.files == [] && s'.files != []
    ensures Starting(s')
  {
    EmptyLog();
    assert |s'.files| == 1;
  }

  lemma RotationStart(files: seq<seq<Line>>)
    requires files != [] && files[|files| - 1] == []
    ensures FileStart(files + [[]], |files|) == FileStart(files, |files| - 1)
  {
    FileInLog(files, |files| - 1);
    hide Log;
    assert (files + [[]])[..|files|] == files;
  }

  lemma RotationKeepsOpening(s: State, s': State)
    requires WriterStep(s, s') && !InLoop(s.pc) && !s.pc.StatPath? && !Finished(s) && Starting(s)
    requires s'.files == s.files + [[]] && s.files != [] && Harmless(s) && !s.pc.FirstStat?
    ensures Starting(s')
  {
    assert s.files[Current(s)] == [];
    RotationStart(s.files);
    hide Log, FileStart;
  }

  lemma RotationKeepsPositioning(s: State, s': State)
    requires WriterStep(s, s') && s.pc.FirstStat? && Starting(s)
    requires s'.files == s.files + [[]] && s.files != [] && Harmless(s)
    ensures Starting(s')
  {
    hide Log;
    assert FileStart(s'.files, s.f.value) == FileStart(s.files, s.f.value);
    hide FileStart;
  }

  lemma WriterKeepsStarting(s: State, s': State)
    requires WriterStep(s, s') && !InLoop(s.pc) && !s.pc.StatPath? && !Finished(s) && Starting(s)
    ensures Starting(s')
  {
    if |s'.files| == |s.files| {
      GrowthKeepsStarting(s, s');
    } else if s.files == [] {
      StartsWithFile(s);
      CreationKeepsStarting(s, s');
    } else if s.pc.FirstStat? {
      RotationKeepsPositioning(s, s');
    } else {
      RotationKeepsOpening(s, s');
    }
  }

  lemma StartsWithFile(s: State)
    requires !InLoop(s.pc) && !s.pc.StatPath? && !Finished(s) && Starting(s) && s.files == []
    ensures s.pc.AwaitFirst?
  {
  }

  lemma WriterKeepsEnded(s: State, s': State)
    requires WriterStep(s, s') && Finished(s) && Ended(s)
    requires s.cancelled
    requires s.f.Some? ==> OpenFileExists(s)
    ensures Ended(s')
  {
    hide Log;
    var n := s.start + |s.delivered|;
    assert Log(s'.files)[s.start..n] == Log(s.files)[s.start..n];
  }

  lemma WriterKeepsInv(s: State, a: Action)
    requires Inv(s) && Allowed(s, a) && !a.Reader?
    ensures Inv(Next(s, a))
  {
    hide Log, Looping, Starting, Ended;
    WriterSteps(s, a);
    var s' := Next(s, a);
    if Finished(s) {
      WriterKeepsEnded(s, s');
    } else if InLoop(s.pc) {
      WriterKeepsLooping(s, s');
    } else if !s.pc.StatPath? {
      WriterKeepsStarting(s, s');
    }
  }

  // ---------------------------------------------------------------- steps of the mirror

  predicate Draining(pc: Pc) {
    pc.DrainOpen? || pc.DrainOld? || pc.DrainNew?
  }

  /** Reading a line: the next line of the log is delivered. */
  lemma LineKeepsLooping(s: State, next: Pc)
    requires Draining(s.pc) && OpenFileExists(s) && Looping(s) && s.pos < |s.files[s.f.value]|
    ensures Looping(Drain(s, next))
  {
    var f, p := s.f.value, Position(s);
    FileInLog(s.files, f);
    hide Log;
    assert Log(s.files)[p] == Log(s.files)[FileStart(s.files, f)..FileEnd(s.files, f)][s.pos];
    assert Log(s.files)[s.start..p + 1] == Log(s.files)[s.start..p] + [Log(s.files)[p]];
  }

  /** At the end of a file the mirror moves on, with the file and the place as they were. */
  lemma DrainedKeepsLooping(s: State)
    requires Draining(s.pc) && OpenFileExists(s) && Looping(s) && s.pos == |s.files[s.f.value]|
    ensures OpenFileExists(ReaderStep(s)) && Looping(ReaderStep(s)) && InLoop(ReaderStep(s).pc)
  {
    FileInLog(s.files, s.f.value);
    DrainedStep(s);
    hide Log, ReaderStep;
    assert Position(ReaderStep(s)) == Position(s);
  }

  function AfterDrain(pc: Pc): (next: Pc)
    requires Draining(pc)
  {
    match pc
    case DrainOpen => Await
    case DrainOld(newFI) => Reopen(newFI)
    case DrainNew => Select
  }

  lemma DrainedStep(s: State)
    requires Draining(s.pc) && OpenFileExists(s) && s.pos >= |s.files[s.f.value]|
    ensures ReaderStep(s) == s.(pc := AfterDrain(s.pc))
  {
    hide Log;
  }

  lemma LineStep(s: State)
    requires Draining(s.pc) && OpenFileExists(s) && s.pos < |s.files[s.f.value]|
    ensures ReaderStep(s) == Drain(s, s.pc)
  {
    hide Log;
  }

  lemma AwaitKeepsLooping(s: State)
    requires s.pc.Await? && OpenFileExists(s) && Looping(s)
    ensures OpenFileExists(ReaderStep(s)) && Looping(ReaderStep(s)) && InLoop(ReaderStep(s).pc)
  {
    hide Log;
  }

  lemma ReopenKeepsLooping(s: State)
    requires s.pc.Reopen? && OpenFileExists(s) && Looping(s)
    ensures OpenFileExists(ReaderStep(s)) && Looping(ReaderStep(s)) && InLoop(ReaderStep(s).pc)
  {
    FileInLog(s.files, Current(s));
    EmptyGap(s.files, s.f.value, Current(s));
    hide Log;
    assert Position(ReaderStep(s)) == Position(s);
  }

  lemma SelectKeepsInv(s: State)
    requires s.pc.Select? && OpenFileExists(s) && Looping(s)
    requires s.cancelled ==> s.cancelMark <= |Log(s.files)|
    ensures Inv(ReaderStep(s))
  {
    hide Log;
    var s' := ReaderStep(s);
    assert s.start + |s.delivered| == Position(s);
  }

  lemma FirstLookKeepsInv(s: State)
    requires Inv(s) && s.pc.StatPath?
    ensures Inv(ReaderStep(s))
  {
    if s.files != [] {
      FileInLog(s.files, Current(s));
    }
    hide Log;
  }

  lemma OpeningKeepsInv(s: State)
    requires Inv(s) && (s.pc.OpenExisting? || s.pc.AwaitFirst? || s.pc.OpenFirst?)
    ensures Inv(ReaderStep(s))
  {
    EmptyLog();
    hide Log;
  }

  lemma PositioningKeepsInv(s: State)
    requires Inv(s) && s.pc.FirstStat?
    ensures Inv(ReaderStep(s))
  {
    FileInLog(s.files, s.f.value);
    hide Log;
    assert Position(ReaderStep(s)) == s.start;
  }

  lemma StartKeepsInv(s: State)
    requires Inv(s) && !InLoop(s.pc) && !Finished(s)
    ensures Inv(ReaderStep(s))
  {
    hide Inv, ReaderStep;
    if s.pc.StatPath? {
      FirstLookKeepsInv(s);
    } else if s.pc.FirstStat? {
      PositioningKeepsInv(s);
    } else {
      OpeningKeepsInv(s);
    }
  }

  lemma ReaderKeepsInv(s: State)
    requires Inv(s)
    ensures Inv(ReaderStep(s))
  {
    hide Log, Looping, Starting, Ended;
    if Finished(s) {
    } else if !InLoop(s.pc) {
      StartKeepsInv(s);
    } else if s.pc.Select? {
      SelectKeepsInv(s);
    } else if Draining(s.pc) && s.pos < |s.files[s.f.value]| {
      LineKeepsLooping(s, s.pc);
    } else {
      EndOfFile(s);
      if s.pc.Await? {
        AwaitKeepsLooping(s);
      } else if s.pc.Reopen? {
        ReopenKeepsLooping(s);
      } else {
        DrainedKeepsLooping(s);
      }
    }
  }

  lemma EndOfFile(s: State)
    requires OpenFileExists(s) && Looping(s)
    ensures s.pos <= |s.files[s.f.value]|
  {
  }

  // ---------------------------------------------------------------- every run

  lemma StepKeepsInv(s: State, a: Action)
    requires Inv(s) && Allowed(s, a)
    ensures Inv(Next(s, a))
  {
    if a.Reader? {
      ReaderKeepsInv(s);
    } else {
      WriterKeepsInv(s, a);
    }
  }

  lemma {:induction false} RunKeepsInv(s: State, acts: seq<Action>)
    requires Inv(s) && IsRun(s, acts) && KeptUp(s, acts)
    ensures Inv(After(s, acts))
    decreases |acts|
  {
    hide Inv;
    if acts != [] {
      StepKeepsInv(s, acts[0]);
      RunKeepsInv(Next(s, acts[0]), acts[1..]);
    }
  }

  /** States that a kept-up run reaches. */
  ghost predicate Reached(s: State) {
    exists s0: State, acts: seq<Action> :: Initial(s0) && IsRun(s0, acts) && KeptUp(s0, acts) && s == After(s0, acts)
  }

  lemma ReachedKeepsInv(s: State)
    requires Reached(s)
    ensures Inv(s)
  {
    var s0: State, acts: seq<Action> :| Initial(s0) && IsRun(s0, acts) && KeptUp(s0, acts) && s == After(s0, acts);
    RunKeepsInv(s0, acts);
  }

  /** Exactly once and in order: at every moment the lines delivered are the lines of the log
      from the starting point, up to some place, whatever was rotated in between. */
  lemma DeliveredExactlyOnce(s: State)
    requires Reached(s) && !s.pc.StatPath?
    ensures s.start + |s.delivered| <= |Log(s.files)|
    ensures s.delivered == Log(s.files)[s.start..s.start + |s.delivered|]
  {
    ReachedKeepsInv(s);
    if !InLoop(s.pc) && !Finished(s) && s.files != [] {
      FileInLog(s.files, Current(s));
      if OpenFileExists(s) {
        FileInLog(s.files, s.f.value);
      }
    }
  }

  /** Where mirroring starts is decided by the first look at the path: the beginning of the log
      when there is no file yet, the start of the file that is there when told to, and otherwise
      its end. */
  lemma StartingPoint(s: State)
    requires s.pc.StatPath?
    ensures ReaderStep(s).start ==
            if s.files == [] then 0
            else if s.fromStart then FileStart(s.files, Current(s))
            else |Log(s.files)|
  {
    if s.files != [] {
      FileInLog(s.files, Current(s));
    }
  }

  /** The log and what has been delivered only grow, and the starting point stays. */
  ghost predicate Extends(s: State, s': State) {
    Log(s.files) <= Log(s'.files) && s.delivered <= s'.delivered && (s.pc.StatPath? || s'.start == s.start)
  }

  /** The path has been looked at before and after, or only after, or not yet. */
  ghost predicate Keeps(s: State, s': State) {
    && Extends(s, s')
    && (!s.pc.StatPath? ==> !s'.pc.StatPath?)
    && (s.cancelled ==> s'.cancelled && s'.cancelMark == s.cancelMark)
  }

  /** The next step reads a line. */
  predicate LineAhead(s: State) {
    Draining(s.pc) && OpenFileExists(s) && s.pos < |s.files[s.f.value]|
  }

  /** What a step of the mirror leaves alone, what it can deliver, and what it can open. */
  ghost predicate Framed(s: State, s': State) {
    && s'.files == s.files && s'.cancelled == s.cancelled && s'.cancelMark == s.cancelMark
    && (s.pc.StatPath? || (s'.start == s.start && !s'.pc.StatPath?))
    && (s'.delivered == s.delivered || exists line :: s'.delivered == s.delivered + [line])
    && (LineAhead(s) || (s'.delivered == s.delivered && s'.positions == s.positions))
    && (s'.f == s.f || (s.files != [] && s'.f == Some(Current(s))))
  }

  lemma DrainFrame(s: State)
    requires Draining(s.pc)
    ensures Framed(s, ReaderStep(s))
  {
    if OpenFileExists(s) {
      if s.pos < |s.files[s.f.value]| {
        LineStep(s);
        assert Drain(s, s.pc).delivered == s.delivered + [s.files[s.f.value][s.pos]];
      } else {
        DrainedStep(s);
      }
      hide ReaderStep;
    }
  }

  lemma LoopFrame(s: State)
    requires InLoop(s.pc) && !Draining(s.pc)
    ensures Framed(s, ReaderStep(s))
  {
    hide Log, Drain;
  }

  lemma StartFrame(s: State)
    requires !InLoop(s.pc) && !s.pc.FirstStat?
    ensures Framed(s, ReaderStep(s))
  {
    hide Log, Drain;
  }

  lemma SeekFrame(s: State)
    requires s.pc.FirstStat?
    ensures Framed(s, ReaderStep(s))
  {
    hide Log, Drain;
  }

  lemma ReaderFrame(s: State)
    ensures Framed(s, ReaderStep(s))
  {
    hide Framed, ReaderStep;
    if Draining(s.pc) {
      DrainFrame(s);
    } else if InLoop(s.pc) {
      LoopFrame(s);
    } else if s.pc.FirstStat? {
      SeekFrame(s);
    } else {
      StartFrame(s);
    }
  }

  lemma ReaderExtends(s: State)
    ensures Keeps(s, ReaderStep(s))
  {
    hide Log, ReaderStep;
    ReaderFrame(s);
  }

  lemma StepExtends(s: State, a: Action)
    requires Enabled(s, a)
    ensures Keeps(s, Next(s, a))
  {
    hide Log, ReaderStep;
    if a.Reader? {
      ReaderExtends(s);
    } else {
      WriterGrows(s, a);
    }
  }

  lemma {:induction false} RunExtends(s: State, acts: seq<Action>)
    requires IsRun(s, acts)
    ensures Keeps(s, After(s, acts))
    decreases |acts|
  {
    hide Log, ReaderStep;
    if acts != [] {
      StepExtends(s, acts[0]);
      RunExtends(Next(s, acts[0]), acts[1..]);
    }
  }

  lemma SeekIsStart(s: State)
    requires Inv(s) && s.pc.FirstStat?
    ensures Position(ReaderStep(s)) == s.start
  {
    hide Log, FileStart, Looping, Ended, Position;
    var r, offset := ReaderStep(s), s.pc.offset;
    assert Starting(s);
    assert r.pc == DrainOpen && r.files == s.files && r.f == s.f;
    assert r.pos == if offset != 0 && !s.fromStart then offset else 0;
    hide ReaderStep, Inv;
    assert Position(r) == FileStart(r.files, r.f.value) + r.pos by { PositionOpen(r); }
  }

  lemma PositionOpen(s: State)
    requires OpenFileExists(s) && !s.pc.FirstStat?
    ensures Position(s) == FileStart(s.files, s.f.value) + s.pos
  {
  }

  /** The seek leads there: whatever is written and rotated between the first look at the path and
      the seek, reading begins at the place in the log that the first look decided on. */
  lemma ReadingBeginsThere(s: State, acts: seq<Action>)
    requires Reached(s) && s.pc.StatPath?
    requires var r := ReaderStep(s); IsRun(r, acts) && KeptUp(r, acts) && After(r, acts).pc.FirstStat?
    ensures Position(ReaderStep(After(ReaderStep(s), acts))) ==
            if s.files == [] then 0
            else if s.fromStart then FileStart(s.files, Current(s))
            else |Log(s.files)|
  {
    StartingPoint(s);
    ReachedKeepsInv(s);
    ReaderKeepsInv(s);
    ReaderFrame(s);
    hide Inv, ReaderStep, Position, FileStart, Log;
    var r := ReaderStep(s);
    RunKeepsInv(r, acts);
    RunExtends(r, acts);
    SeekIsStart(After(r, acts));
  }

  /** A pass through the loop delivers everything that was written before it began. */
  lemma PassDeliversAll(s: State)
    requires Reached(s) && s.pc.Select?
    ensures s.passMark <= s.start + |s.delivered|
  {
    ReachedKeepsInv(s);
  }

  /** What was in the log at the moment of the cancellation has been delivered. */
  lemma EndDelivers(e: State, log: seq<Line>)
    requires Finished(e) && Ended(e)
    requires log <= Log(e.files) && |log| == e.cancelMark && e.start <= |log|
    ensures log[e.start..] <= e.delivered
  {
    hide Log, Position;
    var n := e.start + |e.delivered|;
    if e.pc.Done? {
      assert e.delivered[..|log| - e.start] == Log(e.files)[e.start..n][..|log| - e.start];
      assert log[e.start..] == Log(e.files)[e.start..|log|];
    }
  }

  lemma FinishedIsEnded(e: State)
    requires Inv(e) && Finished(e)
    ensures Ended(e)
  {
  }

  /** However the mirror ends after a cancellation - after its last pass, or because there was no file
      yet when it was cancelled - every line written before the cancellation (from the starting point
      on) has been delivered, in order. */
  lemma ShutdownIsComplete(s: State, acts: seq<Action>)
    requires Reached(s) && !s.pc.StatPath? && !s.cancelled
    requires var c := Next(s, Cancel); IsRun(c, acts) && KeptUp(c, acts) && Finished(After(c, acts))
    ensures s.start <= |Log(s.files)|
    ensures Log(s.files)[s.start..] <= After(Next(s, Cancel), acts).delivered
  {
    DeliveredExactlyOnce(s);
    ReachedKeepsInv(s);
    StepKeepsInv(s, Cancel);
    hide Inv, Ended, Log, ReaderStep, Reached;
    var c := Next(s, Cancel);
    RunKeepsInv(c, acts);
    RunExtends(c, acts);
    FinishedIsEnded(After(c, acts));
    EndDelivers(After(c, acts), Log(s.files));
  }

  // ---------------------------------------------------------------- shutdown ends

  /** How far the mirror is from its end once cancelled: the passes and steps still to go. */
  function StepsLeft(s: State): (n: nat) {
    match s.pc
    case StatPath => 16
    case AwaitFirst => 15
    case OpenExisting(_) => 14
    case OpenFirst => 14
    case FirstStat(_) => 13
    case DrainOpen => if s.closing then 6 else 12
    case Await => if s.closing then 5 else 11
    case DrainOld(_) => if s.closing then 4 else 10
    case Reopen(_) => if s.closing then 3 else 9
    case DrainNew => if s.closing then 2 else 8
    case Select => if s.closing then 1 else 7
    case Done => 0
    case Failed => 0
  }

  /** ... and the lines it has not read. */
  function Work(s: State): (n: int) {
    StepsLeft(s) + |Log(s.files)| - Position(s)
  }

  lemma PositionInLog(s: State)
    requires Inv(s)
    ensures Position(s) <= |Log(s.files)|
  {
    if OpenFileExists(s) {
      FileInLog(s.files, s.f.value);
    }
  }

  lemma DrainWorks(s: State)
    requires Inv(s) && Draining(s.pc)
    ensures Work(ReaderStep(s)) < Work(s)
  {
    FileInLog(s.files, s.f.value);
    if s.pos < |s.files[s.f.value]| {
      LineStep(s);
    } else {
      DrainedStep(s);
    }
    hide Log, ReaderStep;
  }

  /** After a cancellation every step of the mirror leaves less to do. */
  lemma MirrorStepWorks(s: State)
    requires Inv(s) && s.cancelled && !Finished(s)
    ensures Work(ReaderStep(s)) < Work(s)
  {
    if Draining(s.pc) {
      DrainWorks(s);
    } else {
      if s.files != [] {
        FileInLog(s.files, Current(s));
      }
      if s.pc.Reopen? {
        EmptyGap(s.files, s.f.value, Current(s));
      }
      hide Log;
    }
  }

  function Count(acts: seq<Action>, reader: bool): (n: nat) {
    if acts == [] then 0
    else (if (if reader then acts[0].Reader? else acts[0].Append?) then 1 else 0) + Count(acts[1..], reader)
  }

  lemma WriterAdds(s: State, a: Action)
    requires Enabled(s, a) && !a.Reader?
    ensures |Log(Next(s, a).files)| == |Log(s.files)| + if a.Append? then 1 else 0
  {
    if s.files != [] {
      RotationKeepsLog(s.files);
      AppendExtendsLog(s.files, if a.Append? then a.line else "");
    }
    hide Log;
    EmptyLog();
  }

  lemma PositionStays(s: State, s': State)
    requires Grown(s.files, s'.files)
    requires s' == s.(files := s'.files, cancelled := s'.cancelled, cancelMark := s'.cancelMark)
    requires s.f.Some? ==> OpenFileExists(s)
    ensures Position(s') == Position(s) && StepsLeft(s') == StepsLeft(s)
  {
    hide Log;
  }

  lemma WriterStepWork(s: State, a: Action)
    requires Enabled(s, a) && !a.Reader? && (s.f.Some? ==> OpenFileExists(s))
    ensures Work(Next(s, a)) == Work(s) + if a.Append? then 1 else 0
  {
    hide Log, Position, Grown, StepsLeft, ReaderStep;
    WriterGrows(s, a);
    WriterAdds(s, a);
    PositionStays(s, Next(s, a));
  }

  lemma StepWork(s: State, a: Action)
    requires Inv(s) && s.cancelled && Allowed(s, a)
    ensures Inv(Next(s, a)) && Next(s, a).cancelled
    ensures Work(Next(s, a)) + (if a.Reader? then 1 else 0) <= Work(s) + (if a.Append? then 1 else 0)
  {
    hide Work, Log, Looping, Starting, Ended, ReaderStep;
    StepKeepsInv(s, a);
    StepExtends(s, a);
    if a.Reader? {
      MirrorStepWorks(s);
    } else {
      WriterStepWork(s, a);
    }
  }

  /** After a cancellation the mirror makes at most as many steps as it had left when cancelled,
      plus one for each line written meanwhile: it cannot wait, sleep or spin for ever. */
  lemma ShutdownIsBounded(s: State, acts: seq<Action>)
    requires Reached(s) && s.cancelled && IsRun(s, acts) && KeptUp(s, acts)
    ensures Count(acts, true) + Work(After(s, acts)) <= Work(s) + Count(acts, false)
    ensures 0 <= Work(After(s, acts))
  {
    ReachedKeepsInv(s);
    RunWork(s, acts);
    RunKeepsInv(s, acts);
    PositionInLog(After(s, acts));
  }

  lemma {:induction false} RunWork(s: State, acts: seq<Action>)
    requires Inv(s) && s.cancelled && IsRun(s, acts) && KeptUp(s, acts)
    ensures Count(acts, true) + Work(After(s, acts)) <= Work(s) + Count(acts, false)
    decreases |acts|
  {
    hide Inv, Work, Next, Enabled;
    if acts != [] {
      StepWork(s, acts[0]);
      RunWork(Next(s, acts[0]), acts[1..]);
    }
  }

  /** In particular the loop sees the cancellation at most twice. */
  lemma AtMostTwoMorePasses(s: State)
    requires Reached(s)
    ensures s.cancelSeen <= 2 && (s.pc.Done? ==> s.cancelSeen == 2)
  {
    ReachedKeepsInv(s);
  }

  // ---------------------------------------------------------------- beyond the limit

  /** A file that was rotated away while the mirror did not have it open is never opened: none
      of its lines is ever mirrored, in any run. */
  lemma {:induction false} MissedFileStaysMissed(s: State, j: nat, acts: seq<Action>)
    requires j < |s.files| - 1 && s.f != Some(j) && IsRun(s, acts)
    ensures After(s, acts).f != Some(j)
    decreases |acts|
  {
    hide Log, ReaderStep;
    if acts != [] {
      ReaderFrame(s);
      MissedFileStaysMissed(Next(s, acts[0]), j, acts[1..]);
    }
  }

  /** In some run the mirror comes to have the file with inode `j` open. */
  ghost predicate CanOpen(s: State, j: nat) {
    exists acts: seq<Action> :: IsRun(s, acts) && After(s, acts).f == Some(j)
  }

  lemma OpenNow(s: State, j: nat)
    requires s.f == Some(j)
    ensures CanOpen(s, j)
  {
    assert IsRun(s, []) && After(s, []) == s;
  }

  lemma NeverOpened(s: State, j: nat)
    requires j < |s.files| - 1 && s.f != Some(j)
    ensures !CanOpen(s, j)
  {
    forall acts: seq<Action> | IsRun(s, acts)
      ensures After(s, acts).f != Some(j)
    {
      MissedFileStaysMissed(s, j, acts);
    }
  }

  /** A rotation gives up the current file for good unless the mirror has it open. */
  lemma RotationGivesUpUnopened(s: State)
    requires Enabled(s, Rotate)
    ensures CanOpen(Next(s, Rotate), Current(s)) <==> s.f == Some(Current(s))
  {
    hide CanOpen, ReaderStep, Log;
    var s', j := Next(s, Rotate), Current(s);
    if s.f == Some(j) {
      OpenNow(s', j);
    } else {
      NeverOpened(s', j);
    }
  }
}
