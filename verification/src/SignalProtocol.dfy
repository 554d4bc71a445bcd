/** Startup and shutdown of `runmqserver`: the signal handler of `cmd/runmqserver/signals.go`, the
    goroutine it starts to stop the queue manager, and the main thread of `cmd/runmqserver/main.go`,
    with signals and child processes arriving at any moment. */
module SignalProtocol {

  datatype Job = StartReaping | ReapNow

  /** The main thread. */
  datatype MainPc =
    | Startup(left: nat)      // commands still to be run
    | Send(job: Job)          // blocked in a send on the control channel
    | MarkComplete
    | SetReady
    | AwaitControl            // <-signalControl
    | Unwinding(marked: bool) // the deferred calls; `marked` is startupMarkedComplete
    | Exited

  /** Where the handler goes on after it has served a job or reaped. */
  datatype Return = ToOuter | ToInner | ToClose

  /** The handler goroutine. */
  datatype HandlerPc =
    | Outer                             // the outer select
    | StopTaken                         // a stop signal has been received
    | Inner                             // the inner select
    | StopMetrics
    | SpawnStopper
    | Serving(job: Job, back: Return)   // a job has been received
    | Reaping(back: Return)             // in reapZombies
    | FinalStop                         // shutdown seen: stop listening for SIGCHLD
    | CloseControl
    | Ended

  datatype StopperPc = NotStarted | Running | Finished

  /** What can be seen from outside, in order. */
  datatype Event =
    | StartupCommand
    | JobSent(job: Job)
    | StartupMarked
    | ReadySet
    | StopSignal
    | MetricsStopped
    | StopStarted
    | StopFinished
    | Wait4(reaped: bool)
    | ControlClosed

  /** `stopNotified` and `reapNotified`: whether the signals are being delivered; `stopPending` and
      `reapPending`: the one-place buffers of the signal channels; `startupDone` and `shutdownDone`:
      the two contexts; `running` and `zombies`: the child processes. */
  datatype State = State(
    main: MainPc, handler: HandlerPc, stopper: StopperPc,
    stopTriggered: bool, stopNotified: bool, stopPending: bool, reapNotified: bool, reapPending: bool,
    startupDone: bool, shutdownDone: bool, controlClosed: bool,
    running: nat, zombies: nat)

  /** Steps of the three threads, and of the world. A flag says whether main goes on or returns. */
  datatype Action =
    | Main(goesOn: bool)
    | Receive          // main's send meets a receive of the handler
    | TakeStop
    | TakeReap
    | SeeShutdown
    | Handler          // the handler's next step where it has no choice
    | Stopper
    | ArriveStop       // SIGTERM or SIGINT
    | ArriveReap       // SIGCHLD
    | ChildExits       // with its SIGCHLD
    | ChildAppears

  predicate IsThreadStep(a: Action) {
    a.Main? || a.Receive? || a.TakeStop? || a.TakeReap? || a.SeeShutdown? || a.Handler? || a.Stopper?
  }

  predicate Initial(s: State) {
    && s.main.Startup? && s.handler == Outer && s.stopper == NotStarted
    && !s.stopTriggered && s.stopNotified && !s.stopPending && !s.reapNotified && !s.reapPending
    && !s.startupDone && !s.shutdownDone && !s.controlClosed
  }

  /** What a thread can do depends on the others; nothing runs once main has returned. */
  predicate Enabled(s: State, a: Action) {
    s.main != Exited &&
    match a
    case Main(goesOn) =>
      (match s.main
       case Startup(_) => true
       case Send(_) => false
       case MarkComplete => true
       case SetReady => true
       case AwaitControl => s.controlClosed
       case Unwinding(_) => true
       case Exited => false)
    case Receive => s.main.Send? && (s.handler.Outer? || s.handler.Inner?)
    case TakeStop => s.handler.Outer? && s.stopPending
    case TakeReap => s.handler.Outer? && s.reapPending
    case SeeShutdown => s.handler.Outer? && s.shutdownDone
    case Handler =>
      (match s.handler
       case Outer => false
       case StopTaken => true
       case Inner => s.startupDone
       case StopMetrics => true
       case SpawnStopper => true
       case Serving(_, _) => true
       case Reaping(_) => true
       case FinalStop => true
       case CloseControl => true
       case Ended => false)
    case Stopper => s.stopper.Running?
    case ArriveStop => true
    case ArriveReap => true
    case ChildExits => s.running > 0
    case ChildAppears => true
  }

  function MainNext(m: MainPc, goesOn: bool): (next: MainPc) {
    match m
    case Startup(left) =>
      if !goesOn then Unwinding(false) else if left > 0 then Startup(left - 1) else Send(StartReaping)
    case Send(job) => Send(job)
    case MarkComplete => SetReady
    case SetReady => if goesOn then AwaitControl else Unwinding(true)
    case AwaitControl => Unwinding(true)
    case Unwinding(_) => Exited
    case Exited => Exited
  }

  /** The startup context is cancelled at the end of startup, or by the deferred call. */
  function MainStep(s: State, goesOn: bool): (s': State) {
    s.(main := MainNext(s.main, goesOn),
       startupDone := s.startupDone || s.main.MarkComplete? || s.main == Unwinding(false))
  }

  function Resume(back: Return): (next: HandlerPc) {
    match back
    case ToOuter => Outer
    case ToInner => Inner
    case ToClose => CloseControl
  }

  function HandlerNext(s: State): (next: HandlerPc) {
    match s.handler
    case Outer => Outer
    case StopTaken => Inner
    case Inner => StopMetrics
    case StopMetrics => SpawnStopper
    case SpawnStopper => Outer
    case Serving(job, back) => if job == StartReaping then Resume(back) else Reaping(back)
    case Reaping(back) => if s.zombies > 0 then Reaping(back) else Resume(back)
    case FinalStop => Reaping(ToClose)
    case CloseControl => Ended
    case Ended => Ended
  }

  /** With each place the handler leaves goes its effect: signal.Stop and signal.Notify, one call of
      wait4, starting the stopper, closing the channel. */
  function HandlerStep(s: State): (s': State) {
    var h := s.handler;
    s.(handler := HandlerNext(s),
       stopNotified := s.stopNotified && h != StopTaken,
       stopTriggered := s.stopTriggered || h == StopTaken,
       stopper := if h.SpawnStopper? then Running else s.stopper,
       reapNotified := (s.reapNotified || (h.Serving? && h.job == StartReaping)) && h != FinalStop,
       zombies := if h.Reaping? && s.zombies > 0 then s.zombies - 1 else s.zombies,
       controlClosed := s.controlClosed || h.CloseControl?)
  }

  function Next(s: State, a: Action): (s': State)
    requires Enabled(s, a)
  {
    match a
    case Main(goesOn) => MainStep(s, goesOn)
    case Receive =>
      s.(main := if s.main.job == StartReaping then Send(ReapNow) else MarkComplete,
         handler := Serving(s.main.job, if s.handler.Outer? then ToOuter else ToInner))
    case TakeStop => s.(stopPending := false, handler := if s.stopTriggered then Outer else StopTaken)
    case TakeReap => s.(reapPending := false, handler := Reaping(ToOuter))
    case SeeShutdown => s.(handler := FinalStop)
    case Handler => HandlerStep(s)
    case Stopper => s.(stopper := Finished, shutdownDone := true)
    case ArriveStop => if s.stopNotified then s.(stopPending := true) else s
    case ArriveReap => if s.reapNotified then s.(reapPending := true) else s
    case ChildExits =>
      s.(running := s.running - 1, zombies := s.zombies + 1, reapPending := s.reapPending || s.reapNotified)
    case ChildAppears => s.(running := s.running + 1)
  }

  ghost predicate IsRun(s: State, acts: seq<Action>)
    decreases |acts|
  {
    acts == [] || (Enabled(s, acts[0]) && IsRun(Next(s, acts[0]), acts[1..]))
  }

  ghost function After(s: State, acts: seq<Action>): (s': State)
    requires IsRun(s, acts)
    decreases |acts|
  {
    if acts == [] then s else After(Next(s, acts[0]), acts[1..])
  }

  /** The event that a step shows, if any. */
  function EventOf(s: State, a: Action): (r: seq<Event>) {
    match a
    case Main(goesOn) =>
      if s.main.Startup? && goesOn && s.main.left > 0 then [StartupCommand]
      else if s.main.MarkComplete? || s.main == Unwinding(false) then [StartupMarked]
      else if s.main.SetReady? then [ReadySet]
      else []
    case Receive => if s.main.Send? then [JobSent(s.main.job)] else []
    case TakeStop => if s.stopTriggered then [] else [StopSignal]
    case Handler =>
      if s.handler.StopMetrics? then [MetricsStopped]
      else if s.handler.SpawnStopper? then [StopStarted]
      else if s.handler.Reaping? then [Wait4(s.zombies > 0)]
      else if s.handler.CloseControl? then [ControlClosed]
      else []
    case Stopper => [StopFinished]
    case _ => []
  }

  /** Everything a run shows, in order. */
  ghost function Log(s: State, acts: seq<Action>): (r: seq<Event>)
    requires IsRun(s, acts)
    decreases |acts|
  {
    if acts == [] then [] else EventOf(s, acts[0]) + Log(Next(s, acts[0]), acts[1..])
  }

  // ---------------------------------------------------------------- safety

  ghost predicate Waited(log: seq<Event>) {
    exists e | e in log :: e.Wait4?
  }

  /** A reap that found nothing left, after the queue manager had been stopped. */
  ghost predicate ReapedAfterStop(log: seq<Event>) {
    exists i, j | 0 <= i < j < |log| :: log[i] == StopFinished && log[j] == Wait4(false)
  }

  /** When an event may follow the events `before`. */
  ghost predicate Justified(before: seq<Event>, e: Event) {
    match e
    case StartupCommand => !Waited(before)
    case JobSent(StartReaping) => JobSent(StartReaping) !in before && ControlClosed !in before
    case JobSent(ReapNow) =>
      JobSent(StartReaping) in before && JobSent(ReapNow) !in before && ControlClosed !in before
    case StartupMarked => StartupMarked !in before
    case ReadySet => ReadySet !in before && JobSent(ReapNow) in before && StartupMarked in before
    case StopSignal => StopSignal !in before
    case MetricsStopped => MetricsStopped !in before && StopSignal in before && StartupMarked in before
    case StopStarted => StopStarted !in before && MetricsStopped in before
    case StopFinished => StopStarted in before && StopFinished !in before
    case Wait4(_) => ControlClosed !in before && (JobSent(StartReaping) in before || StartupMarked in before)
    case ControlClosed => ControlClosed !in before && StartupMarked in before && ReapedAfterStop(before)
  }

  ghost predicate Safe(log: seq<Event>) {
    forall i | 0 <= i < |log| :: Justified(log[..i], log[i])
  }

  predicate ReturnIs(h: HandlerPc, r: Return) {
    (h.Serving? || h.Reaping?) && h.back == r
  }

  /** What the flags of the threads say about each other. */
  ghost predicate Phases(s: State) {
    var inner := s.handler.Inner? || ReturnIs(s.handler, ToInner);
    var outer := s.handler.Outer? || ReturnIs(s.handler, ToOuter);
    var closing := s.handler.FinalStop? || ReturnIs(s.handler, ToClose) || s.handler.CloseControl? || s.handler.Ended?;
    && (s.handler.Serving? ==> s.handler.back != ToClose)
    && (s.stopNotified <==> !s.stopTriggered)
    && (s.handler.StopTaken? ==> !s.stopTriggered)
    && (inner || s.handler.StopMetrics? || s.handler.SpawnStopper? || closing ==> s.stopTriggered)
    && (s.handler.StopMetrics? || s.handler.SpawnStopper? ==> s.startupDone)
    && (s.stopper.NotStarted? <==> !(s.stopTriggered && (outer || closing)))
    && (s.stopper != NotStarted ==> s.startupDone)
    && (closing ==> s.stopper.Finished?)
    && (s.shutdownDone <==> s.stopper.Finished?)
    && (s.controlClosed <==> s.handler.Ended?)
    && (s.startupDone <==> s.main.SetReady? || s.main.AwaitControl? || s.main == Unwinding(true) || s.main.Exited?)
  }

  /** What a log shows, and what one more event adds to that. */
  datatype Seen = Seen(
    started: bool, sent: bool, marked: bool, ready: bool, signalled: bool, metrics: bool, stopping: bool,
    stopped: bool, waited: bool, reaped: bool, closed: bool)

  ghost predicate Shows(log: seq<Event>, e: Event) {
    e in log
  }

  ghost function SeenIn(log: seq<Event>): (seen: Seen) {
    Seen(Shows(log, JobSent(StartReaping)), Shows(log, JobSent(ReapNow)), Shows(log, StartupMarked),
         Shows(log, ReadySet), Shows(log, StopSignal), Shows(log, MetricsStopped), Shows(log, StopStarted),
         Shows(log, StopFinished), Waited(log), ReapedAfterStop(log), Shows(log, ControlClosed))
  }

  function SeenMore(n: Seen, e: Event): (seen: Seen) {
    Seen(n.started || e == JobSent(StartReaping), n.sent || e == JobSent(ReapNow), n.marked || e == StartupMarked,
         n.ready || e == ReadySet, n.signalled || e == StopSignal, n.metrics || e == MetricsStopped,
         n.stopping || e == StopStarted, n.stopped || e == StopFinished,
         n.waited || e.Wait4?, n.reaped || (n.stopped && e == Wait4(false)),
         n.closed || e == ControlClosed)
  }

  /** What the log says about the state. */
  ghost predicate RecordedAs(s: State, n: Seen) {
    && (n.marked <==> s.startupDone)
    && (n.signalled <==> s.stopTriggered || s.handler.StopTaken?)
    && (n.metrics <==> s.handler.SpawnStopper? || s.stopper != NotStarted)
    && (n.stopping <==> s.stopper != NotStarted)
    && (n.stopped <==> s.stopper.Finished?)
    && (n.closed <==> s.controlClosed)
    && (s.main.Startup? || s.main == Send(StartReaping) ==> !n.started && !n.sent)
    && (s.main == Send(ReapNow) ==> n.started && !n.sent)
    && (s.main.MarkComplete? || s.main.SetReady? ==> n.sent)
    && (n.ready ==> s.main.AwaitControl? || s.main == Unwinding(true) || s.main.Exited?)
    && (s.reapNotified || s.reapPending || s.handler.Serving? || s.handler.Reaping? || n.waited ==>
          n.started || s.startupDone)
    && (s.main.Startup? ==> !n.waited)
    && (s.handler.CloseControl? ==> n.reaped)
  }

  /** What holds after any run that has shown `log`. */
  ghost predicate Inv(s: State, log: seq<Event>) {
    Phases(s) && RecordedAs(s, SeenIn(log)) && Safe(log)
  }

  lemma InitialInv(s: State)
    requires Initial(s)
    ensures Inv(s, [])
  {
  }

  lemma PhasesMain(s: State, goesOn: bool)
    requires Phases(s) && Enabled(s, Main(goesOn))
    ensures Phases(MainStep(s, goesOn))
  {
  }

  lemma PhasesReturn(s: State)
    requires Phases(s) && (s.handler.Serving? || s.handler.Reaping?)
    ensures Phases(HandlerStep(s))
  {
  }

  lemma PhasesAdvance(s: State)
    requires Phases(s) && Enabled(s, Handler) && !s.handler.Serving? && !s.handler.Reaping?
    ensures Phases(HandlerStep(s))
  {
  }

  lemma PhasesStep(s: State, a: Action)
    requires Phases(s) && Enabled(s, a)
    ensures Phases(Next(s, a))
  {
    hide MainStep, HandlerStep;
    if a.Main? {
      PhasesMain(s, a.goesOn);
    } else if a.Handler? {
      if s.handler.Serving? || s.handler.Reaping? {
        PhasesReturn(s);
      } else {
        PhasesAdvance(s);
      }
    }
  }

  lemma SafeMore(log: seq<Event>, e: Event)
    requires Safe(log) && Justified(log, e)
    ensures Safe(log + [e])
  {
    var log' := log + [e];
    forall i | 0 <= i < |log'|
      ensures Justified(log'[..i], log'[i])
    {
      if i < |log| {
        assert log'[..i] == log[..i];
      } else {
        assert log'[..i] == log;
      }
    }
  }

  lemma ShowsMore(log: seq<Event>, e: Event, x: Event)
    ensures Shows(log + [e], x) <==> Shows(log, x) || x == e
  {
  }

  lemma WaitedMore(log: seq<Event>, e: Event)
    ensures Waited(log + [e]) <==> Waited(log) || e.Wait4?
  {
    var log' := log + [e];
    assert e in log';
    if x :| x in log && x.Wait4? {
      assert x in log';
    }
    if x :| x in log' && x.Wait4? {
      assert x in log || x == e;
    }
  }

  lemma SeenStep(log: seq<Event>, e: Event)
    ensures SeenIn(log + [e]) == SeenMore(SeenIn(log), e)
  {
    ReapedMore(log, e);
    assert StopFinished in log <==> Shows(log, StopFinished);
    hide Waited, ReapedAfterStop, Shows;
    ShowsMore(log, e, JobSent(StartReaping));
    ShowsMore(log, e, JobSent(ReapNow));
    ShowsMore(log, e, StartupMarked);
    ShowsMore(log, e, ReadySet);
    ShowsMore(log, e, StopSignal);
    ShowsMore(log, e, MetricsStopped);
    ShowsMore(log, e, StopStarted);
    ShowsMore(log, e, StopFinished);
    ShowsMore(log, e, ControlClosed);
    WaitedMore(log, e);
  }

  lemma ReapedMore(log: seq<Event>, e: Event)
    ensures ReapedAfterStop(log + [e]) <==> ReapedAfterStop(log) || (StopFinished in log && e == Wait4(false))
  {
    var log' := log + [e];
    if ReapedAfterStop(log') {
      var i, j :| 0 <= i < j < |log'| && log'[i] == StopFinished && log'[j] == Wait4(false);
      assert log[i] == StopFinished;
      if j < |log| {
        assert log[j] == Wait4(false);
      }
    }
    if ReapedAfterStop(log) {
      var i, j :| 0 <= i < j < |log| && log[i] == StopFinished && log[j] == Wait4(false);
      assert log'[i] == StopFinished && log'[j] == Wait4(false);
    }
    if StopFinished in log && e == Wait4(false) {
      var i :| 0 <= i < |log| && log[i] == StopFinished;
      assert log'[i] == StopFinished && log'[|log|] == Wait4(false);
    }
  }

  function SeenAfter(s: State, a: Action, n: Seen): (seen: Seen) {
    if EventOf(s, a) == [] then n else SeenMore(n, EventOf(s, a)[0])
  }

  lemma EventIsJustified(s: State, a: Action, log: seq<Event>)
    requires Phases(s) && RecordedAs(s, SeenIn(log)) && Enabled(s, a) && EventOf(s, a) != []
    ensures Justified(log, EventOf(s, a)[0])
  {
    hide Waited, ReapedAfterStop;
  }

  lemma RecordedMain(s: State, goesOn: bool, n: Seen)
    requires Phases(s) && RecordedAs(s, n) && Enabled(s, Main(goesOn))
    ensures RecordedAs(MainStep(s, goesOn), SeenAfter(s, Main(goesOn), n))
  {
  }

  lemma RecordedReturn(s: State, n: Seen)
    requires Phases(s) && RecordedAs(s, n) && (s.handler.Serving? || s.handler.Reaping?)
    ensures RecordedAs(HandlerStep(s), SeenAfter(s, Handler, n))
  {
  }

  lemma RecordedAdvance(s: State, n: Seen)
    requires Phases(s) && RecordedAs(s, n) && Enabled(s, Handler) && !s.handler.Serving? && !s.handler.Reaping?
    ensures RecordedAs(HandlerStep(s), SeenAfter(s, Handler, n))
  {
  }

  lemma RecordedReceive(s: State, n: Seen)
    requires Phases(s) && RecordedAs(s, n) && Enabled(s, Receive)
    ensures RecordedAs(Next(s, Receive), SeenAfter(s, Receive, n))
  {
  }

  lemma RecordedTake(s: State, a: Action, n: Seen)
    requires Phases(s) && RecordedAs(s, n) && Enabled(s, a) && (a.TakeStop? || a.TakeReap? || a.SeeShutdown?)
    ensures RecordedAs(Next(s, a), SeenAfter(s, a, n))
  {
  }

  lemma RecordedStopper(s: State, n: Seen)
    requires Phases(s) && RecordedAs(s, n) && Enabled(s, Stopper)
    ensures RecordedAs(Next(s, Stopper), SeenAfter(s, Stopper, n))
  {
  }

  lemma RecordedWorld(s: State, a: Action, n: Seen)
    requires Phases(s) && RecordedAs(s, n) && Enabled(s, a) && !IsThreadStep(a)
    ensures RecordedAs(Next(s, a), SeenAfter(s, a, n))
  {
  }

  lemma RecordedRest(s: State, a: Action, n: Seen)
    requires Phases(s) && RecordedAs(s, n) && Enabled(s, a) && !a.Main? && !a.Handler?
    ensures RecordedAs(Next(s, a), SeenAfter(s, a, n))
  {
    hide Phases, RecordedAs, Next, SeenAfter, Enabled;
    if a.Receive? {
      RecordedReceive(s, n);
    } else if a.TakeStop? || a.TakeReap? || a.SeeShutdown? {
      RecordedTake(s, a, n);
    } else if a.Stopper? {
      RecordedStopper(s, n);
    } else {
      RecordedWorld(s, a, n);
    }
  }

  lemma AtMostOneEvent(s: State, a: Action)
    ensures EventOf(s, a) == [] || EventOf(s, a) == [EventOf(s, a)[0]]
  {
  }

  lemma StepKeepsInv(s: State, a: Action, log: seq<Event>)
    requires Inv(s, log) && Enabled(s, a)
    ensures Inv(Next(s, a), log + EventOf(s, a))
  {
    hide Phases, RecordedAs, Safe, Justified, MainStep, HandlerStep, EventOf, SeenIn, SeenMore;
    var n := SeenIn(log);
    PhasesStep(s, a);
    AtMostOneEvent(s, a);
    if a.Main? {
      RecordedMain(s, a.goesOn, n);
    } else if a.Handler? {
      if s.handler.Serving? || s.handler.Reaping? {
        RecordedReturn(s, n);
      } else {
        RecordedAdvance(s, n);
      }
    } else {
      RecordedRest(s, a, n);
    }
    if EventOf(s, a) != [] {
      EventIsJustified(s, a, log);
      SafeMore(log, EventOf(s, a)[0]);
      SeenStep(log, EventOf(s, a)[0]);
    } else {
      assert log + [] == log;
    }
  }

  lemma {:induction false} RunKeepsInv(s: State, acts: seq<Action>, log: seq<Event>)
    requires Inv(s, log) && IsRun(s, acts)
    ensures Inv(After(s, acts), log + Log(s, acts))
    decreases |acts|
  {
    hide Inv, Enabled, Next, EventOf;
    if acts == [] {
      assert log + [] == log;
    } else {
      var e := EventOf(s, acts[0]);
      StepKeepsInv(s, acts[0], log);
      RunKeepsInv(Next(s, acts[0]), acts[1..], log + e);
      assert (log + e) + Log(Next(s, acts[0]), acts[1..]) == log + Log(s, acts);
    }
  }

  /** In every run, everything that happens is justified by what happened before: no child is reaped
      while startup commands may still be run; the queue manager is stopped at most once, only after a
      stop signal, after startup, and after the metrics have been stopped; the two jobs are sent once
      each and in order, and both before the server is marked ready; and the control channel is closed
      at most once, after startup, the stop and a final reap, and never sent on again. */
  lemma EveryRunIsSafe(s: State, acts: seq<Action>)
    requires Initial(s) && IsRun(s, acts)
    ensures Safe(Log(s, acts))
  {
    InitialInv(s);
    RunKeepsInv(s, acts, []);
    assert [] + Log(s, acts) == Log(s, acts);
  }

  // ---------------------------------------------------------------- no zombie is forgotten

  predicate Closing(h: HandlerPc) {
    h.FinalStop? || ReturnIs(h, ToClose) || h.CloseControl? || h.Ended?
  }

  /** A reap is under way, or comes next. */
  predicate WillReap(h: HandlerPc) {
    h.Reaping? || (h.Serving? && h.job == ReapNow)
  }

  /** Child signals are being delivered once the first job has been served, and from the second job on
      there is a signal, or a reap to come, for every zombie. */
  ghost predicate Tended(s: State, started: bool, sent: bool) {
    && (sent ==> started)
    && (s.main.Startup? || s.main == Send(StartReaping) ==> !started)
    && (s.main == Send(ReapNow) ==> started && !sent)
    && (s.handler.Serving? && s.handler.job == StartReaping ==> started && !sent)
    && (started && !(s.handler.Serving? && s.handler.job == StartReaping) && !Closing(s.handler) ==> s.reapNotified)
    && (sent && !Closing(s.handler) && !WillReap(s.handler) ==> s.zombies == 0 || s.reapPending)
  }

  lemma TendedHandler(s: State, started: bool, sent: bool)
    requires Phases(s) && Tended(s, started, sent) && Enabled(s, Handler)
    ensures Tended(HandlerStep(s), started, sent)
  {
  }

  lemma TendedReceive(s: State, started: bool, sent: bool)
    requires Phases(s) && Tended(s, started, sent) && Enabled(s, Receive)
    ensures Tended(Next(s, Receive), true, sent || s.main.job == ReapNow)
  {
  }

  lemma TendedRest(s: State, a: Action, started: bool, sent: bool)
    requires Phases(s) && Tended(s, started, sent) && Enabled(s, a) && !a.Handler? && !a.Receive? && !a.Main?
    ensures Tended(Next(s, a), started, sent)
  {
  }

  lemma TendedMain(s: State, goesOn: bool, started: bool, sent: bool)
    requires Phases(s) && Tended(s, started, sent) && Enabled(s, Main(goesOn))
    ensures Tended(MainStep(s, goesOn), started, sent)
  {
  }

  lemma TendedStep(s: State, a: Action, log: seq<Event>)
    requires Phases(s) && Enabled(s, a)
    requires Tended(s, JobSent(StartReaping) in log, JobSent(ReapNow) in log)
    ensures var log' := log + EventOf(s, a);
            Tended(Next(s, a), JobSent(StartReaping) in log', JobSent(ReapNow) in log')
  {
    var started, sent := JobSent(StartReaping) in log, JobSent(ReapNow) in log;
    AtMostOneEvent(s, a);
    if a.Receive? {
      TendedReceive(s, started, sent);
    } else {
      NoJobSent(s, a);
      hide Tended, Phases, EventOf, Enabled, HandlerStep, MainStep;
      if a.Handler? {
        TendedHandler(s, started, sent);
      } else if a.Main? {
        TendedMain(s, a.goesOn, started, sent);
      } else {
        TendedRest(s, a, started, sent);
      }
    }
  }

  lemma NoJobSent(s: State, a: Action)
    requires !a.Receive?
    ensures forall job :: JobSent(job) !in EventOf(s, a)
  {
  }

  lemma {:induction false} RunTended(s: State, acts: seq<Action>, log: seq<Event>)
    requires Phases(s) && IsRun(s, acts)
    requires Tended(s, JobSent(StartReaping) in log, JobSent(ReapNow) in log)
    ensures var log', e := log + Log(s, acts), After(s, acts);
            Tended(e, JobSent(StartReaping) in log', JobSent(ReapNow) in log')
    decreases |acts|
  {
    hide Tended, Phases, EventOf, Enabled, Next;
    if acts == [] {
      assert log + [] == log;
    } else {
      var e := EventOf(s, acts[0]);
      TendedStep(s, acts[0], log);
      PhasesStep(s, acts[0]);
      RunTended(Next(s, acts[0]), acts[1..], log + e);
      assert (log + e) + Log(Next(s, acts[0]), acts[1..]) == log + Log(s, acts);
    }
  }

  /** No zombie is forgotten: once the second job has been sent, whenever the handler waits with no
      child signal pending, there is no zombie. */
  lemma NoZombieIsForgotten(s: State, acts: seq<Action>)
    requires Initial(s) && IsRun(s, acts) && JobSent(ReapNow) in Log(s, acts)
    ensures var e := After(s, acts); e.handler.Outer? && !e.reapPending ==> e.zombies == 0
  {
    InitialInv(s);
    RunTended(s, acts, []);
    assert [] + Log(s, acts) == Log(s, acts);
  }

  /** A reap goes on until no zombie is left. */
  lemma {:induction false} ReapIsFinished(s: State, acts: seq<Action>)
    requires WillReap(s.handler) && IsRun(s, acts) && !WillReap(After(s, acts).handler)
    ensures Wait4(false) in Log(s, acts)
    decreases |acts|
  {
    var a := acts[0];
    if WillReap(Next(s, a).handler) {
      hide Next, Enabled, EventOf;
      ReapIsFinished(Next(s, a), acts[1..]);
    } else {
      ReapEnds(s, a);
      hide Next, Enabled, EventOf;
      assert EventOf(s, a)[0] == Wait4(false);
    }
  }

  lemma OthersKeepReap(s: State, a: Action)
    requires WillReap(s.handler) && Enabled(s, a) && !a.Handler?
    ensures WillReap(Next(s, a).handler)
  {
    if a.Main? {
      MainKeepsHandler(s, a.goesOn);
    }
    hide MainStep;
  }

  lemma MainKeepsHandler(s: State, goesOn: bool)
    ensures MainStep(s, goesOn).handler == s.handler
  {
  }

  lemma HandlerEndsReap(s: State)
    requires WillReap(s.handler) && !WillReap(HandlerStep(s).handler)
    ensures EventOf(s, Handler) == [Wait4(false)]
  {
  }

  lemma ReapEnds(s: State, a: Action)
    requires WillReap(s.handler) && Enabled(s, a) && !WillReap(Next(s, a).handler)
    ensures EventOf(s, a) == [Wait4(false)]
  {
    hide WillReap, EventOf, HandlerStep, MainStep, Enabled;
    if a.Handler? {
      HandlerEndsReap(s);
    } else {
      OthersKeepReap(s, a);
      assert false;
    }
  }

  /** A child signal is followed by a reap: before the handler waits again it has found no child left. */
  lemma ChildSignalReaps(s: State, acts: seq<Action>)
    requires Enabled(s, TakeReap) && IsRun(Next(s, TakeReap), acts)
    requires After(Next(s, TakeReap), acts).handler.Outer?
    ensures Wait4(false) in Log(Next(s, TakeReap), acts)
  {
    ReapIsFinished(Next(s, TakeReap), acts);
  }

  /** So is the second job, whether a stop signal has been taken or not. */
  lemma ReapNowReaps(s: State, acts: seq<Action>)
    requires s.main == Send(ReapNow) && Enabled(s, Receive) && IsRun(Next(s, Receive), acts)
    requires After(Next(s, Receive), acts).handler.Outer? || After(Next(s, Receive), acts).handler.Inner?
    ensures Wait4(false) in Log(Next(s, Receive), acts)
  {
    ReapIsFinished(Next(s, Receive), acts);
  }

  // ---------------------------------------------------------------- progress

  function MainRank(m: MainPc): (n: nat) {
    match m
    case Startup(left) => left + 7
    case Send(StartReaping) => 6
    case Send(ReapNow) => 5
    case MarkComplete => 4
    case SetReady => 3
    case AwaitControl => 2
    case Unwinding(_) => 1
    case Exited => 0
  }

  function ReturnRank(back: Return, stopTriggered: bool): (n: nat) {
    match back
    case ToOuter => if stopTriggered then 4 else 10
    case ToInner => 8
    case ToClose => 1
  }

  function HandlerRank(h: HandlerPc, stopTriggered: bool): (n: nat) {
    match h
    case Outer => ReturnRank(ToOuter, stopTriggered)
    case StopTaken => 9
    case Inner => 8
    case StopMetrics => 7
    case SpawnStopper => 6
    case Serving(job, back) => ReturnRank(back, stopTriggered) + if job == ReapNow then 2 else 1
    case Reaping(back) => ReturnRank(back, stopTriggered) + 1
    case FinalStop => 3
    case CloseControl => 1
    case Ended => 0
  }

  /** An upper bound on the steps the three threads can still make with what has arrived so far. A
      child counts for its own reaping and for the SIGCHLD it brings; a stop signal counts for
      nothing, as its one place in the buffer is paid for in advance. */
  function Rank(s: State): (n: nat) {
    4 * MainRank(s.main) + HandlerRank(s.handler, s.stopTriggered)
    + (if s.stopper.Running? then 1 else 0)
    + (if s.stopNotified || s.stopPending then 1 else 0)
    + 4 * s.running + s.zombies + (if s.reapPending then 2 else 0)
  }

  /** What an action adds to the bound: nothing for a stop signal. */
  function Cost(a: Action): (n: nat) {
    match a
    case ArriveReap => 2
    case ChildAppears => 4
    case _ => 0
  }

  lemma MainLowersRank(s: State, goesOn: bool)
    requires Enabled(s, Main(goesOn))
    ensures Rank(MainStep(s, goesOn)) < Rank(s)
  {
  }

  lemma HandlerLowersRank(s: State)
    requires Phases(s) && Enabled(s, Handler)
    ensures Rank(HandlerStep(s)) < Rank(s)
  {
  }

  lemma WorldRank(s: State, a: Action)
    requires Phases(s) && Enabled(s, a) && !IsThreadStep(a)
    ensures Rank(Next(s, a)) <= Rank(s) + Cost(a)
  {
  }

  lemma OthersLowerRank(s: State, a: Action)
    requires Phases(s) && Enabled(s, a) && IsThreadStep(a) && !a.Main? && !a.Handler?
    ensures Rank(Next(s, a)) < Rank(s)
  {
  }

  lemma StepRank(s: State, a: Action)
    requires Phases(s) && Enabled(s, a)
    ensures (if IsThreadStep(a) then 1 else 0) + Rank(Next(s, a)) <= Rank(s) + Cost(a)
  {
    hide MainStep, HandlerStep, Rank, Enabled;
    if !IsThreadStep(a) {
      WorldRank(s, a);
    } else if a.Main? {
      MainLowersRank(s, a.goesOn);
    } else if a.Handler? {
      HandlerLowersRank(s);
    } else {
      OthersLowerRank(s, a);
    }
  }

  function ThreadSteps(acts: seq<Action>): (n: nat) {
    if acts == [] then 0 else (if IsThreadStep(acts[0]) then 1 else 0) + ThreadSteps(acts[1..])
  }

  function Arrivals(acts: seq<Action>): (n: nat) {
    if acts == [] then 0 else Cost(acts[0]) + Arrivals(acts[1..])
  }

  lemma {:induction false} RunRank(s: State, acts: seq<Action>)
    requires Phases(s) && IsRun(s, acts)
    ensures ThreadSteps(acts) + Rank(After(s, acts)) <= Rank(s) + Arrivals(acts)
    ensures Phases(After(s, acts))
    decreases |acts|
  {
    hide Phases, Enabled, Next, Rank;
    if acts != [] {
      StepRank(s, acts[0]);
      PhasesStep(s, acts[0]);
      RunRank(Next(s, acts[0]), acts[1..]);
    }
  }

  /** The threads cannot go on for ever: in any run they make at most `Rank` steps, plus what new
      children and child signals bring. Further stop signals bring nothing. */
  lemma StepsAreBounded(s: State, acts: seq<Action>)
    requires Initial(s) && IsRun(s, acts)
    ensures ThreadSteps(acts) <= Rank(s) + Arrivals(acts)
  {
    RunRank(s, acts);
  }

  /** How far the protocol is from its end, reaping aside. */
  function Stage(s: State): (n: nat) {
    MainRank(s.main) + (if s.stopper.Running? then 1 else 0)
    + if s.handler.Serving? || s.handler.Reaping? then ReturnRank(s.handler.back, s.stopTriggered)
      else HandlerRank(s.handler, s.stopTriggered)
  }

  /** How long a reap that is under way, or about to be, still takes if no more children exit. */
  function Detour(s: State): (n: nat) {
    if s.handler.Serving? then s.zombies + 2 else if s.handler.Reaping? then s.zombies + 1 else 0
  }

  ghost predicate Closer(s': State, s: State) {
    Stage(s') < Stage(s) || (Stage(s') == Stage(s) && Detour(s') < Detour(s))
  }

  lemma WorldKeepsStage(s: State, a: Action)
    requires Phases(s) && Enabled(s, a) && !IsThreadStep(a)
    ensures Stage(Next(s, a)) == Stage(s)
  {
  }

  lemma MainLowersStage(s: State, goesOn: bool)
    requires Phases(s) && Enabled(s, Main(goesOn))
    ensures Stage(MainStep(s, goesOn)) < Stage(s)
  {
  }

  lemma OtherKeepsStage(s: State, a: Action)
    requires Phases(s) && Enabled(s, a) && IsThreadStep(a) && !a.Main? && !a.Handler?
    ensures Stage(Next(s, a)) <= Stage(s)
  {
  }

  /** No signal of either kind, no child and no step of a thread takes the protocol back. */
  lemma StageNeverRises(s: State, a: Action)
    requires Phases(s) && Enabled(s, a)
    ensures Stage(Next(s, a)) <= Stage(s)
    ensures !IsThreadStep(a) ==> Stage(Next(s, a)) == Stage(s)
  {
    hide HandlerStep, MainStep, Enabled, Stage;
    if !IsThreadStep(a) {
      WorldKeepsStage(s, a);
    } else if a.Handler? {
      HandlerAdvances(s);
    } else if a.Main? {
      MainLowersStage(s, a.goesOn);
    } else {
      OtherKeepsStage(s, a);
    }
  }

  lemma HandlerAdvances(s: State)
    requires Phases(s) && Enabled(s, Handler)
    ensures Closer(HandlerStep(s), s)
  {
  }

  /** A stop signal has been taken, or is there to be taken. */
  predicate StopArrived(s: State) {
    s.stopPending || s.stopTriggered || s.handler.StopTaken?
  }

  /** A step for a state that is not at its end. */
  function WayOn(e: State): (r: Action) {
    if e.stopper.Running? then Stopper
    else if Enabled(e, Handler) then Handler
    else if e.main.Send? then Receive
    else if !e.main.AwaitControl? || e.controlClosed then Main(true)
    else if e.shutdownDone then SeeShutdown
    else TakeStop
  }

  lemma WayOnIsOpen(e: State)
    requires Phases(e) && StopArrived(e) && e.main != Exited
    ensures IsThreadStep(WayOn(e)) && Enabled(e, WayOn(e))
    ensures WayOn(e).TakeStop? ==> !e.stopTriggered
  {
  }

  /** Once a stop signal has arrived, at any point of startup, some thread can make a step that takes
      the protocol closer to its end, until the main thread has returned: it never gets stuck. */
  lemma NeverStuck(s: State, acts: seq<Action>)
    requires Initial(s) && IsRun(s, acts)
    requires StopArrived(After(s, acts)) && After(s, acts).main != Exited
    ensures var e := After(s, acts);
            exists a :: IsThreadStep(a) && Enabled(e, a) && Closer(Next(e, a), e)
  {
    RunRank(s, acts);
    var e := After(s, acts);
    var a := WayOn(e);
    WayOnIsOpen(e);
    WayOnLeadsOn(e);
    assert IsThreadStep(a) && Enabled(e, a) && Closer(Next(e, a), e);
  }

  lemma WayOnLeadsOn(e: State)
    requires Phases(e) && StopArrived(e) && e.main != Exited
    requires IsThreadStep(WayOn(e)) && Enabled(e, WayOn(e)) && (WayOn(e).TakeStop? ==> !e.stopTriggered)
    ensures Closer(Next(e, WayOn(e)), e)
  {
    hide HandlerStep;
    if WayOn(e).Handler? {
      HandlerAdvances(e);
    }
  }

  lemma StopStaysArrived(s: State, a: Action)
    requires Phases(s) && Enabled(s, a) && (StopArrived(s) || a.ArriveStop?)
    ensures StopArrived(Next(s, a))
  {
    hide MainStep;
    if a.Main? {
      MainKeepsStop(s, a.goesOn);
    }
  }

  lemma MainKeepsStop(s: State, goesOn: bool)
    ensures StopArrived(MainStep(s, goesOn)) <==> StopArrived(s)
  {
  }

  lemma {:induction false} StopArrivesInRun(s: State, acts: seq<Action>)
    requires Phases(s) && IsRun(s, acts) && (StopArrived(s) || ArriveStop in acts)
    ensures StopArrived(After(s, acts))
    decreases |acts|
  {
    hide Phases, Enabled, Next, StopArrived;
    if acts != [] {
      PhasesStep(s, acts[0]);
      if StopArrived(s) || acts[0] == ArriveStop {
        StopStaysArrived(s, acts[0]);
      }
      StopArrivesInRun(Next(s, acts[0]), acts[1..]);
    }
  }

  lemma {:induction false} RunFurther(s: State, acts: seq<Action>, more: seq<Action>)
    requires IsRun(s, acts) && IsRun(After(s, acts), more)
    ensures IsRun(s, acts + more) && After(s, acts + more) == After(After(s, acts), more)
    decreases |acts|
  {
    hide Enabled, Next;
    if acts == [] {
      assert acts + more == more;
    } else {
      assert (acts + more)[0] == acts[0] && (acts + more)[1..] == acts[1..] + more;
      RunFurther(Next(s, acts[0]), acts[1..], more);
    }
  }

  ghost predicate OnlyThreads(acts: seq<Action>) {
    forall i | 0 <= i < |acts| :: IsThreadStep(acts[i])
  }

  lemma {:induction false} ThreadsCount(acts: seq<Action>)
    requires OnlyThreads(acts)
    ensures ThreadSteps(acts) == |acts| && Arrivals(acts) == 0
  {
    if acts != [] {
      ThreadsCount(acts[1..]);
    }
  }

  /** No thread can make a step. */
  ghost predicate AtRest(s: State) {
    forall a | IsThreadStep(a) :: !Enabled(s, a)
  }

  /** A run with a stop signal in it, at any point of startup, comes to rest only when main has
      returned. */
  lemma RestIsExit(s: State, acts: seq<Action>)
    requires Initial(s) && IsRun(s, acts) && ArriveStop in acts && AtRest(After(s, acts))
    ensures After(s, acts).main == Exited
  {
    InitialInv(s);
    hide Enabled, Next;
    StopArrivesInRun(s, acts);
    if After(s, acts).main != Exited {
      NeverStuck(s, acts);
    }
  }

  lemma RestOfMain(e: State)
    requires Phases(e) && AtRest(e) && e.main != Exited
    ensures e.main.AwaitControl?
  {
    assert !Enabled(e, Main(true)) && !Enabled(e, Receive) && !Enabled(e, Handler) && !Enabled(e, Stopper);
    assert !Enabled(e, SeeShutdown);
  }

  /** Without a stop signal as well main gets through startup: a run comes to rest only when main waits
      for the end, having marked startup, or has returned. */
  lemma StartupCompletes(s: State, acts: seq<Action>)
    requires Initial(s) && IsRun(s, acts) && AtRest(After(s, acts))
    ensures var e := After(s, acts); (e.main.AwaitControl? && e.startupDone) || e.main == Exited
  {
    RunRank(s, acts);
    var e := After(s, acts);
    if e.main != Exited {
      RestOfMain(e);
    }
  }

  /** Shutdown ends: once a stop signal has arrived and nothing else does, the threads make at most as
      many steps as the bound allows, in whatever order, and when they can make no more, main has
      returned. */
  lemma ShutdownEnds(s: State, acts: seq<Action>, more: seq<Action>)
    requires Initial(s) && IsRun(s, acts) && ArriveStop in acts
    requires IsRun(After(s, acts), more) && OnlyThreads(more)
    ensures ThreadSteps(acts) + |more| <= Rank(s) + Arrivals(acts)
    ensures AtRest(After(After(s, acts), more)) ==> After(After(s, acts), more).main == Exited
  {
    RunRank(s, acts);
    hide Enabled, Next, Rank, Initial;
    RunRank(After(s, acts), more);
    ThreadsCount(more);
    RunFurther(s, acts, more);
    if AtRest(After(After(s, acts), more)) {
      assert ArriveStop in acts + more;
      RestIsExit(s, acts + more);
    }
  }

  /** Main's sends are always received: while it is blocked in one, the handler has not finished
      with startup, and either receives at once or has a step of its own that leads there. */
  lemma SendsAreReceived(s: State, acts: seq<Action>)
    requires Initial(s) && IsRun(s, acts) && After(s, acts).main.Send?
    ensures var e := After(s, acts);
            && !e.controlClosed && !e.startupDone && e.stopper.NotStarted?
            && (Enabled(e, Receive) || (Enabled(e, Handler) && HandlerStep(e).main == e.main))
  {
    RunRank(s, acts);
  }

  /** When main has been told to end by the channel, nothing of the stop is left to do. */
  lemma MainEndsLast(s: State, acts: seq<Action>)
    requires Initial(s) && IsRun(s, acts) && After(s, acts).controlClosed
    ensures var e := After(s, acts); e.stopper.Finished? && e.startupDone && e.handler.Ended?
  {
    RunRank(s, acts);
  }
}
