/** `pkg/syncwriter/syncwriter.go`: writers that keep the messages of concurrent threads whole. */
module SyncWriter {
  type Bytes = string
  type Lock = nat

  datatype Writer = Stdout | Stderr | Other(id: nat)

  predicate Standard(w: Writer) {
    w == Stdout || w == Stderr
  }

  const SHARED_LOCK: Lock := 0

  // ---------------------------------------------------------------- the registry

  /** One lock per writer, and one for the two standard streams together. */
  ghost predicate Separates(locks: map<Writer, Lock>) {
    && (forall w | w in locks && Standard(w) :: locks[w] == SHARED_LOCK)
    && (forall v, w | v in locks && w in locks && locks[v] == locks[w] :: v == w || (Standard(v) && Standard(w)))
  }

  /** The writers known so far with their locks, and the next lock that is free. */
  datatype Locks = Locks(table: map<Writer, Lock>, next: nat)

  ghost predicate LocksValid(r: Locks) {
    && r.next > SHARED_LOCK
    && Separates(r.table)
    && forall w | w in r.table :: r.table[w] < r.next && (Standard(w) || r.table[w] != SHARED_LOCK)
  }

  /** The registry once a writer has been asked for: as it was, unless the writer was unknown. */
  function Given(r: Locks, w: Writer): (next: Locks) {
    if w in r.table then r
    else if Standard(w) then r.(table := r.table[w := SHARED_LOCK])
    else Locks(r.table[w := r.next], r.next + 1)
  }

  lemma GivenIsValid(r: Locks, w: Writer)
    requires LocksValid(r)
    ensures LocksValid(Given(r, w)) && w in Given(r, w).table
    ensures forall v | v in r.table :: v in Given(r, w).table && Given(r, w).table[v] == r.table[v]
  {
  }

  class Registry {
    var syncWriters: map<Writer, Lock>
    var locks: nat

    ghost predicate Valid()
      reads this
    {
      LocksValid(Locks(syncWriters, locks))
    }

    constructor ()
      ensures Valid() && syncWriters == map[]
    {
      syncWriters := map[];
      locks := SHARED_LOCK + 1;
    }

    /** For: the same lock for the same writer every time, a new one for a new writer. */
    method For(w: Writer) returns (lock: Lock)
      requires Valid()
      modifies this
      ensures Valid() && syncWriters == old(syncWriters)[w := lock]
      ensures w in old(syncWriters) ==> lock == old(syncWriters)[w]
      ensures Locks(syncWriters, locks) == Given(old(Locks(syncWriters, locks)), w)
    {
      GivenIsValid(Locks(syncWriters, locks), w);
      if w in syncWriters {
        lock := syncWriters[w];
        assert syncWriters == syncWriters[w := lock];
        return;
      }
      if Standard(w) {
        lock := SHARED_LOCK;
      } else {
        lock := locks;
        locks := locks + 1;
      }
      syncWriters := syncWriters[w := lock];
    }
  }

  // ---------------------------------------------------------------- threads

  /** A thread in `Write`: its message, what it has written of it, and the slice `p` still to be written. */
  datatype Thread = Idle | Writing(w: Writer, message: Bytes, written: Bytes, p: Bytes)

  /** One write to an underlying writer. */
  datatype Chunk = Chunk(w: Writer, bytes: Bytes)

  /** A call of `Write` that has returned: what reached the writer, and what did not. */
  datatype Call = Call(w: Writer, message: Bytes, written: Bytes, lost: Bytes)

  datatype State = State(threads: seq<Thread>, held: map<Lock, nat>, output: seq<Chunk>, calls: seq<Call>)

  datatype Action =
    | Begin(t: nat, w: Writer, message: Bytes)  // Write takes the lock
    | Put(t: nat, n: nat, ok: bool)             // the underlying writer takes n bytes, or fails after them
    | Finish(t: nat)

  predicate Enabled(locks: map<Writer, Lock>, s: State, a: Action) {
    match a
    case Begin(t, w, _) => t < |s.threads| && s.threads[t].Idle? && w in locks && locks[w] !in s.held
    case Put(t, n, _) =>
      t < |s.threads| && s.threads[t].Writing? && s.threads[t].w in locks
      && s.threads[t].p != "" && n <= |s.threads[t].p|
    case Finish(t) => t < |s.threads| && s.threads[t].Writing? && s.threads[t].w in locks && s.threads[t].p == ""
  }

  /** The lock is released and the call is over. */
  function Return(locks: map<Writer, Lock>, s: State, t: nat, output: seq<Chunk>, written: Bytes, lost: Bytes):
      (s': State)
    requires t < |s.threads| && s.threads[t].Writing? && s.threads[t].w in locks
  {
    var th := s.threads[t];
    State(s.threads[t := Idle], s.held - {locks[th.w]}, output, s.calls + [Call(th.w, th.message, written, lost)])
  }

  function Next(locks: map<Writer, Lock>, s: State, a: Action): (s': State)
    requires Enabled(locks, s, a)
  {
    match a
    case Begin(t, w, message) =>
      State(s.threads[t := Writing(w, message, "", message)], s.held[locks[w] := t], s.output, s.calls)
    case Put(t, n, ok) =>
      var th := s.threads[t];
      var output, written, p := s.output + [Chunk(th.w, th.p[..n])], th.written + th.p[..n], th.p[n..];
      if ok then State(s.threads[t := Writing(th.w, th.message, written, p)], s.held, output, s.calls)
      else Return(locks, s, t, output, written, p)
    case Finish(t) => Return(locks, s, t, s.output, s.threads[t].written, "")
  }

  predicate Initial(s: State) {
    s.held == map[] && s.output == [] && s.calls == [] && forall t | 0 <= t < |s.threads| :: s.threads[t].Idle?
  }

  ghost predicate IsRun(locks: map<Writer, Lock>, s: State, acts: seq<Action>)
    decreases |acts|
  {
    acts == [] || (Enabled(locks, s, acts[0]) && IsRun(locks, Next(locks, s, acts[0]), acts[1..]))
  }

  ghost function After(locks: map<Writer, Lock>, s: State, acts: seq<Action>): (s': State)
    requires IsRun(locks, s, acts)
    decreases |acts|
  {
    if acts == [] then s else After(locks, Next(locks, s, acts[0]), acts[1..])
  }

  // ---------------------------------------------------------------- the streams

  /** What appears on the streams of the writers `ws`, merged. */
  function Stream(ws: set<Writer>, output: seq<Chunk>): (bytes: Bytes) {
    if output == [] then ""
    else
      var c := output[|output| - 1];
      Stream(ws, output[..|output| - 1]) + if c.w in ws then c.bytes else ""
  }

  /** What the calls that have returned wrote to them, one call after the other. */
  function Messages(ws: set<Writer>, calls: seq<Call>): (bytes: Bytes) {
    if calls == [] then ""
    else
      var c := calls[|calls| - 1];
      Messages(ws, calls[..|calls| - 1]) + if c.w in ws then c.written else ""
  }

  /** The writers `ws` share the lock `l`. */
  predicate Share(locks: map<Writer, Lock>, ws: set<Writer>, l: Lock) {
    forall w | w in ws :: w in locks && locks[w] == l
  }

  function Written(ws: set<Writer>, th: Thread): (bytes: Bytes) {
    if th.Writing? && th.w in ws then th.written else ""
  }

  /** What the call under way has written. */
  function Partial(ws: set<Writer>, l: Lock, s: State): (bytes: Bytes) {
    if l in s.held && s.held[l] < |s.threads| then Written(ws, s.threads[s.held[l]]) else ""
  }

  /** A lock is held by exactly the thread that is writing under it. */
  ghost predicate Exclusive(locks: map<Writer, Lock>, s: State) {
    && (forall t | 0 <= t < |s.threads| && s.threads[t].Writing? ::
          s.threads[t].w in locks && locks[s.threads[t].w] in s.held && s.held[locks[s.threads[t].w]] == t)
    && (forall l | l in s.held ::
          && s.held[l] < |s.threads| && s.threads[s.held[l]].Writing? && s.threads[s.held[l]].w in locks
          && locks[s.threads[s.held[l]].w] == l)
  }

  ghost predicate Whole(ws: set<Writer>, l: Lock, s: State) {
    Stream(ws, s.output) == Messages(ws, s.calls) + Partial(ws, l, s)
  }

  lemma StepKeepsExclusive(locks: map<Writer, Lock>, s: State, a: Action)
    requires Exclusive(locks, s) && Enabled(locks, s, a)
    ensures Exclusive(locks, Next(locks, s, a))
  {
  }

  lemma StreamPut(ws: set<Writer>, output: seq<Chunk>, c: Chunk)
    ensures Stream(ws, output + [c]) == Stream(ws, output) + if c.w in ws then c.bytes else ""
  {
    assert (output + [c])[..|output|] == output;
  }

  lemma MessagesReturn(ws: set<Writer>, calls: seq<Call>, c: Call)
    ensures Messages(ws, calls + [c]) == Messages(ws, calls) + if c.w in ws then c.written else ""
  {
    assert (calls + [c])[..|calls|] == calls;
  }

  lemma StepKeepsWhole(locks: map<Writer, Lock>, ws: set<Writer>, l: Lock, s: State, a: Action)
    requires Share(locks, ws, l) && Exclusive(locks, s) && Enabled(locks, s, a) && Whole(ws, l, s)
    ensures Whole(ws, l, Next(locks, s, a))
  {
    hide Stream, Messages;
    var s' := Next(locks, s, a);
    if a.Begin? {
      assert Partial(ws, l, s') == Partial(ws, l, s);
    } else {
      var th := s.threads[a.t];
      if a.Put? {
        StreamPut(ws, s.output, Chunk(th.w, th.p[..a.n]));
        if !a.ok {
          MessagesReturn(ws, s.calls, Call(th.w, th.message, th.written + th.p[..a.n], th.p[a.n..]));
        }
      } else {
        MessagesReturn(ws, s.calls, Call(th.w, th.message, th.written, ""));
      }
    }
  }

  lemma {:induction false} RunKeepsWhole(locks: map<Writer, Lock>, ws: set<Writer>, l: Lock, s: State,
      acts: seq<Action>)
    requires Share(locks, ws, l) && Exclusive(locks, s) && Whole(ws, l, s) && IsRun(locks, s, acts)
    ensures Exclusive(locks, After(locks, s, acts)) && Whole(ws, l, After(locks, s, acts))
    decreases |acts|
  {
    hide Exclusive, Whole, Share, Enabled, Next;
    if acts != [] {
      StepKeepsExclusive(locks, s, acts[0]);
      StepKeepsWhole(locks, ws, l, s, acts[0]);
      RunKeepsWhole(locks, ws, l, Next(locks, s, acts[0]), acts[1..]);
    }
  }

  /** Output is serialised: for any number of threads and any schedule, the merged stream of writers
      that share a lock is what the calls that returned wrote, one after the other, and then the
      start of one message at most, written by the thread that holds the lock. */
  lemma OutputIsSerialised(locks: map<Writer, Lock>, ws: set<Writer>, l: Lock, s: State, acts: seq<Action>)
    requires Share(locks, ws, l) && Initial(s) && IsRun(locks, s, acts)
    ensures var e := After(locks, s, acts);
            && Stream(ws, e.output) == Messages(ws, e.calls) + Partial(ws, l, e)
            && (l !in e.held ==> Stream(ws, e.output) == Messages(ws, e.calls))
  {
    RunKeepsWhole(locks, ws, l, s, acts);
    var e := After(locks, s, acts);
    assert Messages(ws, e.calls) + "" == Messages(ws, e.calls);
  }

  /** What is written and what is still to be written, or lost, make up the message. */
  ghost predicate Accounted(s: State) {
    && (forall t | 0 <= t < |s.threads| && s.threads[t].Writing? ::
          s.threads[t].written + s.threads[t].p == s.threads[t].message)
    && (forall c | c in s.calls :: c.written + c.lost == c.message)
  }

  lemma StepAccounts(locks: map<Writer, Lock>, s: State, a: Action)
    requires Accounted(s) && Enabled(locks, s, a)
    ensures Accounted(Next(locks, s, a))
  {
    if a.Begin? {
      assert "" + a.message == a.message;
    } else {
      var th := s.threads[a.t];
      if a.Put? {
        assert (th.written + th.p[..a.n]) + th.p[a.n..] == th.written + th.p;
      } else {
        assert th.written + "" == th.written + th.p;
      }
    }
  }

  lemma {:induction false} RunAccounts(locks: map<Writer, Lock>, s: State, acts: seq<Action>)
    requires IsRun(locks, s, acts) && Accounted(s)
    ensures Accounted(After(locks, s, acts))
    decreases |acts|
  {
    hide Accounted;
    if acts != [] {
      StepAccounts(locks, s, acts[0]);
      RunAccounts(locks, Next(locks, s, acts[0]), acts[1..]);
    }
  }

  lemma {:induction false} NothingIsLost(locks: map<Writer, Lock>, s: State, acts: seq<Action>)
    requires IsRun(locks, s, acts) && forall a | a in acts :: a.Put? ==> a.ok
    requires forall c | c in s.calls :: c.lost == ""
    ensures forall c | c in After(locks, s, acts).calls :: c.lost == ""
    decreases |acts|
  {
    if acts != [] {
      assert acts[0] in acts;
      NothingIsLost(locks, Next(locks, s, acts[0]), acts[1..]);
    }
  }

  /** Every call that has returned wrote its message up to where the underlying writer failed: all
      of it, in a run without failures, however short the writes were. */
  lemma CallsAreWhole(locks: map<Writer, Lock>, s: State, acts: seq<Action>)
    requires IsRun(locks, s, acts) && Initial(s)
    ensures forall c | c in After(locks, s, acts).calls :: c.written <= c.message
    ensures (forall a | a in acts :: a.Put? ==> a.ok) ==>
              forall c | c in After(locks, s, acts).calls :: c.written == c.message
  {
    RunAccounts(locks, s, acts);
    if forall a | a in acts :: a.Put? ==> a.ok {
      NothingIsLost(locks, s, acts);
      forall c | c in After(locks, s, acts).calls
        ensures c.written == c.message
      {
        assert c.written + "" == c.written;
      }
    }
  }

  /** A write that fails ends the call: what it took is on record, the lock is free again, and no other
      thread is affected. */
  lemma FailureEndsCall(locks: map<Writer, Lock>, s: State, t: nat, n: nat)
    requires Exclusive(locks, s) && Enabled(locks, s, Put(t, n, false))
    ensures var th, s' := s.threads[t], Next(locks, s, Put(t, n, false));
            && s'.threads == s.threads[t := Idle] && s'.held == s.held - {locks[th.w]}
            && s'.output == s.output + [Chunk(th.w, th.p[..n])]
            && s'.calls == s.calls + [Call(th.w, th.message, th.written + th.p[..n], th.p[n..])]
  {
  }

  /** A thread that is writing is never held up: it can write all that is left, or it is at the end. */
  lemma WriterGoesOn(locks: map<Writer, Lock>, s: State, t: nat)
    requires Exclusive(locks, s) && t < |s.threads| && s.threads[t].Writing?
    ensures var p := s.threads[t].p;
            if p == "" then Enabled(locks, s, Finish(t)) && Next(locks, s, Finish(t)).threads[t].Idle?
            else
              && Enabled(locks, s, Put(t, |p|, true))
              && Next(locks, s, Put(t, |p|, true)).threads[t].Writing?
              && Next(locks, s, Put(t, |p|, true)).threads[t].p == ""
  {
  }

  /** With the locks that `For` gives out, the console - both standard streams together - and every
      other writer by itself are streams of that kind, and other writers do not wait for each other. */
  lemma LocksGivenOutSerialise(locks: map<Writer, Lock>, w: Writer)
    requires Separates(locks) && w in locks
    ensures Share(locks, locks.Keys * {Stdout, Stderr}, SHARED_LOCK) && Share(locks, {w}, locks[w])
    ensures forall v | v in locks && v != w && !(Standard(v) && Standard(w)) :: locks[v] != locks[w]
  {
  }

  // ---------------------------------------------------------------- with the registry in use

  /** A thread asks for a writer, or uses one that it has been given. */
  datatype Move = For(w: Writer) | Use(a: Action)

  ghost predicate Moves(r: Locks, s: State, moves: seq<Move>)
    decreases |moves|
  {
    moves == [] ||
    match moves[0]
    case For(w) => Moves(Given(r, w), s, moves[1..])
    case Use(a) => Enabled(r.table, s, a) && Moves(r, Next(r.table, s, a), moves[1..])
  }

  ghost function EndLocks(r: Locks, moves: seq<Move>): (next: Locks)
    decreases |moves|
  {
    if moves == [] then r else EndLocks(if moves[0].For? then Given(r, moves[0].w) else r, moves[1..])
  }

  ghost function End(r: Locks, s: State, moves: seq<Move>): (s': State)
    requires Moves(r, s, moves)
    decreases |moves|
  {
    if moves == [] then s
    else
      match moves[0]
      case For(w) => End(Given(r, w), s, moves[1..])
      case Use(a) => End(r, Next(r.table, s, a), moves[1..])
  }

  /** What the threads do, without the requests for writers. */
  ghost function Uses(moves: seq<Move>): (r: seq<Action>) {
    if moves == [] then [] else (if moves[0].Use? then [moves[0].a] else []) + Uses(moves[1..])
  }

  /** A writer keeps its lock. */
  ghost predicate Within(locks: map<Writer, Lock>, locks': map<Writer, Lock>) {
    forall w | w in locks :: w in locks' && locks'[w] == locks[w]
  }

  lemma {:induction false} LocksStay(r: Locks, moves: seq<Move>)
    requires LocksValid(r)
    ensures LocksValid(EndLocks(r, moves)) && Within(r.table, EndLocks(r, moves).table)
    decreases |moves|
  {
    if moves != [] {
      var r' := if moves[0].For? then Given(r, moves[0].w) else r;
      if moves[0].For? {
        GivenIsValid(r, moves[0].w);
      }
      assert Within(r.table, r'.table);
      hide LocksValid;
      LocksStay(r', moves[1..]);
    }
  }

  lemma SameStep(locks: map<Writer, Lock>, locks': map<Writer, Lock>, s: State, a: Action)
    requires Within(locks, locks') && Enabled(locks, s, a)
    ensures Enabled(locks', s, a) && Next(locks', s, a) == Next(locks, s, a)
  {
  }

  /** The run might as well have begun with all the locks that it ends with. */
  lemma {:induction false} MovesAreRun(r: Locks, s: State, moves: seq<Move>)
    requires LocksValid(r) && Moves(r, s, moves)
    ensures var locks := EndLocks(r, moves).table;
            IsRun(locks, s, Uses(moves)) && After(locks, s, Uses(moves)) == End(r, s, moves)
    decreases |moves|
  {
    if moves != [] {
      LocksStay(r, moves);
      match moves[0]
      case For(w) =>
        GivenIsValid(r, w);
        hide LocksValid;
        MovesAreRun(Given(r, w), s, moves[1..]);
        assert Uses(moves) == Uses(moves[1..]);
      case Use(a) =>
        var locks := EndLocks(r, moves).table;
        SameStep(r.table, locks, s, a);
        hide LocksValid, Enabled, Next;
        MovesAreRun(r, Next(r.table, s, a), moves[1..]);
        assert Uses(moves)[0] == a && Uses(moves)[1..] == Uses(moves[1..]);
    }
  }

  /** The messages of the calls that have returned, one after the other. */
  function WholeMessages(ws: set<Writer>, calls: seq<Call>): (bytes: Bytes) {
    if calls == [] then ""
    else
      var c := calls[|calls| - 1];
      WholeMessages(ws, calls[..|calls| - 1]) + if c.w in ws then c.message else ""
  }

  lemma {:induction false} WrittenIsWhole(ws: set<Writer>, calls: seq<Call>)
    requires forall c | c in calls :: c.written == c.message
    ensures Messages(ws, calls) == WholeMessages(ws, calls)
  {
    if calls != [] {
      WrittenIsWhole(ws, calls[..|calls| - 1]);
    }
  }

  ghost predicate NoFailure(moves: seq<Move>) {
    forall m | m in moves && m.Use? && m.a.Put? :: m.a.ok
  }

  lemma {:induction false} UsesDoNotFail(moves: seq<Move>)
    requires NoFailure(moves)
    ensures forall a | a in Uses(moves) :: a.Put? ==> a.ok
  {
    if moves != [] {
      UsesDoNotFail(moves[1..]);
      assert moves[0] in moves;
    }
  }

  /** From a new registry on, with any number of threads that ask for writers and write to them in any
      order, as long as the underlying writers do not fail: what is on the console, both standard
      streams merged, and what any other writer has taken, is whole messages one after the other
      whenever nobody is writing to it. */
  lemma StreamsAreWholeMessages(r: Locks, s: State, moves: seq<Move>, w: Writer)
    requires LocksValid(r) && Initial(s) && Moves(r, s, moves) && NoFailure(moves)
    requires w in EndLocks(r, moves).table && EndLocks(r, moves).table[w] !in End(r, s, moves).held
    ensures var ws := if Standard(w) then EndLocks(r, moves).table.Keys * {Stdout, Stderr} else {w};
            Stream(ws, End(r, s, moves).output) == WholeMessages(ws, End(r, s, moves).calls)
  {
    var locks, acts, e := EndLocks(r, moves).table, Uses(moves), End(r, s, moves);
    LocksStay(r, moves);
    MovesAreRun(r, s, moves);
    LocksGivenOutSerialise(locks, w);
    UsesDoNotFail(moves);
    CallsAreWhole(locks, s, acts);
    var ws := if Standard(w) then locks.Keys * {Stdout, Stderr} else {w};
    OutputIsSerialised(locks, ws, locks[w], s, acts);
    WrittenIsWhole(ws, e.calls);
  }
}
