/** Scrapes that overlap. `processMetrics` serves one request at a time, but a scrape goes on reading
    the values after its request has been served, and all scrapes read the same ones: the request of
    another scrape replaces them. One step serves a request, one step reads a metric; publications,
    further scrapes and new descriptions come in between. Gauges play no part in conservation. */
module MetricsScrapes {
  import opened Metrics

  datatype Config = Config(qmName: string, metrics: map<Key, Info>)

  /** A call of Collect: the metrics it has not read yet, and whether it has returned. */
  datatype Scrape = Scrape(left: set<Key>, returned: bool)

  /** The last three fields are the ledger. */
  datatype State = State(
    cached: map<Key, map<Label, nat>>, values: map<Key, map<Label, real>>,
    counterMap: map<Key, map<Series, real>>, firstCollect: bool, scrapes: seq<Scrape>,
    published: (Key, Series) -> real, skipped: (Key, Series) -> real, discarded: (Key, Series) -> real)

  datatype Action =
    | Publish(k: Key, name: Label, value: nat)
    | Describe(k: Key)
    | Request             // the request of a new scrape is served
    | Read(i: nat, k: Key)
    | Return(i: nat)

  predicate IsDelta(cfg: Config, k: Key) {
    k in cfg.metrics && cfg.metrics[k].kind == Delta
  }

  predicate Counts(cfg: Config, k: Key, s: Series) {
    IsDelta(cfg, k) && |s| == Arity(cfg.metrics[k])
  }

  predicate Described(cfg: Config, s: State) {
    forall k | k in cfg.metrics && cfg.metrics[k].kind == Delta :: k in s.counterMap
  }

  predicate Enabled(cfg: Config, s: State, a: Action) {
    match a
    case Publish(k, _, _) => k in s.cached
    case Describe(k) => k in cfg.metrics
    case Request => Described(cfg, s)
    case Read(i, k) => i < |s.scrapes| && k in s.scrapes[i].left
    case Return(i) => i < |s.scrapes| && s.scrapes[i] == Scrape({}, false)
  }

  /** What Prometheus shows for a series. */
  function Counter(s: State, k: Key, ser: Series): (x: real) {
    if k in s.counterMap then Get(s.counterMap[k], ser) else 0.0
  }

  /** What reading a metric adds to a series. */
  ghost function Shown(cfg: Config, s: State, k: Key, ser: Series): (x: real) {
    if k in s.values then Total(s.values[k], s.values[k].Keys, ser, cfg.qmName) else 0.0
  }

  function Published(cfg: Config, s: State, k: Key, name: Label, value: nat): (s': State)
    requires k in s.cached
  {
    var delta := IsDelta(cfg, k);
    var cached := if delta then Accumulate(s.cached[k], name, value) else s.cached[k][name := value];
    var published := (j, ser) =>
      s.published(j, ser) + if j == k && delta && ser == SeriesOf(name, cfg.qmName) then value as real else 0.0;
    s.(cached := s.cached[k := cached], published := published)
  }

  function Redescribed(cfg: Config, s: State, k: Key): (s': State) {
    var discarded := (j, ser) => s.discarded(j, ser) + if j == k then Counter(s, k, ser) else 0.0;
    if !IsDelta(cfg, k) then s else s.(counterMap := s.counterMap[k := map[]], discarded := discarded)
  }

  /** updateMetrics, and a scrape that is to read everything. */
  function Requested(cfg: Config, s: State): (s': State)
    requires cfg.metrics.Keys <= s.cached.Keys
  {
    s.(values := map k | k in cfg.metrics :: NormaliseAll(cfg.metrics[k].kind, s.cached[k]),
       cached := map k | k in s.cached :: map[],
       scrapes := s.scrapes + [Scrape(cfg.metrics.Keys, false)])
  }

  /** The part of Collect for one metric, with the values and the flag as they are at this moment. */
  ghost function ReadOne(cfg: Config, s: State, i: nat, k: Key): (s': State)
    requires i < |s.scrapes| && k in s.scrapes[i].left
  {
    var next := s.(scrapes := s.scrapes[i := s.scrapes[i].(left := s.scrapes[i].left - {k})]);
    if !IsDelta(cfg, k) || k !in s.counterMap || k !in s.values then next
    else if s.firstCollect then
      next.(skipped := (j, ser) => s.skipped(j, ser) + if j == k then Shown(cfg, s, k, ser) else 0.0)
    else
      var c := Increased(s.counterMap[k], s.values[k], Arity(cfg.metrics[k]), cfg.qmName);
      next.(counterMap := s.counterMap[k := c])
  }

  ghost function Next(cfg: Config, s: State, a: Action): (s': State)
    requires cfg.metrics.Keys <= s.cached.Keys && Enabled(cfg, s, a)
  {
    match a
    case Publish(k, name, value) => Published(cfg, s, k, name, value)
    case Describe(k) => Redescribed(cfg, s, k)
    case Request => Requested(cfg, s)
    case Read(i, k) => ReadOne(cfg, s, i, k)
    case Return(i) => s.(scrapes := s.scrapes[i := Scrape({}, true)], firstCollect := false)
  }

  /** A new exporter, with nothing published. */
  ghost predicate Initial(cfg: Config, s: State) {
    && cfg.metrics.Keys <= s.cached.Keys && s.values == map[] && s.counterMap == map[]
    && s.firstCollect && s.scrapes == []
    && (forall k | k in s.cached :: s.cached[k] == map[])
    && forall k, ser :: s.published(k, ser) == s.skipped(k, ser) == s.discarded(k, ser) == 0.0
  }

  /** What every step keeps. */
  ghost predicate WellFormed(cfg: Config, s: State) {
    && cfg.metrics.Keys <= s.cached.Keys
    && (s.scrapes != [] ==> s.values.Keys == cfg.metrics.Keys && Described(cfg, s))
    && forall i | 0 <= i < |s.scrapes| :: s.scrapes[i].left <= cfg.metrics.Keys
  }

  lemma StepWellFormed(cfg: Config, s: State, a: Action)
    requires WellFormed(cfg, s) && Enabled(cfg, s, a)
    ensures WellFormed(cfg, Next(cfg, s, a))
  {
  }

  // ---------------------------------------------------------------- the balance

  /** How many scrapes have not read the metric yet. */
  function Pending(scrapes: seq<Scrape>, k: Key): (n: nat) {
    if scrapes == [] then 0
    else (if k in scrapes[|scrapes| - 1].left then 1 else 0) + Pending(scrapes[..|scrapes| - 1], k)
  }

  lemma PendingMore(scrapes: seq<Scrape>, scrape: Scrape, k: Key)
    ensures Pending(scrapes + [scrape], k) == Pending(scrapes, k) + if k in scrape.left then 1 else 0
  {
    assert (scrapes + [scrape])[..|scrapes|] == scrapes;
  }

  lemma {:induction false} PendingUpdate(scrapes: seq<Scrape>, i: nat, scrape: Scrape, k: Key)
    requires i < |scrapes|
    ensures Pending(scrapes[i := scrape], k) == Pending(scrapes, k)
              - (if k in scrapes[i].left then 1 else 0) + (if k in scrape.left then 1 else 0)
  {
    var n := |scrapes| - 1;
    if i < n {
      assert scrapes[i := scrape][..n] == scrapes[..n][i := scrape];
      PendingUpdate(scrapes[..n], i, scrape, k);
    } else {
      assert scrapes[i := scrape][..n] == scrapes[..n];
    }
  }

  lemma {:induction false} PendingIff(scrapes: seq<Scrape>, k: Key)
    ensures Pending(scrapes, k) > 0 <==> exists i | 0 <= i < |scrapes| :: k in scrapes[i].left
  {
    if scrapes != [] {
      var n := |scrapes| - 1;
      PendingIff(scrapes[..n], k);
      if i :| 0 <= i < |scrapes| && k in scrapes[i].left && i < n {
        assert k in scrapes[..n][i].left;
      }
    }
  }

  function Times(n: nat, x: real): (r: real) {
    n as real * x
  }

  /** What they will add. */
  ghost function InFlight(cfg: Config, s: State, k: Key, ser: Series): (x: real) {
    Times(Pending(s.scrapes, k), Shown(cfg, s, k, ser))
  }

  /** What the ledger has for a series in excess of what was published, if every scrape that has not
      read the metric yet will add what it shows now. */
  ghost function Balance(cfg: Config, s: State, k: Key, ser: Series): (x: real)
    requires k in s.cached
  {
    Counter(s, k, ser) + s.skipped(k, ser) + s.discarded(k, ser) + Cached(s.cached[k], ser, cfg.qmName)
    + InFlight(cfg, s, k, ser) - s.published(k, ser)
  }

  /** What serving a request does to the balance: the scrapes that have not read the metric yet will
      read what has been published since in place of the values they were to read. */
  ghost function Shift(cfg: Config, s: State, k: Key, ser: Series): (x: real)
    requires k in s.cached
  {
    Times(Pending(s.scrapes, k), Cached(s.cached[k], ser, cfg.qmName) - Shown(cfg, s, k, ser))
  }

  lemma PublishLedger(cfg: Config, s: State, a: Action, k: Key, ser: Series)
    requires WellFormed(cfg, s) && Enabled(cfg, s, a) && Counts(cfg, k, ser) && a.Publish?
    ensures var s' := Next(cfg, s, a);
            && k in s'.cached
            && Cached(s'.cached[k], ser, cfg.qmName) - s'.published(k, ser)
               == Cached(s.cached[k], ser, cfg.qmName) - s.published(k, ser)
  {
    if a.k == k {
      AccumulateAdds(s.cached[k], a.name, a.value, ser, cfg.qmName);
    }
    hide Total, Cached, Accumulate;
  }

  lemma PublishFrame(cfg: Config, s: State, a: Action, k: Key, ser: Series)
    requires WellFormed(cfg, s) && Enabled(cfg, s, a) && a.Publish?
    ensures var s' := Next(cfg, s, a);
            && s'.skipped == s.skipped && s'.discarded == s.discarded && Counter(s', k, ser) == Counter(s, k, ser)
            && InFlight(cfg, s', k, ser) == InFlight(cfg, s, k, ser)
  {
    hide Total, Cached, Pending;
  }

  lemma PublishBalances(cfg: Config, s: State, a: Action, k: Key, ser: Series)
    requires WellFormed(cfg, s) && Enabled(cfg, s, a) && Counts(cfg, k, ser) && a.Publish?
    ensures k in Next(cfg, s, a).cached
    ensures Balance(cfg, Next(cfg, s, a), k, ser) == Balance(cfg, s, k, ser)
  {
    PublishLedger(cfg, s, a, k, ser);
    PublishFrame(cfg, s, a, k, ser);
    hide Next, Cached, Counter, InFlight;
  }

  lemma DescribeBalances(cfg: Config, s: State, a: Action, k: Key, ser: Series)
    requires WellFormed(cfg, s) && Enabled(cfg, s, a) && Counts(cfg, k, ser) && a.Describe?
    ensures Balance(cfg, Next(cfg, s, a), k, ser) == Balance(cfg, s, k, ser)
  {
    hide Total, Cached;
  }

  lemma ReturnBalances(cfg: Config, s: State, a: Action, k: Key, ser: Series)
    requires WellFormed(cfg, s) && Enabled(cfg, s, a) && Counts(cfg, k, ser) && a.Return?
    ensures Balance(cfg, Next(cfg, s, a), k, ser) == Balance(cfg, s, k, ser)
  {
    hide Total, Cached;
    PendingUpdate(s.scrapes, a.i, Scrape({}, true), k);
  }

  lemma ReadCounts(cfg: Config, s: State, a: Action, k: Key, ser: Series)
    requires WellFormed(cfg, s) && Enabled(cfg, s, a) && Counts(cfg, k, ser) && a.Read?
    ensures var s' := Next(cfg, s, a);
            Counter(s', k, ser) + s'.skipped(k, ser)
            == Counter(s, k, ser) + s.skipped(k, ser) + if a.k == k then Shown(cfg, s, k, ser) else 0.0
  {
    hide Total, Increased;
    if a.k == k {
      IncreasedAdds(s.counterMap[k], s.values[k], Arity(cfg.metrics[k]), cfg.qmName);
    }
  }

  lemma ReadFrame(cfg: Config, s: State, a: Action)
    requires WellFormed(cfg, s) && Enabled(cfg, s, a) && a.Read?
    ensures var s', scrape := Next(cfg, s, a), s.scrapes[a.i];
            && s'.cached == s.cached && s'.values == s.values && s'.firstCollect == s.firstCollect
            && s'.published == s.published && s'.discarded == s.discarded
            && s'.scrapes == s.scrapes[a.i := scrape.(left := scrape.left - {a.k})]
  {
    hide Total, Increased;
  }

  lemma ReadInFlight(cfg: Config, s: State, a: Action, k: Key, ser: Series)
    requires WellFormed(cfg, s) && Enabled(cfg, s, a) && a.Read?
    ensures InFlight(cfg, Next(cfg, s, a), k, ser)
         == InFlight(cfg, s, k, ser) - if a.k == k then Shown(cfg, s, k, ser) else 0.0
  {
    var scrape := s.scrapes[a.i];
    ReadFrame(cfg, s, a);
    PendingUpdate(s.scrapes, a.i, scrape.(left := scrape.left - {a.k}), k);
    if a.k == k {
      OneMore(Pending(s.scrapes, k) - 1, Shown(cfg, s, k, ser));
    }
    assert Shown(cfg, Next(cfg, s, a), k, ser) == Shown(cfg, s, k, ser);
    hide Total, Cached, Next, Shown, Pending, Times;
  }

  lemma ReadBalances(cfg: Config, s: State, a: Action, k: Key, ser: Series)
    requires WellFormed(cfg, s) && Enabled(cfg, s, a) && Counts(cfg, k, ser) && a.Read?
    ensures k in Next(cfg, s, a).cached
    ensures Balance(cfg, Next(cfg, s, a), k, ser) == Balance(cfg, s, k, ser)
  {
    ReadCounts(cfg, s, a, k, ser);
    ReadFrame(cfg, s, a);
    ReadInFlight(cfg, s, a, k, ser);
    hide Cached, Next, Shown, Counter, InFlight;
  }

  lemma OneMore(n: nat, x: real)
    ensures Times(n + 1, x) == Times(n, x) + x
  {
  }

  lemma RequestShifts(cfg: Config, s: State, k: Key, ser: Series)
    requires WellFormed(cfg, s) && Enabled(cfg, s, Request) && Counts(cfg, k, ser)
    ensures Balance(cfg, Next(cfg, s, Request), k, ser) == Balance(cfg, s, k, ser) + Shift(cfg, s, k, ser)
  {
    var s', c := Next(cfg, s, Request), Cached(s.cached[k], ser, cfg.qmName);
    assert NormaliseAll(Delta, s.cached[k]).Keys == s.cached[k].Keys;
    assert Shown(cfg, s', k, ser) == c;
    NothingCached(ser, cfg.qmName);
    hide Total, Cached, Shown, Times;
    PendingMore(s.scrapes, Scrape(cfg.metrics.Keys, false), k);
    var n := Pending(s.scrapes, k);
    OneMore(n, c);
    Distribute(n, c, Shown(cfg, s, k, ser));
  }

  lemma Distribute(n: nat, x: real, y: real)
    ensures Times(n, x - y) == Times(n, x) - Times(n, y)
  {
  }

  /** Nothing but a request moves the balance, and it moves it by `Shift`. */
  lemma StepBalances(cfg: Config, s: State, a: Action, k: Key, ser: Series)
    requires WellFormed(cfg, s) && Enabled(cfg, s, a) && Counts(cfg, k, ser)
    ensures k in Next(cfg, s, a).cached
    ensures Balance(cfg, Next(cfg, s, a), k, ser)
         == Balance(cfg, s, k, ser) + if a.Request? then Shift(cfg, s, k, ser) else 0.0
  {
    StepWellFormed(cfg, s, a);
    hide Balance, Shift, Next, Enabled;
    match a
    case Publish(_, _, _) => PublishBalances(cfg, s, a, k, ser);
    case Describe(_) => DescribeBalances(cfg, s, a, k, ser);
    case Request => RequestShifts(cfg, s, k, ser);
    case Read(_, _) => ReadBalances(cfg, s, a, k, ser);
    case Return(_) => ReturnBalances(cfg, s, a, k, ser);
  }

  // ---------------------------------------------------------------- every run

  ghost predicate IsRun(cfg: Config, s: State, acts: seq<Action>)
    requires WellFormed(cfg, s)
    decreases |acts|
  {
    acts == [] || (Enabled(cfg, s, acts[0]) && IsRun(cfg, Step(cfg, s, acts[0]), acts[1..]))
  }

  ghost function Step(cfg: Config, s: State, a: Action): (s': State)
    requires WellFormed(cfg, s) && Enabled(cfg, s, a)
    ensures WellFormed(cfg, s')
  {
    StepWellFormed(cfg, s, a);
    Next(cfg, s, a)
  }

  ghost function After(cfg: Config, s: State, acts: seq<Action>): (e: State)
    requires WellFormed(cfg, s) && IsRun(cfg, s, acts)
    ensures WellFormed(cfg, e)
    decreases |acts|
  {
    if acts == [] then s else After(cfg, Step(cfg, s, acts[0]), acts[1..])
  }

  /** Every scrape has read all the counters. */
  ghost predicate NothingLeft(cfg: Config, s: State) {
    forall i, k | 0 <= i < |s.scrapes| && k in s.scrapes[i].left :: !IsDelta(cfg, k)
  }

  /** No request is served while another scrape still has counters to read. */
  ghost predicate Orderly(cfg: Config, s: State, acts: seq<Action>)
    requires WellFormed(cfg, s) && IsRun(cfg, s, acts)
    decreases |acts|
  {
    acts == [] || ((acts[0].Request? ==> NothingLeft(cfg, s)) && Orderly(cfg, Step(cfg, s, acts[0]), acts[1..]))
  }

  ghost predicate Balanced(cfg: Config, s: State)
    requires WellFormed(cfg, s)
  {
    forall k, ser | Counts(cfg, k, ser) :: Balance(cfg, s, k, ser) == 0.0
  }

  /** The law of conservation. */
  ghost predicate Conserved(cfg: Config, s: State, k: Key, ser: Series)
    requires k in s.cached
  {
    s.published(k, ser)
    == Counter(s, k, ser) + s.skipped(k, ser) + s.discarded(k, ser) + Cached(s.cached[k], ser, cfg.qmName)
  }

  ghost predicate LawHolds(cfg: Config, s: State)
    requires WellFormed(cfg, s)
  {
    forall k, ser | Counts(cfg, k, ser) :: Conserved(cfg, s, k, ser)
  }

  lemma NothingPending(cfg: Config, s: State, k: Key)
    requires NothingLeft(cfg, s) && IsDelta(cfg, k)
    ensures Pending(s.scrapes, k) == 0
  {
    PendingIff(s.scrapes, k);
  }

  lemma NoShift(cfg: Config, s: State, k: Key, ser: Series)
    requires WellFormed(cfg, s) && NothingLeft(cfg, s) && Counts(cfg, k, ser)
    ensures k in s.cached && Shift(cfg, s, k, ser) == 0.0
  {
    NothingPending(cfg, s, k);
  }

  lemma LawIsBalance(cfg: Config, s: State, k: Key, ser: Series)
    requires WellFormed(cfg, s) && NothingLeft(cfg, s) && Counts(cfg, k, ser)
    ensures Conserved(cfg, s, k, ser) <==> Balance(cfg, s, k, ser) == 0.0
  {
    NothingPending(cfg, s, k);
    hide Cached, Counter, Shown, Pending;
  }

  lemma StepKeepsBalance(cfg: Config, s: State, a: Action)
    requires WellFormed(cfg, s) && Enabled(cfg, s, a) && Balanced(cfg, s)
    requires a.Request? ==> NothingLeft(cfg, s)
    ensures Balanced(cfg, Step(cfg, s, a))
  {
    hide Balance, Shift, Next, Enabled;
    forall k, ser | Counts(cfg, k, ser)
      ensures Balance(cfg, Step(cfg, s, a), k, ser) == 0.0
    {
      StepBalances(cfg, s, a, k, ser);
      assert Balance(cfg, s, k, ser) == 0.0;
      if a.Request? {
        NoShift(cfg, s, k, ser);
      }
    }
  }

  lemma {:induction false} OrderlyKeepsBalance(cfg: Config, s: State, acts: seq<Action>)
    requires WellFormed(cfg, s) && IsRun(cfg, s, acts) && Orderly(cfg, s, acts) && Balanced(cfg, s)
    ensures Balanced(cfg, After(cfg, s, acts))
    decreases |acts|
  {
    hide WellFormed, Enabled, Balanced, Step, NothingLeft;
    if acts != [] {
      StepKeepsBalance(cfg, s, acts[0]);
      OrderlyKeepsBalance(cfg, Step(cfg, s, acts[0]), acts[1..]);
    }
  }

  lemma InitialBalanced(cfg: Config, s: State)
    requires Initial(cfg, s)
    ensures WellFormed(cfg, s) && Balanced(cfg, s)
  {
    forall k, ser | Counts(cfg, k, ser)
      ensures Balance(cfg, s, k, ser) == 0.0
    {
      NothingCached(ser, cfg.qmName);
    }
  }

  /** The law in every run in which no request is served too early, for any number of scrapes: whenever
      nothing is left to read, what was published of a series is what its counter shows, what the first
      scrape skipped, what Describe discarded, and what is cached. */
  lemma OrderlyRunsConserve(cfg: Config, s: State, acts: seq<Action>)
    requires Initial(cfg, s) && WellFormed(cfg, s) && IsRun(cfg, s, acts) && Orderly(cfg, s, acts)
    requires NothingLeft(cfg, After(cfg, s, acts))
    ensures LawHolds(cfg, After(cfg, s, acts))
  {
    InitialBalanced(cfg, s);
    OrderlyKeepsBalance(cfg, s, acts);
    var e := After(cfg, s, acts);
    forall k, ser | Counts(cfg, k, ser)
      ensures Conserved(cfg, e, k, ser)
    {
      LawIsBalance(cfg, e, k, ser);
      assert Balance(cfg, e, k, ser) == 0.0;
    }
  }

  ghost predicate HasReturn(acts: seq<Action>) {
    exists i | 0 <= i < |acts| :: acts[i].Return?
  }

  /** Once any scrape has returned, no scrape skips anything, in any run. */
  lemma {:induction false} SkippingEnds(cfg: Config, s: State, acts: seq<Action>)
    requires WellFormed(cfg, s) && IsRun(cfg, s, acts) && (s.firstCollect ==> HasReturn(acts))
    ensures !After(cfg, s, acts).firstCollect
    decreases |acts|
  {
    if acts != [] {
      FlagStaysDown(cfg, s, acts[0]);
      hide Enabled, Next, WellFormed;
      var next := Step(cfg, s, acts[0]);
      if next.firstCollect {
        var i :| 0 <= i < |acts| && acts[i].Return?;
        assert acts[1..][i - 1].Return?;
      }
      SkippingEnds(cfg, next, acts[1..]);
    }
  }

  lemma FlagStaysDown(cfg: Config, s: State, a: Action)
    requires WellFormed(cfg, s) && Enabled(cfg, s, a)
    ensures Next(cfg, s, a).firstCollect ==> s.firstCollect && !a.Return?
  {
    hide Total, Increased;
  }

  /** From then on a scrape that reads a counter raises it by what the metric shows, and skips nothing. */
  lemma ReadRaisesCounter(cfg: Config, s: State, i: nat, k: Key, ser: Series)
    requires WellFormed(cfg, s) && !s.firstCollect && Enabled(cfg, s, Read(i, k)) && Counts(cfg, k, ser)
    ensures var s' := Next(cfg, s, Read(i, k));
            && Counter(s', k, ser) == Counter(s, k, ser) + Shown(cfg, s, k, ser) && s'.skipped == s.skipped
  {
    ReadCounts(cfg, s, Read(i, k), k, ser);
    hide Total, Increased;
  }
}
