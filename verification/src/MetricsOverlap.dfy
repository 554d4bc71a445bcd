/** Requests that are served too early: exactly when an overlap of scrapes breaks the law of conservation,
    and what it does then. */
module MetricsOverlap {
  import opened Metrics
  import opened MetricsScrapes

  /** A state that an orderly run reaches. */
  ghost predicate Reached(cfg: Config, s: State) {
    exists s0: State, acts: seq<Action> ::
      Initial(cfg, s0) && WellFormed(cfg, s0) && IsRun(cfg, s0, acts) && Orderly(cfg, s0, acts)
      && After(cfg, s0, acts) == s
  }

  lemma ReachedIsBalanced(cfg: Config, s: State)
    requires Reached(cfg, s)
    ensures WellFormed(cfg, s) && Balanced(cfg, s)
  {
    var s0: State, acts: seq<Action> :|
      Initial(cfg, s0) && WellFormed(cfg, s0) && IsRun(cfg, s0, acts) && Orderly(cfg, s0, acts)
      && After(cfg, s0, acts) == s;
    InitialBalanced(cfg, s0);
    OrderlyKeepsBalance(cfg, s0, acts);
  }

  ghost predicate Requestless(acts: seq<Action>) {
    forall i | 0 <= i < |acts| :: !acts[i].Request?
  }

  ghost predicate Publications(acts: seq<Action>) {
    forall i | 0 <= i < |acts| :: acts[i].Publish?
  }

  /** After publications, whatever they are, the request of one more scrape is served; then there are
      no more requests, and every scrape reads what it has left. */
  ghost predicate Completes(cfg: Config, s: State, pubs: seq<Action>, rest: seq<Action>, e: State)
    requires WellFormed(cfg, s)
  {
    && Publications(pubs) && IsRun(cfg, s, pubs)
    && var m := After(cfg, s, pubs);
    && Enabled(cfg, m, Request)
    && var r := Step(cfg, m, Request);
    && Requestless(rest) && IsRun(cfg, r, rest) && After(cfg, r, rest) == e
    && WellFormed(cfg, e) && NothingLeft(cfg, e)
  }

  lemma {:induction false} RequestlessKeepsBalance(cfg: Config, s: State, acts: seq<Action>, k: Key, ser: Series)
    requires WellFormed(cfg, s) && IsRun(cfg, s, acts) && Requestless(acts) && Counts(cfg, k, ser)
    ensures k in s.cached && k in After(cfg, s, acts).cached
    ensures Balance(cfg, After(cfg, s, acts), k, ser) == Balance(cfg, s, k, ser)
    decreases |acts|
  {
    hide Enabled, Balance, Next;
    if acts != [] {
      StepBalances(cfg, s, acts[0], k, ser);
      RequestlessKeepsBalance(cfg, Step(cfg, s, acts[0]), acts[1..], k, ser);
    }
  }

  lemma {:induction false} PublicationsKeepScrapes(cfg: Config, s: State, acts: seq<Action>)
    requires WellFormed(cfg, s) && IsRun(cfg, s, acts) && Publications(acts)
    ensures After(cfg, s, acts).scrapes == s.scrapes && Requestless(acts)
    decreases |acts|
  {
    if acts != [] {
      PublicationsKeepScrapes(cfg, Step(cfg, s, acts[0]), acts[1..]);
    }
  }

  /** The metrics that scrapes have left to read, counted once for each scrape. */
  function Work(scrapes: seq<Scrape>): (n: nat) {
    if scrapes == [] then 0 else |scrapes[|scrapes| - 1].left| + Work(scrapes[..|scrapes| - 1])
  }

  lemma {:induction false} WorkUpdate(scrapes: seq<Scrape>, i: nat, scrape: Scrape)
    requires i < |scrapes|
    ensures Work(scrapes[i := scrape]) == Work(scrapes) - |scrapes[i].left| + |scrape.left|
  {
    var n := |scrapes| - 1;
    if i < n {
      assert scrapes[i := scrape][..n] == scrapes[..n][i := scrape];
      WorkUpdate(scrapes[..n], i, scrape);
    } else {
      assert scrapes[i := scrape][..n] == scrapes[..n];
    }
  }

  /** All scrapes can read what they have left. */
  lemma {:induction false} ScrapesFinish(cfg: Config, s: State) returns (rest: seq<Action>)
    requires WellFormed(cfg, s)
    ensures IsRun(cfg, s, rest) && Requestless(rest) && NothingLeft(cfg, After(cfg, s, rest))
    decreases Work(s.scrapes)
  {
    if i, k :| 0 <= i < |s.scrapes| && k in s.scrapes[i].left {
      var a := Read(i, k);
      ReadFrame(cfg, s, a);
      WorkUpdate(s.scrapes, i, s.scrapes[i].(left := s.scrapes[i].left - {k}));
      hide WellFormed;
      var tail := ScrapesFinish(cfg, Step(cfg, s, a));
      rest := [a] + tail;
      assert rest[0] == a && rest[1..] == tail;
    } else {
      rest := [];
    }
  }

  /** A label that fits the vector of a metric. */
  function SomeLabel(cfg: Config, k: Key): (r: Label)
    requires k in cfg.metrics
  {
    if cfg.metrics[k].nhaType then "replica" else QMGR_LABEL
  }

  lemma SomeLabelFits(cfg: Config, k: Key)
    requires IsDelta(cfg, k)
    ensures Counts(cfg, k, SeriesOf(SomeLabel(cfg, k), cfg.qmName))
  {
  }

  /** Publications after which the request of another scrape shifts the balance: none, or one unit. */
  lemma RequestCanShift(cfg: Config, s: State, k: Key, ser: Series) returns (pubs: seq<Action>)
    requires WellFormed(cfg, s) && Described(cfg, s) && IsDelta(cfg, k) && Pending(s.scrapes, k) > 0
    requires ser == SeriesOf(SomeLabel(cfg, k), cfg.qmName)
    ensures Publications(pubs) && IsRun(cfg, s, pubs)
    ensures var m := After(cfg, s, pubs);
            && k in m.cached && Shift(cfg, m, k, ser) != 0.0 && Enabled(cfg, m, Request)
  {
    var name, c, v := SomeLabel(cfg, k), Cached(s.cached[k], ser, cfg.qmName), Shown(cfg, s, k, ser);
    var n := Pending(s.scrapes, k);
    if c != v {
      pubs := [];
      NotZero(n, c - v);
    } else {
      var a := Publish(k, name, 1);
      AccumulateAdds(s.cached[k], name, 1, ser, cfg.qmName);
      var m := Step(cfg, s, a);
      hide Total, Cached;
      assert Shown(cfg, m, k, ser) == v && Cached(m.cached[k], ser, cfg.qmName) == c + 1.0;
      NotZero(n, 1.0);
      pubs := [a];
      assert pubs[1..] == [] && IsRun(cfg, m, []);
      assert After(cfg, s, pubs) == m;
    }
  }

  lemma NotZero(n: nat, x: real)
    requires n > 0 && x != 0.0
    ensures Times(n, x) != 0.0
  {
  }

  lemma EarlyRequestBreaksLaw(cfg: Config, s: State)
    returns (pubs: seq<Action>, rest: seq<Action>, e: State)
    requires Reached(cfg, s) && Described(cfg, s) && !NothingLeft(cfg, s)
    ensures WellFormed(cfg, s) && Completes(cfg, s, pubs, rest, e) && !LawHolds(cfg, e)
  {
    ReachedIsBalanced(cfg, s);
    var i, k :| 0 <= i < |s.scrapes| && k in s.scrapes[i].left && IsDelta(cfg, k);
    var ser := SeriesOf(SomeLabel(cfg, k), cfg.qmName);
    SomeLabelFits(cfg, k);
    PendingIff(s.scrapes, k);
    pubs := RequestCanShift(cfg, s, k, ser);
    PublicationsKeepScrapes(cfg, s, pubs);
    RequestlessKeepsBalance(cfg, s, pubs, k, ser);
    var m := After(cfg, s, pubs);
    StepBalances(cfg, m, Request, k, ser);
    var r := Step(cfg, m, Request);
    rest := ScrapesFinish(cfg, r);
    RequestlessKeepsBalance(cfg, r, rest, k, ser);
    e := After(cfg, r, rest);
    LawIsBalance(cfg, e, k, ser);
    assert Balance(cfg, s, k, ser) == 0.0;
  }

  lemma TimelyBalance(cfg: Config, s: State, pubs: seq<Action>, rest: seq<Action>, e: State, k: Key, ser: Series)
    requires WellFormed(cfg, s) && NothingLeft(cfg, s) && Completes(cfg, s, pubs, rest, e) && Counts(cfg, k, ser)
    ensures k in s.cached && k in e.cached && Balance(cfg, e, k, ser) == Balance(cfg, s, k, ser)
  {
    hide Balance, Next, Enabled, Cached, Shift, InFlight;
    PublicationsKeepScrapes(cfg, s, pubs);
    var m := After(cfg, s, pubs);
    RequestlessKeepsBalance(cfg, s, pubs, k, ser);
    NoShift(cfg, m, k, ser);
    StepBalances(cfg, m, Request, k, ser);
    RequestlessKeepsBalance(cfg, Step(cfg, m, Request), rest, k, ser);
  }

  lemma TimelyRequestKeepsLaw(cfg: Config, s: State, pubs: seq<Action>, rest: seq<Action>, e: State)
    requires Reached(cfg, s) && WellFormed(cfg, s) && NothingLeft(cfg, s) && Completes(cfg, s, pubs, rest, e)
    ensures LawHolds(cfg, e)
  {
    ReachedIsBalanced(cfg, s);
    assert WellFormed(cfg, e) && NothingLeft(cfg, e);
    hide Completes;
    forall k, ser | Counts(cfg, k, ser)
      ensures Conserved(cfg, e, k, ser)
    {
      TimelyBalance(cfg, s, pubs, rest, e, k, ser);
      LawIsBalance(cfg, e, k, ser);
      assert Balance(cfg, s, k, ser) == 0.0;
    }
  }

  /** Exactly when a request may be served: as long as requests have been orderly, the law holds in the
      end, whatever is published before the next request, if and only if that request is served while
      no other scrape has counters left to read. */
  lemma RequestIsSafeIff(cfg: Config, s: State)
    requires Reached(cfg, s) && WellFormed(cfg, s) && Described(cfg, s)
    ensures (forall pubs, rest, e | Completes(cfg, s, pubs, rest, e) :: LawHolds(cfg, e)) <==> NothingLeft(cfg, s)
  {
    hide Reached, WellFormed, Described, NothingLeft, LawHolds, Step;
    if NothingLeft(cfg, s) {
      forall pubs, rest, e | Completes(cfg, s, pubs, rest, e)
        ensures LawHolds(cfg, e)
      {
        TimelyRequestKeepsLaw(cfg, s, pubs, rest, e);
      }
    } else {
      var pubs, rest, e := EarlyRequestBreaksLaw(cfg, s);
    }
  }

  /** Scrapes do get into that state: after the description and one request, all is left to read. */
  lemma ScrapeInProgress(cfg: Config, k: Key) returns (s: State)
    requires cfg.metrics == map[k := Info(Delta, false)]
    ensures Reached(cfg, s) && WellFormed(cfg, s) && Described(cfg, s) && !NothingLeft(cfg, s)
  {
    var zero: (Key, Series) -> real := (k, ser) => 0.0;
    var s0 := State(map[k := map[]], map[], map[], true, [], zero, zero, zero);
    InitialBalanced(cfg, s0);
    var acts := [Describe(k), Request];
    var s1 := Step(cfg, s0, acts[0]);
    assert acts[1..] == [Request] && acts[1..][1..] == [];
    s := Step(cfg, s1, Request);
    assert IsRun(cfg, s1, [Request]) && IsRun(cfg, s0, acts);
    assert NothingLeft(cfg, s1) && Orderly(cfg, s1, [Request]) && Orderly(cfg, s0, acts);
    assert After(cfg, s1, [Request]) == s && After(cfg, s0, acts) == s;
    assert k in s.scrapes[0].left;
  }

  /** The part of a state that matters for one series. */
  datatype View = View(shown: real, pending: nat, cached: real, published: real, balance: real)

  ghost function ViewOf(cfg: Config, s: State, k: Key, ser: Series): (view: View)
    requires k in s.cached
  {
    View(Shown(cfg, s, k, ser), Pending(s.scrapes, k), Cached(s.cached[k], ser, cfg.qmName), s.published(k, ser),
         Balance(cfg, s, k, ser))
  }

  lemma RequestViews(cfg: Config, s: State, k: Key, ser: Series)
    requires WellFormed(cfg, s) && Described(cfg, s) && Counts(cfg, k, ser)
    ensures var s', v := Next(cfg, s, Request), ViewOf(cfg, s, k, ser);
            && k in s'.cached && Described(cfg, s')
            && ViewOf(cfg, s', k, ser) ==
               View(v.cached, v.pending + 1, 0.0, v.published,
                    v.balance + Times(v.pending, v.cached - v.shown))
  {
    assert NormaliseAll(Delta, s.cached[k]).Keys == s.cached[k].Keys;
    PendingMore(s.scrapes, Scrape(cfg.metrics.Keys, false), k);
    NothingCached(ser, cfg.qmName);
    StepBalances(cfg, s, Request, k, ser);
    hide Total, Balance, Pending, Times;
  }

  lemma PublishViews(cfg: Config, s: State, k: Key, name: Label, value: nat)
    requires WellFormed(cfg, s) && Described(cfg, s) && Counts(cfg, k, SeriesOf(name, cfg.qmName))
    ensures var ser, s' := SeriesOf(name, cfg.qmName), Next(cfg, s, Publish(k, name, value));
            var v := ViewOf(cfg, s, k, ser);
            && k in s'.cached && Described(cfg, s')
            && ViewOf(cfg, s', k, ser) ==
               v.(cached := v.cached + value as real, published := v.published + value as real)
  {
    var ser := SeriesOf(name, cfg.qmName);
    AccumulateAdds(s.cached[k], name, value, ser, cfg.qmName);
    StepBalances(cfg, s, Publish(k, name, value), k, ser);
    hide Total, Balance, Pending, Cached;
  }

  /** A run leads from `s` to `e`. */
  ghost predicate Leads(cfg: Config, s: State, e: State) {
    WellFormed(cfg, s) && exists acts: seq<Action> :: IsRun(cfg, s, acts) && After(cfg, s, acts) == e
  }

  lemma {:induction false} RunLeadsOn(cfg: Config, s: State, acts: seq<Action>, e: State)
    requires WellFormed(cfg, s) && IsRun(cfg, s, acts) && Leads(cfg, After(cfg, s, acts), e)
    ensures Leads(cfg, s, e)
    decreases |acts|
  {
    hide Enabled, Next;
    if acts != [] {
      var m := Step(cfg, s, acts[0]);
      RunLeadsOn(cfg, m, acts[1..], e);
      var tail: seq<Action> :| IsRun(cfg, m, tail) && After(cfg, m, tail) == e;
      var all := [acts[0]] + tail;
      assert all[0] == acts[0] && all[1..] == tail;
      assert IsRun(cfg, s, all) && After(cfg, s, all) == e;
    }
  }

  lemma LeadsOver(cfg: Config, s: State, m: State, e: State)
    requires Leads(cfg, s, m) && Leads(cfg, m, e)
    ensures Leads(cfg, s, e)
  {
    var acts: seq<Action> :| IsRun(cfg, s, acts) && After(cfg, s, acts) == m;
    RunLeadsOn(cfg, s, acts, e);
  }

  lemma StepLeads(cfg: Config, s: State, a: Action)
    requires WellFormed(cfg, s) && Enabled(cfg, s, a)
    ensures Leads(cfg, s, Step(cfg, s, a))
  {
    hide Enabled, Next, WellFormed;
    var m := Step(cfg, s, a);
    assert [a][0] == a && [a][1..] == [];
    assert IsRun(cfg, m, []) && After(cfg, m, []) == m;
    assert IsRun(cfg, s, [a]) && After(cfg, s, [a]) == m;
  }

  lemma PublishStep(cfg: Config, s: State, k: Key, value: nat) returns (m: State)
    requires WellFormed(cfg, s) && Described(cfg, s) && IsDelta(cfg, k)
    ensures Leads(cfg, s, m) && WellFormed(cfg, m) && Described(cfg, m) && k in m.cached && m.scrapes == s.scrapes
    ensures var ser := SeriesOf(SomeLabel(cfg, k), cfg.qmName); var v := ViewOf(cfg, s, k, ser);
            ViewOf(cfg, m, k, ser) ==
              v.(cached := v.cached + value as real, published := v.published + value as real)
  {
    var a := Publish(k, SomeLabel(cfg, k), value);
    SomeLabelFits(cfg, k);
    PublishViews(cfg, s, k, a.name, value);
    m := Step(cfg, s, a);
    hide ViewOf, Next, WellFormed, Described, Counts, Leads;
    StepLeads(cfg, s, a);
  }

  lemma RequestStep(cfg: Config, s: State, k: Key) returns (r: State)
    requires WellFormed(cfg, s) && Described(cfg, s) && IsDelta(cfg, k)
    ensures Leads(cfg, s, r) && WellFormed(cfg, r) && Described(cfg, r) && k in r.cached
    ensures r.scrapes == s.scrapes + [Scrape(cfg.metrics.Keys, false)]
    ensures var ser := SeriesOf(SomeLabel(cfg, k), cfg.qmName); var v := ViewOf(cfg, s, k, ser);
            ViewOf(cfg, r, k, ser) ==
              View(v.cached, v.pending + 1, 0.0, v.published, v.balance + Times(v.pending, v.cached - v.shown))
  {
    SomeLabelFits(cfg, k);
    RequestViews(cfg, s, k, SeriesOf(SomeLabel(cfg, k), cfg.qmName));
    r := Step(cfg, s, Request);
    hide ViewOf, Next, WellFormed, Described, Counts, Leads, Times;
    StepLeads(cfg, s, Request);
  }

  lemma ScrapesEnd(cfg: Config, s: State, k: Key, ser: Series) returns (e: State)
    requires WellFormed(cfg, s) && Counts(cfg, k, ser)
    ensures Leads(cfg, s, e) && WellFormed(cfg, e) && NothingLeft(cfg, e) && k in s.cached && k in e.cached
    ensures Balance(cfg, e, k, ser) == Balance(cfg, s, k, ser)
  {
    hide WellFormed, NothingLeft, Balance;
    var rest := ScrapesFinish(cfg, s);
    RequestlessKeepsBalance(cfg, s, rest, k, ser);
    e := After(cfg, s, rest);
  }

  /** What the ledger has too much, or too little, once nothing is left to read. */
  lemma BalanceAtRest(cfg: Config, e: State, k: Key, ser: Series)
    requires WellFormed(cfg, e) && NothingLeft(cfg, e) && Counts(cfg, k, ser)
    ensures k in e.cached
    ensures Counter(e, k, ser) + e.skipped(k, ser) + e.discarded(k, ser) + Cached(e.cached[k], ser, cfg.qmName)
         == e.published(k, ser) + Balance(cfg, e, k, ser)
  {
    NothingPending(cfg, e, k);
    hide Cached, Counter, Shown, Pending;
  }

  lemma OverlapViews(cfg: Config, s: State, k: Key, a: nat, b: nat) returns (m: State, r: State)
    requires WellFormed(cfg, s) && Described(cfg, s) && IsDelta(cfg, k)
    requires var v := ViewOf(cfg, s, k, SeriesOf(SomeLabel(cfg, k), cfg.qmName)); v.pending == 0 && v.cached == 0.0
    ensures Leads(cfg, s, m) && Leads(cfg, m, r) && WellFormed(cfg, r) && k in m.cached && k in r.cached
    ensures var unread := Scrape(cfg.metrics.Keys, false);
            m.scrapes == s.scrapes + [unread] && r.scrapes == m.scrapes + [unread]
    ensures var ser := SeriesOf(SomeLabel(cfg, k), cfg.qmName);
            var v, w, x := ViewOf(cfg, s, k, ser), ViewOf(cfg, m, k, ser), ViewOf(cfg, r, k, ser);
            && w.published == v.published + a as real && x.published == w.published + b as real
            && x.balance == v.balance + b as real - a as real
  {
    hide ViewOf, WellFormed, Described, Leads;
    var s1 := PublishStep(cfg, s, k, a);
    m := RequestStep(cfg, s1, k);
    LeadsOver(cfg, s, s1, m);
    var s3 := PublishStep(cfg, m, k, b);
    r := RequestStep(cfg, s3, k);
    LeadsOver(cfg, m, s3, r);
  }

  lemma RestView(cfg: Config, s: State, k: Key, ser: Series)
    requires Reached(cfg, s) && NothingLeft(cfg, s) && Counts(cfg, k, ser) && k in s.cached && s.cached[k] == map[]
    ensures var v := ViewOf(cfg, s, k, ser); v.pending == 0 && v.cached == 0.0 && v.balance == 0.0
  {
    ReachedIsBalanced(cfg, s);
    NothingPending(cfg, s, k);
    NothingCached(ser, cfg.qmName);
    assert Balance(cfg, s, k, ser) == 0.0;
  }

  /** Two scrapes that overlap: publications of `a` and `b`, each followed by a request, and only then
      do both scrapes read. What was published before the first request is missing from the ledger in
      the end, and what was published before the second is in it twice. */
  lemma OverlapMiscounts(cfg: Config, s: State, k: Key, a: nat, b: nat) returns (m: State, r: State, e: State)
    requires Reached(cfg, s) && WellFormed(cfg, s) && Described(cfg, s) && NothingLeft(cfg, s) && IsDelta(cfg, k)
    requires s.cached[k] == map[]
    ensures var ser := SeriesOf(SomeLabel(cfg, k), cfg.qmName);
            && Leads(cfg, s, m) && Leads(cfg, m, r) && Leads(cfg, r, e) && NothingLeft(cfg, e) && k in e.cached
            && m.scrapes == s.scrapes + [Scrape(cfg.metrics.Keys, false)]
            && r.scrapes == m.scrapes + [Scrape(cfg.metrics.Keys, false)]
            && m.published(k, ser) == s.published(k, ser) + a as real
            && r.published(k, ser) == m.published(k, ser) + b as real
            && Counter(e, k, ser) + e.skipped(k, ser) + e.discarded(k, ser) + Cached(e.cached[k], ser, cfg.qmName)
               == e.published(k, ser) - a as real + b as real
  {
    var ser := SeriesOf(SomeLabel(cfg, k), cfg.qmName);
    SomeLabelFits(cfg, k);
    RestView(cfg, s, k, ser);
    hide Cached, Counter, Shown, Leads, WellFormed, Reached, Described, NothingLeft, Balance, Pending, Counts;
    m, r := OverlapViews(cfg, s, k, a, b);
    e := ScrapesEnd(cfg, r, k, ser);
    BalanceAtRest(cfg, e, k, ser);
  }
}
