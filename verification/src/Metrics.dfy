/** `internal/metrics/exporter.go` and `update.go`: from publications of metric data, through the
    values cached for each label, to the counters and gauges that Prometheus scrapes. */
module Metrics {
  type Key = string
  type Label = string

  /** The values of the labels of one Prometheus series. */
  type Series = seq<string>

  /** The data types of a metric. Percentages are normalised as hundredths are. */
  datatype Kind = Delta | Hundredths | Megabytes | Gigabytes | Microseconds | Plain

  datatype Info = Info(kind: Kind, nhaType: bool)

  const QMGR_LABEL := "@self"
  const NHA_PREFIX := "@NATIVEHA@"

  /** How many label values a vector takes. */
  function Arity(info: Info): (n: nat) {
    if info.nhaType then 2 else 1
  }

  /** strings.ReplaceAll(s, NHA_PREFIX, "") */
  function WithoutPrefix(s: string): (text: string)
    decreases |s|
  {
    if s == "" then ""
    else if NHA_PREFIX <= s then WithoutPrefix(s[|NHA_PREFIX|..])
    else [s[0]] + WithoutPrefix(s[1..])
  }

  function SeriesOf(name: Label, qmName: string): (series: Series) {
    if name == QMGR_LABEL then [qmName]
    else if NHA_PREFIX <= name then [WithoutPrefix(name), qmName]
    else [name, qmName]
  }

  /** mqmetric.Normalise */
  function Normalise(kind: Kind, value: nat): (x: real) {
    match kind
    case Hundredths => value as real / 100.0
    case Megabytes => value as real * 1024.0 * 1024.0
    case Gigabytes => value as real * 1024.0 * 1024.0 * 1024.0
    case Microseconds => value as real / 1000000.0
    case _ => value as real
  }

  function NormaliseAll(kind: Kind, cached: map<Label, nat>): (r: map<Label, real>) {
    map l | l in cached :: Normalise(kind, cached[l])
  }

  /** The value of a series, one that does not exist counting as zero. */
  function Get(vec: map<Series, real>, s: Series): (x: real) {
    if s in vec then vec[s] else 0.0
  }

  // ---------------------------------------------------------------- sums over labels

  /** What the labels of one series add up to. */
  ghost function Total(values: map<Label, real>, labels: set<Label>, s: Series, qmName: string): (x: real)
    requires labels <= values.Keys
    decreases labels
  {
    if labels == {} then 0.0
    else
      var l :| l in labels;
      Part(values, l, s, qmName) + Total(values, labels - {l}, s, qmName)
  }

  function Part(values: map<Label, real>, l: Label, s: Series, qmName: string): (x: real)
    requires l in values
  {
    if SeriesOf(l, qmName) == s then values[l] else 0.0
  }

  /** The order of the labels does not matter. */
  lemma {:induction false} TotalTakes(values: map<Label, real>, labels: set<Label>, l: Label, s: Series, qmName: string)
    requires labels <= values.Keys && l in labels
    ensures Total(values, labels, s, qmName) == Part(values, l, s, qmName) + Total(values, labels - {l}, s, qmName)
    decreases labels
  {
    var m :| m in labels && Total(values, labels, s, qmName)
      == Part(values, m, s, qmName) + Total(values, labels - {m}, s, qmName);
    if m != l {
      TotalTakes(values, labels - {m}, l, s, qmName);
      TotalTakes(values, labels - {l}, m, s, qmName);
      assert labels - {m} - {l} == labels - {l} - {m};
    }
  }

  lemma {:induction false} TotalSame(values: map<Label, real>, values': map<Label, real>, labels: set<Label>, s: Series,
      qmName: string)
    requires labels <= values.Keys && labels <= values'.Keys && forall l | l in labels :: values'[l] == values[l]
    ensures Total(values', labels, s, qmName) == Total(values, labels, s, qmName)
    decreases labels
  {
    if labels != {} {
      var l :| l in labels;
      TotalTakes(values, labels, l, s, qmName);
      TotalTakes(values', labels, l, s, qmName);
      TotalSame(values, values', labels - {l}, s, qmName);
    }
  }

  /** What is cached for a series of a delta metric. */
  ghost function Cached(cached: map<Label, nat>, s: Series, qmName: string): (x: real) {
    Total(NormaliseAll(Delta, cached), cached.Keys, s, qmName)
  }

  /** A publication of a delta adds to what is cached for its label. */
  function Accumulate(cached: map<Label, nat>, name: Label, value: nat): (r: map<Label, nat>) {
    cached[name := value + if name in cached then cached[name] else 0]
  }

  lemma AccumulateAdds(cached: map<Label, nat>, name: Label, value: nat, s: Series, qmName: string)
    ensures Cached(Accumulate(cached, name, value), s, qmName)
         == Cached(cached, s, qmName) + if SeriesOf(name, qmName) == s then value as real else 0.0
  {
    var cached' := Accumulate(cached, name, value);
    var v, v' := NormaliseAll(Delta, cached), NormaliseAll(Delta, cached');
    TotalTakes(v', cached'.Keys, name, s, qmName);
    assert cached'.Keys - {name} == cached.Keys - {name};
    TotalSame(v, v', cached.Keys - {name}, s, qmName);
    if name in cached {
      TotalTakes(v, cached.Keys, name, s, qmName);
    } else {
      assert cached.Keys - {name} == cached.Keys;
    }
  }

  lemma NothingCached(s: Series, qmName: string)
    ensures Cached(map[], s, qmName) == 0.0
  {
  }

  // ---------------------------------------------------------------- vectors

  /** `c'` is the counter vector `c` with the values added, series by series. */
  ghost predicate Added(c: map<Series, real>, c': map<Series, real>, values: map<Label, real>, labels: set<Label>,
      arity: nat, qmName: string)
    requires labels <= values.Keys
  {
    forall s: Series :: Get(c', s) == Get(c, s) + if |s| == arity then Total(values, labels, s, qmName) else 0.0
  }

  /** The series of the labels that fit a vector. */
  function Fitting(labels: set<Label>, arity: nat, qmName: string): (r: set<Series>) {
    set l | l in labels && |SeriesOf(l, qmName)| == arity :: SeriesOf(l, qmName)
  }

  /** A counter vector once values have been added to it. */
  ghost function Increased(c: map<Series, real>, values: map<Label, real>, arity: nat, qmName: string):
      (r: map<Series, real>) {
    map s | s in c.Keys + Fitting(values.Keys, arity, qmName) ::
      Get(c, s) + if |s| == arity then Total(values, values.Keys, s, qmName) else 0.0
  }

  lemma {:induction false} NoLabelNoTotal(values: map<Label, real>, labels: set<Label>, s: Series, qmName: string)
    requires labels <= values.Keys && forall l | l in labels :: SeriesOf(l, qmName) != s
    ensures Total(values, labels, s, qmName) == 0.0
    decreases labels
  {
    if labels != {} {
      var l :| l in labels;
      TotalTakes(values, labels, l, s, qmName);
      NoLabelNoTotal(values, labels - {l}, s, qmName);
    }
  }

  lemma IncreasedAdds(c: map<Series, real>, values: map<Label, real>, arity: nat, qmName: string)
    ensures Added(c, Increased(c, values, arity, qmName), values, values.Keys, arity, qmName)
  {
    var c' := Increased(c, values, arity, qmName);
    forall s: Series
      ensures Get(c', s) == Get(c, s) + if |s| == arity then Total(values, values.Keys, s, qmName) else 0.0
    {
      if s !in c' && |s| == arity {
        NoLabelNoTotal(values, values.Keys, s, qmName);
      }
    }
  }

  lemma NothingAdded(c: map<Series, real>, values: map<Label, real>, arity: nat, qmName: string)
    ensures Added(c, c, values, {}, arity, qmName)
  {
  }

  lemma AddedOne(c: map<Series, real>, c': map<Series, real>, values: map<Label, real>, done: set<Label>, l: Label,
      arity: nat, qmName: string)
    requires done <= values.Keys && l in values && l !in done
    requires Added(c, c', values, done, arity, qmName)
    ensures var s := SeriesOf(l, qmName);
            Added(c, if |s| == arity then c'[s := Get(c', s) + values[l]] else c', values, done + {l}, arity, qmName)
  {
    var t := SeriesOf(l, qmName);
    var c2 := if |t| == arity then c'[t := Get(c', t) + values[l]] else c';
    forall s: Series
      ensures Get(c2, s) == Get(c, s) + if |s| == arity then Total(values, done + {l}, s, qmName) else 0.0
    {
      TotalTakes(values, done + {l}, l, s, qmName);
      assert done + {l} - {l} == done;
      assert Get(c', s) == Get(c, s) + if |s| == arity then Total(values, done, s, qmName) else 0.0;
    }
  }

  lemma FittingMore(labels: set<Label>, l: Label, arity: nat, qmName: string)
    ensures var s := SeriesOf(l, qmName);
            Fitting(labels + {l}, arity, qmName) == Fitting(labels, arity, qmName) + if |s| == arity then {s} else {}
  {
  }

  lemma AddedIsIncreased(c: map<Series, real>, c': map<Series, real>, values: map<Label, real>, arity: nat,
      qmName: string)
    requires Added(c, c', values, values.Keys, arity, qmName)
    requires c'.Keys == c.Keys + Fitting(values.Keys, arity, qmName)
    ensures c' == Increased(c, values, arity, qmName)
  {
    hide Total;
    var all := Increased(c, values, arity, qmName);
    forall s | s in c'
      ensures c'[s] == all[s]
    {
      assert Get(c', s) == Get(c, s) + if |s| == arity then Total(values, values.Keys, s, qmName) else 0.0;
    }
  }

  /** The inner loop of Collect for a counter: a label that does not fit the vector is logged and lost. */
  method AddValues(c: map<Series, real>, values: map<Label, real>, arity: nat, qmName: string)
    returns (c': map<Series, real>)
    ensures Added(c, c', values, values.Keys, arity, qmName)
    ensures c' == Increased(c, values, arity, qmName)
  {
    hide Total, Added, Increased, Fitting;
    NothingAdded(c, values, arity, qmName);
    assert Fitting({}, arity, qmName) == {} by { NothingFits(arity, qmName); }
    c' := c;
    var todo := values.Keys;
    ghost var done: set<Label> := {};
    while todo != {}
      invariant todo !! done && todo + done == values.Keys
      invariant Added(c, c', values, done, arity, qmName)
      invariant c'.Keys == c.Keys + Fitting(done, arity, qmName)
      decreases todo
    {
      var l :| l in todo;
      AddedOne(c, c', values, done, l, arity, qmName);
      FittingMore(done, l, arity, qmName);
      var s := SeriesOf(l, qmName);
      if |s| == arity {
        c' := c'[s := Get(c', s) + values[l]];
      }
      todo, done := todo - {l}, done + {l};
    }
    assert done == values.Keys;
    AddedIsIncreased(c, c', values, arity, qmName);
  }

  lemma NothingFits(arity: nat, qmName: string)
    ensures Fitting({}, arity, qmName) == {}
  {
  }

  /** A gauge vector shows the labels of a snapshot and no others. */
  ghost predicate Shows(g: map<Series, real>, values: map<Label, real>, labels: set<Label>, arity: nat, qmName: string)
    requires labels <= values.Keys
  {
    && (forall l | l in labels && |SeriesOf(l, qmName)| == arity :: SeriesOf(l, qmName) in g)
    && (forall s | s in g :: |s| == arity && exists l | l in labels :: SeriesOf(l, qmName) == s && g[s] == values[l])
  }

  /** The inner loop of Collect for a gauge, after the reset. */
  method SetValues(values: map<Label, real>, arity: nat, qmName: string) returns (g: map<Series, real>)
    ensures Shows(g, values, values.Keys, arity, qmName)
  {
    g := map[];
    var todo := values.Keys;
    ghost var done: set<Label> := {};
    while todo != {}
      invariant todo !! done && todo + done == values.Keys
      invariant Shows(g, values, done, arity, qmName)
      decreases todo
    {
      var l :| l in todo;
      var s := SeriesOf(l, qmName);
      if |s| == arity {
        g := g[s := values[l]];
      }
      todo, done := todo - {l}, done + {l};
    }
    assert done == values.Keys;
  }

  // ---------------------------------------------------------------- the exporter

  /** The metrics known to the exporter, the values cached by mqmetric, and the vectors. The ledger
      records, for every series, what was published, what the first collect skipped, and what was
      thrown away with a counter that Describe replaced. */
  class Exporter {
    const qmName: string
    const metrics: map<Key, Info>
    var cached: map<Key, map<Label, nat>>
    var values: map<Key, map<Label, real>>
    var counterMap: map<Key, map<Series, real>>
    var gaugeMap: map<Key, map<Series, real>>
    var firstCollect: bool
    ghost var published: (Key, Series) -> real
    ghost var skipped: (Key, Series) -> real
    ghost var discarded: (Key, Series) -> real

    ghost predicate Counts(k: Key, s: Series) {
      k in metrics && metrics[k].kind == Delta && |s| == Arity(metrics[k])
    }

    function Counter(k: Key, s: Series): (x: real)
      reads this
    {
      if k in counterMap then Get(counterMap[k], s) else 0.0
    }

    /** For every series of a delta metric, what was published is what the counter shows, what was
        skipped or discarded, and what is still cached. */
    ghost predicate Valid()
      reads this
    {
      && metrics.Keys <= cached.Keys
      && forall k, s | Counts(k, s) ::
           published(k, s) == Counter(k, s) + skipped(k, s) + discarded(k, s) + Cached(cached[k], s, qmName)
    }

    /** The law without what was discarded: it is what a reader of the counters expects. */
    ghost predicate Conserved(k: Key, s: Series)
      reads this
    {
      k in cached && published(k, s) == Counter(k, s) + skipped(k, s) + Cached(cached[k], s, qmName)
    }

    constructor (qmName: string, metrics: map<Key, Info>, elements: set<Key>)
      requires metrics.Keys <= elements
      ensures Valid() && this.metrics == metrics && this.qmName == qmName && cached.Keys == elements
      ensures forall k, s :: skipped(k, s) == discarded(k, s) == published(k, s) == 0.0
      ensures firstCollect && counterMap == map[] && gaugeMap == map[]
    {
      this.qmName := qmName;
      this.metrics := metrics;
      cached := map k | k in elements :: map[];
      values := map[];
      counterMap := map[];
      gaugeMap := map[];
      firstCollect := true;
      published := (k, s) => 0.0;
      skipped := (k, s) => 0.0;
      discarded := (k, s) => 0.0;
    }

    /** A publication reaches mqmetric: a delta is added to what is cached, anything else replaces it. */
    method Publish(k: Key, name: Label, value: nat)
      requires Valid() && k in cached
      modifies this`cached, this`published
      ensures Valid() && cached.Keys == old(cached.Keys)
      ensures forall j | j in cached && j != k :: cached[j] == old(cached)[j]
      ensures name in cached[k] && cached[k] - {name} == old(cached)[k] - {name}
      ensures !(k in metrics && metrics[k].kind == Delta) ==> cached[k][name] == value
      ensures forall j, s :: published(j, s) == old(published)(j, s)
                + if j == k && s == SeriesOf(name, qmName) && k in metrics && metrics[k].kind == Delta
                  then value as real else 0.0
    {
      var isDelta := k in metrics && metrics[k].kind == Delta;
      ghost var before, s0, qm := published, SeriesOf(name, qmName), qmName;
      forall s
        ensures Cached(Accumulate(cached[k], name, value), s, qmName)
             == Cached(cached[k], s, qmName) + if SeriesOf(name, qmName) == s then value as real else 0.0
      {
        AccumulateAdds(cached[k], name, value, s, qmName);
      }
      cached := cached[k := if isDelta then Accumulate(cached[k], name, value) else cached[k][name := value]];
      published := (j, s) => before(j, s) + if j == k && s == s0 && isDelta then value as real else 0.0;
    }

    /** updateMetrics: the cached values become the values of the metrics, and the cache is emptied. */
    method UpdateMetrics()
      requires metrics.Keys <= cached.Keys
      modifies this`cached, this`values
      ensures cached.Keys == old(cached.Keys)
      ensures forall k | k in cached :: cached[k] == map[]
      ensures forall k | k in metrics :: k in values && values[k] == NormaliseAll(metrics[k].kind, old(cached)[k])
    {
      hide NormaliseAll;
      hide Total;
      var todo := cached.Keys;
      while todo != {}
        invariant todo <= cached.Keys == old(cached.Keys)
        invariant forall k | k in todo :: cached[k] == old(cached)[k]
        invariant forall k | k in cached && k !in todo :: cached[k] == map[]
        invariant forall k | k in metrics && k !in todo ::
          k in values && values[k] == NormaliseAll(metrics[k].kind, old(cached)[k])
        decreases todo
      {
        var k :| k in todo;
        if k in metrics {
          values := values[k := NormaliseAll(metrics[k].kind, cached[k])];
        }
        cached := cached[k := map[]];
        todo := todo - {k};
      }
    }

    /** Every metric has the vector of its kind. */
    ghost predicate Described()
      reads this
    {
      forall k | k in metrics :: if metrics[k].kind == Delta then k in counterMap else k in gaugeMap
    }

    /** New vectors for all metrics. A counter that is replaced starts again at zero: what it had
        counted is discarded, so the law survives for a series exactly if its counter showed zero. */
    method Describe()
      requires Valid()
      modifies this`counterMap, this`gaugeMap, this`discarded
      ensures Valid() && Described()
      ensures forall k, s | Counts(k, s) ::
        Counter(k, s) == 0.0 && discarded(k, s) == old(discarded)(k, s) + old(Counter(k, s))
      ensures forall k, s | Counts(k, s) && old(Conserved(k, s)) :: Conserved(k, s) <==> old(Counter(k, s)) == 0.0
      ensures forall k | k in metrics && metrics[k].kind != Delta :: gaugeMap[k] == map[]
    {
      hide Total;
      ghost var before, counters := discarded, counterMap;
      var todo := metrics.Keys;
      while todo != {}
        invariant todo <= metrics.Keys
        invariant forall k | k in todo :: (k in counterMap <==> k in counters)
        invariant forall k | k in todo && k in counters :: counterMap[k] == counters[k]
        invariant forall k | k in metrics && k !in todo ::
          if metrics[k].kind == Delta then k in counterMap && counterMap[k] == map[]
          else k in gaugeMap && gaugeMap[k] == map[]
        decreases todo
      {
        var k :| k in todo;
        if metrics[k].kind == Delta {
          counterMap := counterMap[k := map[]];
        } else {
          gaugeMap := gaugeMap[k := map[]];
        }
        todo := todo - {k};
      }
      discarded := (k, s) => before(k, s) + if k in counters then Get(counters[k], s) else 0.0;
    }

    /** A scrape, with no request of another one served before it has ended (module `MetricsOverlap` is
        about those that overlap). The first one of the exporter drops what is cached; any other adds it
        to the counters and makes the gauges show the new snapshot only. */
    method Collect()
      requires Valid() && Described()
      modifies this`cached, this`values, this`counterMap, this`gaugeMap, this`firstCollect, this`skipped
      ensures Valid() && Described() && !firstCollect
      ensures cached.Keys == old(cached.Keys) && forall k | k in cached :: cached[k] == map[]
      ensures forall k, s | Counts(k, s) :: var taken := old(Cached(cached[k], s, qmName));
        && Counter(k, s) == old(Counter(k, s)) + (if old(firstCollect) then 0.0 else taken)
        && skipped(k, s) == old(skipped)(k, s) + (if old(firstCollect) then taken else 0.0)
      ensures forall k | k in metrics && metrics[k].kind != Delta ::
        var snapshot := NormaliseAll(metrics[k].kind, old(cached)[k]);
        if old(firstCollect) then gaugeMap[k] == map[]
        else Shows(gaugeMap[k], snapshot, snapshot.Keys, Arity(metrics[k]), qmName)
    {
      hide Total;
      hide Cached;
      hide NormaliseAll;
      hide Shows;
      hide Added;
      ghost var before, was, first, qm := skipped, cached, firstCollect, qmName;
      Refresh();
      firstCollect := false;
      skipped := (k, s) => before(k, s) + if first && k in was then Cached(was[k], s, qm) else 0.0;
      forall s
        ensures Cached(map[], s, qmName) == 0.0
      {
        NothingCached(s, qmName);
      }
    }

    /** Collect but for clearing `firstCollect`. */
    method Refresh()
      requires metrics.Keys <= cached.Keys && Described()
      modifies this`cached, this`values, this`counterMap, this`gaugeMap
      ensures Described() && cached.Keys == old(cached.Keys) && forall k | k in cached :: cached[k] == map[]
      ensures forall k, s | Counts(k, s) ::
        Counter(k, s) == old(Counter(k, s)) + if firstCollect then 0.0 else old(Cached(cached[k], s, qmName))
      ensures forall k | k in metrics && metrics[k].kind != Delta ::
        var snapshot := NormaliseAll(metrics[k].kind, old(cached)[k]);
        if firstCollect then gaugeMap[k] == map[]
        else Shows(gaugeMap[k], snapshot, snapshot.Keys, Arity(metrics[k]), qmName)
    {
      hide Total;
      hide Cached;
      hide NormaliseAll;
      hide Shows;
      hide Added;
      ghost var was, counters := cached, counterMap;
      UpdateMetrics();
      ScrapeAll(counters, was, firstCollect);
      forall k, s | Counts(k, s)
        ensures Counter(k, s) == Get(counters[k], s) + if firstCollect then 0.0 else Cached(was[k], s, qmName)
      {
        CounterAfter(k, s, counters, was, firstCollect);
      }
    }

    /** The loop of Collect over the metrics. */
    method ScrapeAll(ghost counters: map<Key, map<Series, real>>, ghost was: map<Key, map<Label, nat>>,
        ghost first: bool)
      requires first == firstCollect && Snapshot(was) && Described() && counterMap == counters
      modifies this`counterMap, this`gaugeMap
      ensures Described() && forall k | k in metrics :: Scraped(k, counters, was, first)
    {
      hide Total;
      hide Shows;
      hide Added;
      var todo := metrics.Keys;
      while todo != {}
        invariant todo <= metrics.Keys
        invariant Described()
        invariant forall k | k in todo && metrics[k].kind == Delta :: k in counters && counterMap[k] == counters[k]
        invariant forall k | k in metrics && k !in todo :: Scraped(k, counters, was, first)
        decreases todo
      {
        var k :| k in todo;
        Scrape(k, counters, was, first);
        todo := todo - {k};
      }
    }

    /** The part of Collect for one metric. */
    method Scrape(k: Key, ghost counters: map<Key, map<Series, real>>, ghost was: map<Key, map<Label, nat>>,
        ghost first: bool)
      requires k in metrics && first == firstCollect && Snapshot(was) && Described()
      requires metrics[k].kind == Delta ==> k in counters && counterMap[k] == counters[k]
      modifies this`counterMap, this`gaugeMap
      ensures Scraped(k, counters, was, first)
      ensures counterMap.Keys == old(counterMap.Keys) && gaugeMap.Keys == old(gaugeMap.Keys)
      ensures forall j | j in counterMap && j != k :: counterMap[j] == old(counterMap)[j]
      ensures forall j | j in gaugeMap && j != k :: gaugeMap[j] == old(gaugeMap)[j]
    {
      var arity := Arity(metrics[k]);
      if metrics[k].kind == Delta {
        if !firstCollect {
          var c := AddValues(counterMap[k], values[k], arity, qmName);
          counterMap := counterMap[k := c];
        }
      } else {
        gaugeMap := gaugeMap[k := map[]];
        if !firstCollect {
          var g := SetValues(values[k], arity, qmName);
          gaugeMap := gaugeMap[k := g];
        }
      }
    }

    /** The values of the metrics are those that were cached. */
    ghost predicate Snapshot(was: map<Key, map<Label, nat>>)
      reads this`values
    {
      forall k | k in metrics :: k in was && k in values && values[k] == NormaliseAll(metrics[k].kind, was[k])
    }

    /** What Collect, the first one or not, has done with a metric: `counters` are the counters and
        `was` what was cached when it began. */
    ghost predicate Scraped(k: Key, counters: map<Key, map<Series, real>>, was: map<Key, map<Label, nat>>,
        first: bool)
      requires k in metrics
      reads this`counterMap, this`gaugeMap
    {
      && k in was
      && var v := NormaliseAll(metrics[k].kind, was[k]);
      if metrics[k].kind == Delta then
        && k in counters && k in counterMap
        && if first then counterMap[k] == counters[k]
           else Added(counters[k], counterMap[k], v, v.Keys, Arity(metrics[k]), qmName)
      else
        && k in gaugeMap
        && if first then gaugeMap[k] == map[]
           else Shows(gaugeMap[k], v, v.Keys, Arity(metrics[k]), qmName)
    }

    lemma CounterAfter(k: Key, s: Series, counters: map<Key, map<Series, real>>, was: map<Key, map<Label, nat>>,
        first: bool)
      requires Counts(k, s) && Scraped(k, counters, was, first)
      ensures Counter(k, s) == Get(counters[k], s) + if first then 0.0 else Cached(was[k], s, qmName)
    {
      assert NormaliseAll(Delta, was[k]).Keys == was[k].Keys;
    }
  }

  /** An exporter with one counter, described and scraped for the first time. */
  method AfterFirstScrape(qmName: string, k: Key) returns (e: Exporter)
    ensures fresh(e) && e.Valid() && e.Described() && e.Counts(k, [qmName]) && e.qmName == qmName
    ensures e.cached.Keys == {k} && e.cached[k] == map[] && !e.firstCollect
    ensures e.published(k, [qmName]) == e.skipped(k, [qmName]) == 0.0
  {
    hide Total;
    hide Cached;
    NothingCached([qmName], qmName);
    e := new Exporter(qmName, map[k := Info(Delta, false)], {k});
    e.Describe();
    assert e.Counts(k, [qmName]);
    e.Collect();
  }

  /** A counter does not survive a second Describe: one unit is published and scraped, nothing was
      skipped and nothing is left in the cache, and yet the counter is back at zero. */
  method SecondDescribeForgets(qmName: string, k: Key) returns (e: Exporter)
    ensures fresh(e) && e.Valid() && e.Counts(k, [qmName])
    ensures e.published(k, [qmName]) == 1.0 && e.Counter(k, [qmName]) == 0.0
    ensures e.skipped(k, [qmName]) == 0.0 && k in e.cached && e.cached[k] == map[]
  {
    hide Total;
    hide Cached;
    e := AfterFirstScrape(qmName, k);
    e.Publish(k, QMGR_LABEL, 1);
    e.Collect();
    e.Describe();
  }

  // ---------------------------------------------------------------- where a publication is shown

  lemma {:induction false} NothingToRemove(s: string)
    requires forall j | 0 <= j <= |s| :: !("@NATIVEHA@" <= s[j..])
    ensures WithoutPrefix(s) == s
    decreases |s|
  {
    if s != "" {
      assert s[0..] == s;
      forall j | 0 <= j <= |s[1..]|
        ensures !("@NATIVEHA@" <= s[1..][j..])
      {
        assert s[1..][j..] == s[j + 1..];
      }
      NothingToRemove(s[1..]);
    }
  }

  /** The label values of a series: the queue manager's own series has its name, a Native HA series the
      instance, which is the label without its prefix, and then the queue manager, and any other the
      object and then the queue manager. */
  lemma SeriesAre(name: Label, qmName: string)
    ensures SeriesOf("@self", qmName) == [qmName]
    ensures (forall j | 0 <= j <= |name| :: !("@NATIVEHA@" <= name[j..])) ==>
              SeriesOf("@NATIVEHA@" + name, qmName) == [name, qmName]
    ensures name != "@self" && !("@NATIVEHA@" <= name) ==> SeriesOf(name, qmName) == [name, qmName]
  {
    if forall j | 0 <= j <= |name| :: !("@NATIVEHA@" <= name[j..]) {
      var full := "@NATIVEHA@" + name;
      assert full[|NHA_PREFIX|..] == name && NHA_PREFIX <= full && full != "";
      assert full[1] == 'N' && QMGR_LABEL[1] == 's';
      NothingToRemove(name);
    }
  }

  /** A delta published for a Native HA instance and then scraped is counted for the instance and the
      queue manager, in this order, and for no other series of the metric. */
  method NativeHaIsCounted(e: Exporter, k: Key, instance: string, value: nat)
    requires e.Valid() && e.Described() && !e.firstCollect
    requires k in e.metrics && e.metrics[k] == Info(Delta, true) && e.cached[k] == map[]
    requires forall j | 0 <= j <= |instance| :: !("@NATIVEHA@" <= instance[j..])
    modifies e
    ensures forall s: Series | |s| == 2 ::
      e.Counter(k, s) == old(e.Counter(k, s)) + if s == [instance, e.qmName] then value as real else 0.0
  {
    SeriesAre(instance, e.qmName);
    CountOne(e, k, "@NATIVEHA@" + instance, value);
  }

  /** A delta published for the queue manager itself is counted for the queue manager. */
  method QueueManagerIsCounted(e: Exporter, k: Key, value: nat)
    requires e.Valid() && e.Described() && !e.firstCollect
    requires k in e.metrics && e.metrics[k] == Info(Delta, false) && e.cached[k] == map[]
    modifies e
    ensures e.Counter(k, [e.qmName]) == old(e.Counter(k, [e.qmName])) + value as real
  {
    SeriesAre("", e.qmName);
    CountOne(e, k, "@self", value);
  }

  method CountOne(e: Exporter, k: Key, name: Label, value: nat)
    requires e.Valid() && e.Described() && !e.firstCollect
    requires k in e.metrics && e.metrics[k].kind == Delta && e.cached[k] == map[]
    modifies e
    ensures forall s | e.Counts(k, s) ::
      e.Counter(k, s) == old(e.Counter(k, s)) + if s == SeriesOf(name, e.qmName) then value as real else 0.0
  {
    hide Total;
    hide Cached;
    hide SeriesOf;
    hide Shows;
    ghost var qm := e.qmName;
    forall s
      ensures Cached(map[], s, qm) == 0.0
    {
      NothingCached(s, qm);
    }
    e.Publish(k, name, value);
    e.Collect();
  }

  /** A value as it is shown: percentages and hundredths as fractions, sizes in bytes, and times in
      seconds. */
  function InBaseUnits(kind: Kind, value: nat): (x: real) {
    match kind
    case Hundredths => value as real * 0.01
    case Megabytes => value as real * 1048576.0
    case Gigabytes => value as real * 1073741824.0
    case Microseconds => value as real * 0.000001
    case _ => value as real
  }

  lemma NormaliseIs(kind: Kind, value: nat)
    ensures Normalise(kind, value) == InBaseUnits(kind, value)
  {
  }

  /** The only thing a gauge shows after a scrape is what was published, in base units, for the instance
      and the queue manager of a Native HA metric, and for the queue manager otherwise. */
  method GaugeShows(e: Exporter, k: Key, instance: string, value: nat)
    requires e.Valid() && e.Described() && !e.firstCollect
    requires k in e.metrics && e.metrics[k].kind != Delta && e.cached[k] == map[]
    requires forall j | 0 <= j <= |instance| :: !("@NATIVEHA@" <= instance[j..])
    modifies e
    ensures k in e.gaugeMap
    ensures var series := if e.metrics[k].nhaType then [instance, e.qmName] else [e.qmName];
            e.gaugeMap[k] == map[series := InBaseUnits(e.metrics[k].kind, value)]
  {
    hide Total;
    hide Cached;
    hide Normalise;
    hide InBaseUnits;
    var nha, kind := e.metrics[k].nhaType, e.metrics[k].kind;
    var name := if nha then "@NATIVEHA@" + instance else "@self";
    ghost var series := if nha then [instance, e.qmName] else [e.qmName];
    SeriesAre(instance, e.qmName);
    NormaliseIs(kind, value);
    hide SeriesOf;
    e.Publish(k, name, value);
    assert e.cached[k] == map[name := value] by { OnlyLabel(e.cached[k], name, value); }
    e.Collect();
    OneLabelShown(e.gaugeMap[k], kind, name, value, series, e.qmName);
  }

  lemma OnlyLabel(cached: map<Label, nat>, name: Label, value: nat)
    requires name in cached && cached[name] == value && cached - {name} == map[] - {name}
    ensures cached == map[name := value]
  {
    assert (cached - {name}).Keys == cached.Keys - {name};
    var others := cached.Keys - {name};
    assert others == {} && cached.Keys <= {name} + others;
  }

  lemma OneLabelShown(g: map<Series, real>, kind: Kind, name: Label, value: nat, series: Series, qmName: string)
    requires SeriesOf(name, qmName) == series
    requires var v := NormaliseAll(kind, map[name := value]); Shows(g, v, v.Keys, |series|, qmName)
    ensures g == map[series := Normalise(kind, value)]
  {
    hide Normalise;
    hide SeriesOf;
    var v := NormaliseAll(kind, map[name := value]);
    assert v.Keys == {name} && v[name] == Normalise(kind, value);
    assert series in g;
    forall s | s in g
      ensures s == series && g[s] == Normalise(kind, value)
    {
    }
  }
}
