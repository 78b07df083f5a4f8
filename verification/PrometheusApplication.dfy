/** The Prometheus application in the form of its source: maps, expiry lists and the key
    builders are fields, and its methods change them step by step. Collectors and expiry
    records, which the source shares by pointer, are known by their position in two lists. */
module PrometheusApplication {
  import opened CacheRefinement
  import opened ExpirySweep
  import opened MetricCache
  import opened Wrappers

  /** What the record of a new entry holds before it is kept alive. */
  const ZERO_TIME := 0

  lemma ConcatOneMore(vals: seq<string>, i: nat)
    requires i < |vals|
    ensures Concat(vals[..i + 1]) == Concat(vals[..i]) + vals[i]
  {
    if i == 0 {
      assert vals[..1] == [vals[0]] && vals[..0] == [];
      assert Concat([]) == "" && vals[0] + "" == vals[0] == "" + vals[0];
    } else {
      ConcatOneMore(vals[1..], i - 1);
      assert vals[..i + 1][1..] == vals[1..][..i] && vals[..i][1..] == vals[1..][..i - 1];
    }
  }

  /** A round keeps the list of collectors ever created, and which are in use. */
  lemma {:induction false} MetricSweepShape(es: seq<Option<nat>>, h: Heap, now: int, expiry: int)
    ensures var h' := Sweep(es, h, MetricExpired(now, expiry), MetricDelete).1;
            |h'.store| == |h.store| && h'.collectors == h.collectors
  {
    if es != [] {
      MetricSweepShape(es[1..], Visit(es[0], h, MetricExpired(now, expiry), MetricDelete).1, now, expiry);
    }
  }

  lemma {:induction false} CollectorSweepShape(es: seq<Option<CollectorExpiry>>, h: Heap)
    ensures var h' := Sweep(es, h, CollectorExpired, CollectorDelete).1;
            && h'.store == h.store && h'.records == h.records
            && forall d | d in h'.collectors :: d in h.collectors && h'.collectors[d] == h.collectors[d]
  {
    if es != [] {
      CollectorSweepShape(es[1..], Visit(es[0], h, CollectorExpired, CollectorDelete).1);
    }
  }

  /** The entries while a scrape still has some to visit. */
  ghost function Seen(before: map<string, MetricProcess>, todo: set<string>): (r: map<string, MetricProcess>) {
    map k | k in before :: if k in todo then before[k] else before[k].(scrapped := true)
  }

  ghost function HandedOut(cfg: Config, before: map<string, MetricProcess>, todo: set<string>): (r: set<Exposed>) {
    set k | k in before && k !in todo && cfg.accepts(before[k].description, before[k].sample.series.labelVals) ::
      Expose(cfg, before[k].description, before[k].sample)
  }

  lemma NothingSeen(cfg: Config, before: map<string, MetricProcess>)
    ensures Seen(before, before.Keys) == before && HandedOut(cfg, before, before.Keys) == {}
  {
  }

  lemma AllSeen(cfg: Config, c: Cache, d: nat)
    requires Pointers(c) && d in c.heap.collectors
    ensures var id := c.heap.collectors[d];
            && HandedOut(cfg, c.heap.store[id].mProc, {}) == Scraped(cfg, c, d)
            && var seen := c.heap.store[id].(mProc := Seen(c.heap.store[id].mProc, {}));
               Scrape(c, d) == c.(heap := c.heap.(store := c.heap.store[id := seen]))
  {
    hide Expose;
    var before := c.heap.store[c.heap.collectors[d]].mProc;
    assert Seen(before, {}) == map k | k in before :: before[k].(scrapped := true);
  }

  lemma OneMoreSeen(cfg: Config, before: map<string, MetricProcess>, todo: set<string>, k: string)
    requires k in todo && todo <= before.Keys
    ensures k in Seen(before, todo) && Seen(before, todo)[k] == before[k]
    ensures Seen(before, todo)[k := before[k].(scrapped := true)] == Seen(before, todo - {k})
    ensures HandedOut(cfg, before, todo - {k})
            == HandedOut(cfg, before, todo)
               + (if cfg.accepts(before[k].description, before[k].sample.series.labelVals)
                   then {Expose(cfg, before[k].description, before[k].sample)} else {})
  {
    hide Expose;
  }

  class Prometheus {
    const configuration: Config
    var store: seq<PromCollector>
    var cacheindexbuilders: seq<string>
    var records: seq<MetricExpiry>
    var collectors: map<nat, nat>
    var metricExpiryProcs: map<int, ExpiryProc<nat>>
    const collectorExpiryProc: ExpiryProc<CollectorExpiry>
    ghost var history: seq<Event>

    /** Between two calls the state is that of the run of all calls and sweeps so far. */
    ghost predicate Valid()
      reads this, metricExpiryProcs.Values, collectorExpiryProc
    {
      Ready() && View() == Run(configuration, history)
    }

    /** Every key builder is empty. */
    ghost predicate Ready()
      reads this`store, this`cacheindexbuilders, this`collectors, this`metricExpiryProcs, metricExpiryProcs.Values
    {
      && Linked()
      && |cacheindexbuilders| == |store| && (forall i | 0 <= i < |cacheindexbuilders| :: cacheindexbuilders[i] == "")
    }

    /** Each list has its own process, with the expiry time of its interval. */
    ghost predicate Linked()
      reads this`store, this`collectors, this`metricExpiryProcs, metricExpiryProcs.Values
    {
      && (forall d | d in collectors :: collectors[d] < |store|)
      && (forall i | i in metricExpiryProcs :: metricExpiryProcs[i].interval == Expiry(configuration, i))
      && (forall i, j | i in metricExpiryProcs && j in metricExpiryProcs && i != j ::
         metricExpiryProcs[i] != metricExpiryProcs[j])
    }

    ghost function Lists(): (r: map<int, seq<Option<nat>>>)
      reads this`metricExpiryProcs, metricExpiryProcs.Values
    {
      map i | i in metricExpiryProcs :: metricExpiryProcs[i].entries
    }

    /** The state as a value. */
    ghost function View(): (r: Cache)
      reads this`store, this`records, this`collectors, this`metricExpiryProcs, metricExpiryProcs.Values,
          collectorExpiryProc
    {
      Cache(Heap(store, records, collectors), Lists(), collectorExpiryProc.entries)
    }

    constructor (cfg: Config)
      ensures Valid() && View() == EMPTY && history == [] && configuration == cfg
      ensures fresh(collectorExpiryProc) && metricExpiryProcs == map[]
    {
      configuration := cfg;
      store, cacheindexbuilders, records, collectors, metricExpiryProcs := [], [], [], map[], map[];
      collectorExpiryProc := new ExpiryProc(10_000_000_000);
      history := [];
    }

    /** Runs name and label values together in the collector's builder. */
    method BuildKey(id: nat, series: Series)
      requires id < |cacheindexbuilders| && cacheindexbuilders[id] == ""
      modifies this`cacheindexbuilders
      ensures cacheindexbuilders == old(cacheindexbuilders)[id := CacheKey(series)]
    {
      cacheindexbuilders := cacheindexbuilders[id := cacheindexbuilders[id] + series.name];
      var vals := series.labelVals;
      var i := 0;
      assert vals[..0] == [] && Concat([]) == "" && series.name + "" == series.name == "" + series.name;
      while i < |vals|
        invariant i <= |vals|
        invariant cacheindexbuilders == old(cacheindexbuilders)[id := series.name + Concat(vals[..i])]
      {
        ConcatOneMore(vals, i);
        assert series.name + Concat(vals[..i]) + vals[i] == series.name + Concat(vals[..i + 1]);
        cacheindexbuilders := cacheindexbuilders[id := cacheindexbuilders[id] + vals[i]];
        i := i + 1;
      }
      assert vals[..i] == vals;
    }

    method UpdateMetrics(id: nat, now: int, sample: Sample, interval: int)
      requires Ready() && id < |store| && interval in metricExpiryProcs
      modifies this`store, this`records, this`cacheindexbuilders, metricExpiryProcs[interval]
      ensures Ready()
      ensures View() == MetricCache.UpdateMetrics(old(View()), id, now, sample, interval)
    {
      hide CacheKey, Linked, View;
      BuildKey(id, sample.series);
      var cacheKey := cacheindexbuilders[id];
      if cacheKey !in store[id].mProc {
        AddEntry(id, cacheKey, now, sample, interval);
        cacheindexbuilders := cacheindexbuilders[id := ""];
        return;
      }
      RefreshEntry(id, cacheKey, now, sample);
      cacheindexbuilders := cacheindexbuilders[id := ""];
    }

    method AddEntry(id: nat, cacheKey: string, now: int, sample: Sample, interval: int)
      requires Linked() && id < |store| && cacheKey !in store[id].mProc && interval in metricExpiryProcs
      requires cacheKey == CacheKey(sample.series)
      modifies this`store, this`records, metricExpiryProcs[interval]
      ensures Linked() && |store| == old(|store|)
      ensures View() == MetricCache.UpdateMetrics(old(View()), id, now, sample, interval)
    {
      hide CacheKey;
      var expiry := |records|;
      records := records + [MetricExpiry(ZERO_TIME, id, cacheKey)];
      var description := Desc(sample.series.name, sample.series.labelKeys);
      var mProc := MetricProcess(description, sample, interval, expiry, false);
      store := store[id := store[id].(mProc := store[id].mProc[cacheKey := mProc])];
      metricExpiryProcs[interval].Register(expiry);
      KeepRecordAlive(expiry, now);
      assert records == old(records) + [MetricExpiry(now, id, cacheKey)];
      forall i | i in metricExpiryProcs && i != interval
        ensures metricExpiryProcs[i].entries == old(metricExpiryProcs[i].entries)
      {
        assert metricExpiryProcs[i] != metricExpiryProcs[interval];
      }
      assert Lists() == old(Lists())[interval := old(metricExpiryProcs[interval].entries) + [Some(expiry)]];
    }

    method RefreshEntry(id: nat, cacheKey: string, now: int, sample: Sample)
      requires Linked() && id < |store| && cacheKey in store[id].mProc
      modifies this`store, this`records
      ensures Linked() && |store| == old(|store|)
      ensures forall interval | interval in metricExpiryProcs && cacheKey == CacheKey(sample.series) ::
                View() == MetricCache.UpdateMetrics(old(View()), id, now, sample, interval)
    {
      hide CacheKey;
      var mProc := store[id].mProc[cacheKey];
      store := store[id := store[id].(mProc := store[id].mProc[cacheKey := mProc.(sample := sample)])];
      KeepRecordAlive(mProc.expiry, now);
      assert Lists() == old(Lists());
    }

    method KeepRecordAlive(r: nat, now: int)
      modifies this`records
      ensures records == MetricCache.KeepAlive(Heap([], old(records), map[]), r, now).records
    {
      if r < |records| {
        records := records[r := records[r].(lastArrival := now)];
      }
    }

    /** Finds or creates the collector for a label count. */
    method GetCollector(labelLen: nat) returns (promCol: nat)
      requires Ready()
      modifies this`store, this`cacheindexbuilders, this`collectors, collectorExpiryProc
      ensures Ready() && promCol < |store|
      ensures View() == EnsureCollector(old(View()), labelLen) && promCol == View().heap.collectors[labelLen]
    {
      if labelLen !in collectors {
        promCol := |store|;
        store, cacheindexbuilders := store + [PromCollector(labelLen, map[])], cacheindexbuilders + [""];
        collectors := collectors[labelLen := promCol];
        collectorExpiryProc.Register(CollectorExpiry(promCol, labelLen));
        assert Lists() == old(Lists());
      } else {
        promCol := collectors[labelLen];
      }
    }

    /** Finds or starts the expiry process for an interval. */
    method GetExpiryProc(interval: int)
      requires Ready()
      modifies this`metricExpiryProcs
      ensures Ready() && fresh(metricExpiryProcs.Values - old(metricExpiryProcs.Values))
      ensures interval in metricExpiryProcs && View() == EnsureProc(old(View()), interval)
    {
      if interval !in metricExpiryProcs {
        hide Expiry;
        var ep := new ExpiryProc(Expiry(configuration, interval));
        metricExpiryProcs := metricExpiryProcs[interval := ep];
        assert Lists() == old(Lists())[interval := []];
      }
    }

    method ReceiveSample(now: int, sample: Sample, interval: int)
      requires Ready()
      modifies this`store, this`cacheindexbuilders, this`records, this`collectors, this`metricExpiryProcs
      modifies metricExpiryProcs.Values, collectorExpiryProc
      ensures Ready() && fresh(metricExpiryProcs.Values - old(metricExpiryProcs.Values))
      ensures Pointers(old(View())) && View() == Receive(old(View()), now, sample, interval)
    {
      assert Pointers(View());
      hide View, Ready;
      var promCol := GetCollector(|sample.series.labelKeys|);
      GetExpiryProc(interval);
      UpdateMetrics(promCol, now, sample, interval);
    }

    /** One call finds or creates collector and expiry process, and updates the metric. */
    method ReceiveMetric(now: int, sample: Sample, interval: int)
      requires Valid()
      modifies this, metricExpiryProcs.Values, collectorExpiryProc
      ensures Valid() && fresh(metricExpiryProcs.Values - old(metricExpiryProcs.Values))
      ensures history == old(history) + [Event(now, ReceiveOp(sample, interval))]
      ensures View() == Receive(old(View()), now, sample, interval)
    {
      hide View, Ready, Run, Receive;
      RunOneMore(configuration, history, Event(now, ReceiveOp(sample, interval)));
      ReceiveSample(now, sample, interval);
      history := history + [Event(now, ReceiveOp(sample, interval))];
    }

    /** Walks over the entries of one collector, in any order, and marks each one. */
    method Collect(id: nat) returns (exposed: set<Exposed>)
      requires id < |store|
      modifies this`store
      ensures store == old(store)[id := old(store[id]).(mProc := Seen(old(store[id].mProc), {}))]
      ensures exposed == HandedOut(configuration, old(store[id].mProc), {})
    {
      hide Expose, Seen, HandedOut;
      exposed := {};
      ghost var before := store[id].mProc;
      var todo := store[id].mProc.Keys;
      NothingSeen(configuration, before);
      assert store[id := store[id].(mProc := before)] == store;
      while todo != {}
        invariant todo <= before.Keys
        invariant store == old(store)[id := old(store[id]).(mProc := Seen(before, todo))]
        invariant exposed == HandedOut(configuration, before, todo)
        decreases |todo|
      {
        var k :| k in todo;
        OneMoreSeen(configuration, before, todo, k);
        todo := todo - {k};
        var mProc := store[id].mProc[k];
        store := store[id := store[id].(mProc := store[id].mProc[k := mProc.(scrapped := true)])];
        if configuration.accepts(mProc.description, mProc.sample.series.labelVals) {
          exposed := exposed + {Expose(configuration, mProc.description, mProc.sample)};
        }
      }
    }

    /** A scrape of the collector for a label count, if there is one: it hands out what the map
        of live metrics holds after all calls and sweeps so far. */
    method CollectFor(now: int, d: nat) returns (exposed: set<Exposed>)
      requires Valid()
      modifies this`store, this`history
      ensures Valid() && history == old(history) + [Event(now, ScrapeOp(d))]
      ensures exposed == Scraped(configuration, old(View()), d)
      ensures exposed == SlotScraped(configuration, KeyedRun(configuration, old(history)), LabelCount, d)
      ensures View() == Scrape(old(View()), d)
    {
      CacheRefinesKeyedMap(configuration, history, d);
      RunOneMore(configuration, history, Event(now, ScrapeOp(d)));
      hide Run;
      exposed := ScrapeOf(d);
      history := history + [Event(now, ScrapeOp(d))];
    }

    method ScrapeOf(d: nat) returns (exposed: set<Exposed>)
      requires Ready()
      modifies this`store
      ensures Ready()
      ensures exposed == Scraped(configuration, old(View()), d)
      ensures View() == Scrape(old(View()), d)
    {
      if d in collectors {
        AllSeen(configuration, View(), d);
        hide Expose, Seen, HandedOut, Scrape, Scraped;
        exposed := Collect(collectors[d]);
        assert Lists() == old(Lists());
      } else {
        exposed := {};
      }
    }

    /** One round of the process of an interval, if that process runs at all. */
    method CheckMetrics(now: int, interval: int)
      requires Valid()
      modifies this`store, this`records, this`collectors, this`history, metricExpiryProcs.Values
      ensures Valid() && history == old(history) + [Event(now, SweepMetricsOp(interval))]
      ensures View() == SweepMetrics(configuration, old(View()), interval, now)
    {
      hide Run, Ready, View;
      SweepList(now, interval);
      RunOneMore(configuration, history, Event(now, SweepMetricsOp(interval)));
      history := history + [Event(now, SweepMetricsOp(interval))];
    }

    method SweepList(now: int, interval: int)
      requires Ready()
      modifies this`store, this`records, this`collectors, metricExpiryProcs.Values
      ensures Ready()
      ensures View() == SweepMetrics(configuration, old(View()), interval, now)
    {
      if interval in metricExpiryProcs && metricExpiryProcs[interval].interval != 0 {
        var ep := metricExpiryProcs[interval];
        hide Sweep, MetricDelete, MetricExpired;
        MetricSweepShape(ep.entries, Heap(store, records, collectors), now, ep.interval);
        var heap, deleted := ep.Check(Heap(store, records, collectors), MetricExpired(now, ep.interval), MetricDelete);
        store, records, collectors := heap.store, heap.records, heap.collectors;
        forall i | i in metricExpiryProcs && i != interval
          ensures metricExpiryProcs[i].entries == old(metricExpiryProcs[i].entries)
        {
          assert metricExpiryProcs[i] != metricExpiryProcs[interval];
        }
        assert Lists() == old(Lists())[interval := ep.entries];
      }
    }

    /** One round of the process that removes empty collectors. */
    method CheckCollectors(now: int)
      requires Valid()
      modifies this`store, this`records, this`collectors, this`history, collectorExpiryProc
      ensures Valid() && history == old(history) + [Event(now, SweepCollectorsOp)]
      ensures View() == SweepCollectors(old(View()))
    {
      RunOneMore(configuration, history, Event(now, SweepCollectorsOp));
      hide View, Ready, Run, SweepCollectors;
      SweepCollectorList();
      history := history + [Event(now, SweepCollectorsOp)];
    }

    method SweepCollectorList()
      requires Ready()
      modifies this`store, this`records, this`collectors, collectorExpiryProc
      ensures Ready()
      ensures View() == SweepCollectors(old(View()))
    {
      hide Sweep, CollectorDelete;
      CollectorSweepShape(collectorExpiryProc.entries, Heap(store, records, collectors));
      var heap, deleted := collectorExpiryProc.Check(Heap(store, records, collectors), CollectorExpired,
          CollectorDelete);
      store, records, collectors := heap.store, heap.records, heap.collectors;
    }
  }
}
