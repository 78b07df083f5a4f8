/** The collectors, expiry lists and delete closures of the cache are invisible from outside:
    in every run it behaves like a map from label count and cache key to live metrics. */
module CacheRefinement {
  import opened ExpirySweep
  import opened MetricCache
  import opened Wrappers

  // ---------- The invariant ----------

  ghost predicate InList(c: Cache, interval: int, r: nat) {
    interval in c.procs && Some(r) in c.procs[interval]
  }

  ghost predicate NoDuplicates<T>(s: seq<T>) {
    forall i, j | 0 <= i < j < |s| :: s[i] != s[j]
  }

  /** The collector of its label count, as opposed to one that was dropped. */
  ghost predicate Current(h: Heap, id: nat) {
    id < |h.store| && h.store[id].dimensions in h.collectors && h.collectors[h.store[id].dimensions] == id
  }

  /** An entry belongs to a current collector, has as many labels as that collector, sits at
      its own cache key, and its expiry record points back and is listed for its interval. */
  ghost predicate EntryOk(c: Cache, id: nat, k: string)
    requires id < |c.heap.store| && k in c.heap.store[id].mProc
  {
    var p := c.heap.store[id].mProc[k];
    && Current(c.heap, id)
    && |p.sample.series.labelKeys| == c.heap.store[id].dimensions && CacheKey(p.sample.series) == k
    && p.expiry < |c.heap.records| && c.heap.records[p.expiry].collector == id && c.heap.records[p.expiry].cacheKey == k
    && InList(c, p.interval, p.expiry)
  }

  /** The closure of a listed record finds the entry that owns the record. */
  ghost predicate RecordOk(c: Cache, interval: int, r: nat) {
    KeyPresent(c.heap, r) && Process(c.heap, r).expiry == r && Process(c.heap, r).interval == interval
  }

  ghost predicate ListOk(es: seq<Option<nat>>) {
    NoDuplicates(es) && forall e <- es :: e.Some?
  }

  /** One collector record for each label count in use, of the very collector in use. */
  ghost predicate CollectorsOk(h: Heap, list: seq<Option<CollectorExpiry>>) {
    && (forall d | d in h.collectors :: h.collectors[d] < |h.store| && h.store[h.collectors[d]].dimensions == d)
    && NoDuplicates(list)
    && (forall e <- list :: e.Some?)
    && (forall id, d :: Some(CollectorExpiry(id, d)) in list <==> d in h.collectors && h.collectors[d] == id)
  }

  ghost predicate Inv(c: Cache) {
    && CollectorsOk(c.heap, c.collectorProc)
    && (forall id, k | 0 <= id < |c.heap.store| && k in c.heap.store[id].mProc :: EntryOk(c, id, k))
    && (forall i | i in c.procs :: ListOk(c.procs[i]))
    && (forall i, r | InList(c, i, r) :: RecordOk(c, i, r))
  }

  // ---------- The abstraction ----------

  ghost predicate Cached(c: Cache, d: nat, k: string) {
    d in c.heap.collectors && c.heap.collectors[d] < |c.heap.store| && k in c.heap.store[c.heap.collectors[d]].mProc
  }

  ghost function SlotAt(h: Heap, id: nat, k: string): (r: Slot)
    requires id < |h.store| && k in h.store[id].mProc
  {
    var p := h.store[id].mProc[k];
    var lastArrival := if p.expiry < |h.records| then h.records[p.expiry].lastArrival else 0;
    Slot(p.description, p.sample, p.interval, lastArrival, p.scrapped)
  }

  ghost predicate ShowsAt(c: Cache, m: Keyed, d: nat, k: string) {
    && ((d, k) in m <==> Cached(c, d, k))
    && ((d, k) in m ==> m[(d, k)] == SlotAt(c.heap, c.heap.collectors[d], k))
  }

  /** The cache shows exactly the slots of m. */
  ghost predicate Shows(c: Cache, m: Keyed) {
    forall d, k :: ShowsAt(c, m, d, k)
  }

  // ---------- Receiving ----------

  lemma AppendKeepsNoDuplicates<T>(s: seq<T>, x: T)
    requires NoDuplicates(s) && x !in s
    ensures NoDuplicates(s + [x])
  {
  }

  lemma EnsureCollectorKeeps(c: Cache, d: nat, m: Keyed)
    requires Inv(c) && Shows(c, m)
    ensures var c' := EnsureCollector(c, d);
            Inv(c') && Shows(c', m) && d in c'.heap.collectors
  {
    var c' := EnsureCollector(c, d);
    if d !in c.heap.collectors {
      var id := |c.heap.store|;
      assert Some(CollectorExpiry(id, d)) !in c.collectorProc;
      AppendKeepsNoDuplicates(c.collectorProc, Some(CollectorExpiry(id, d)));
      forall i, k | 0 <= i < |c'.heap.store| && k in c'.heap.store[i].mProc ensures EntryOk(c', i, k) {
        assert EntryOk(c, i, k);
        assert InList(c, c.heap.store[i].mProc[k].interval, c.heap.store[i].mProc[k].expiry);
      }
      forall i, r | InList(c', i, r) ensures RecordOk(c', i, r) {
        assert InList(c, i, r) && RecordOk(c, i, r);
      }
      forall d', k ensures ShowsAt(c', m, d', k) {
        assert ShowsAt(c, m, d', k);
      }
    }
  }

  lemma EnsureProcKeeps(c: Cache, interval: int, m: Keyed)
    requires Inv(c) && Shows(c, m)
    ensures var c' := EnsureProc(c, interval);
            Inv(c') && Shows(c', m) && interval in c'.procs && c'.heap == c.heap
  {
    var c' := EnsureProc(c, interval);
    forall i, r ensures InList(c', i, r) <==> InList(c, i, r) {
    }
    forall i, k | 0 <= i < |c'.heap.store| && k in c'.heap.store[i].mProc ensures EntryOk(c', i, k) {
      assert EntryOk(c, i, k);
    }
    forall i, r | InList(c', i, r) ensures RecordOk(c', i, r) {
      assert RecordOk(c, i, r);
    }
    forall d, k ensures ShowsAt(c', m, d, k) {
      assert ShowsAt(c, m, d, k);
    }
  }

  lemma NewEntryKeepsInv(c: Cache, id: nat, now: int, sample: Sample, interval: int)
    requires Inv(c) && Current(c.heap, id) && interval in c.procs
    requires c.heap.store[id].dimensions == |sample.series.labelKeys|
             && CacheKey(sample.series) !in c.heap.store[id].mProc
    ensures Inv(UpdateMetrics(c, id, now, sample, interval))
  {
    hide CacheKey;
    var key, r := CacheKey(sample.series), |c.heap.records|;
    var c' := UpdateMetrics(c, id, now, sample, interval);
    assert !RecordOk(c, interval, r);
    assert !InList(c, interval, r);
    AppendKeepsNoDuplicates(c.procs[interval], Some(r));
    forall i, s ensures InList(c', i, s) <==> InList(c, i, s) || (i == interval && s == r) {
    }
    forall i, k | 0 <= i < |c'.heap.store| && k in c'.heap.store[i].mProc ensures EntryOk(c', i, k) {
      if (i, k) != (id, key) {
        assert EntryOk(c, i, k);
      }
    }
    forall i, s | InList(c', i, s) ensures RecordOk(c', i, s) {
      if InList(c, i, s) {
        assert RecordOk(c, i, s);
      }
    }
  }

  lemma NewEntryShows(c: Cache, d: nat, now: int, sample: Sample, interval: int, m: Keyed)
    requires Inv(c) && Shows(c, m) && d in c.heap.collectors && interval in c.procs
    requires d == |sample.series.labelKeys| && !Cached(c, d, CacheKey(sample.series))
    ensures var c' := UpdateMetrics(c, c.heap.collectors[d], now, sample, interval);
            Shows(c', SlotReceive(m, KeyOf(sample.series), now, sample, interval))
  {
    hide InList, RecordOk, ListOk, CacheKey;
    var id, key := c.heap.collectors[d], CacheKey(sample.series);
    var c' := UpdateMetrics(c, id, now, sample, interval);
    assert ShowsAt(c, m, d, key);
    forall d', k ensures ShowsAt(c', SlotReceive(m, KeyOf(sample.series), now, sample, interval), d', k) {
      assert ShowsAt(c, m, d', k);
      if Cached(c, d', k) {
        assert EntryOk(c, c.heap.collectors[d'], k);
      }
    }
  }

  lemma NewEntryKeeps(c: Cache, d: nat, now: int, sample: Sample, interval: int, m: Keyed)
    requires Inv(c) && Shows(c, m) && d in c.heap.collectors && interval in c.procs
    requires d == |sample.series.labelKeys| && !Cached(c, d, CacheKey(sample.series))
    ensures var c' := UpdateMetrics(c, c.heap.collectors[d], now, sample, interval);
            Inv(c') && Shows(c', SlotReceive(m, KeyOf(sample.series), now, sample, interval))
  {
    hide UpdateMetrics, SlotReceive, CacheKey, Shows;
    NewEntryShows(c, d, now, sample, interval, m);
    NewEntryKeepsInv(c, c.heap.collectors[d], now, sample, interval);
  }

  lemma KnownEntryKeepsInv(c: Cache, id: nat, now: int, sample: Sample, interval: int)
    requires Inv(c) && Current(c.heap, id) && interval in c.procs
    requires c.heap.store[id].dimensions == |sample.series.labelKeys|
             && CacheKey(sample.series) in c.heap.store[id].mProc
    ensures Inv(UpdateMetrics(c, id, now, sample, interval))
  {
    hide CacheKey;
    var c' := UpdateMetrics(c, id, now, sample, interval);
    assert EntryOk(c, id, CacheKey(sample.series));
    forall i, s ensures InList(c', i, s) <==> InList(c, i, s) {
    }
    forall i, k | 0 <= i < |c'.heap.store| && k in c'.heap.store[i].mProc ensures EntryOk(c', i, k) {
      assert EntryOk(c, i, k);
    }
    forall i, s | InList(c', i, s) ensures RecordOk(c', i, s) {
      assert RecordOk(c, i, s);
    }
  }

  lemma KnownEntryKeeps(c: Cache, d: nat, now: int, sample: Sample, interval: int, m: Keyed)
    requires Inv(c) && Shows(c, m) && d in c.heap.collectors && interval in c.procs
    requires d == |sample.series.labelKeys| && Cached(c, d, CacheKey(sample.series))
    ensures var c' := UpdateMetrics(c, c.heap.collectors[d], now, sample, interval);
            Inv(c') && Shows(c', SlotReceive(m, KeyOf(sample.series), now, sample, interval))
  {
    hide InList, RecordOk, ListOk;
    var id, key := c.heap.collectors[d], CacheKey(sample.series);
    var c' := UpdateMetrics(c, id, now, sample, interval);
    KnownEntryKeepsInv(c, id, now, sample, interval);
    assert EntryOk(c, id, key);
    assert ShowsAt(c, m, d, key);
    forall d', k ensures ShowsAt(c', SlotReceive(m, KeyOf(sample.series), now, sample, interval), d', k) {
      assert ShowsAt(c, m, d', k);
      if Cached(c, d', k) {
        assert EntryOk(c, c.heap.collectors[d'], k);
      }
    }
  }

  lemma ReceiveKeeps(c: Cache, now: int, sample: Sample, interval: int, m: Keyed)
    requires Inv(c) && Shows(c, m)
    ensures Inv(Receive(c, now, sample, interval))
    ensures Shows(Receive(c, now, sample, interval), SlotReceive(m, KeyOf(sample.series), now, sample, interval))
  {
    hide CacheKey, UpdateMetrics, EnsureProc, EnsureCollector, Shows, SlotReceive;
    var d := |sample.series.labelKeys|;
    EnsureCollectorKeeps(c, d, m);
    EnsureProcKeeps(EnsureCollector(c, d), interval, m);
    var c' := EnsureProc(EnsureCollector(c, d), interval);
    if Cached(c', d, CacheKey(sample.series)) {
      KnownEntryKeeps(c', d, now, sample, interval, m);
    } else {
      NewEntryKeeps(c', d, now, sample, interval, m);
    }
  }

  // ---------- Scraping ----------

  lemma ScrapeKeeps(c: Cache, d: nat, m: Keyed)
    requires Inv(c) && Shows(c, m)
    ensures Inv(Scrape(c, d)) && Shows(Scrape(c, d), SlotScrape(m, LabelCount, d))
  {
    var c' := Scrape(c, d);
    forall i, s ensures InList(c', i, s) <==> InList(c, i, s) {
    }
    forall i, k | 0 <= i < |c'.heap.store| && k in c'.heap.store[i].mProc ensures EntryOk(c', i, k) {
      assert EntryOk(c, i, k);
    }
    forall i, s | InList(c', i, s) ensures RecordOk(c', i, s) {
      assert RecordOk(c, i, s);
    }
    forall d', k ensures ShowsAt(c', SlotScrape(m, LabelCount, d), d', k) {
      assert ShowsAt(c, m, d', k);
    }
  }

  /** A scrape hands out exactly what the slots for that label count hold. */
  lemma ScrapedIsKeyed(cfg: Config, c: Cache, d: nat, m: Keyed)
    requires Inv(c) && Shows(c, m)
    ensures Scraped(cfg, c, d) == SlotScraped(cfg, m, LabelCount, d)
  {
    forall x ensures x in Scraped(cfg, c, d) <==> x in SlotScraped(cfg, m, LabelCount, d) {
      if x in Scraped(cfg, c, d) {
        var es := c.heap.store[c.heap.collectors[d]].mProc;
        var k :| k in es && cfg.accepts(es[k].description, es[k].sample.series.labelVals)
            && x == Expose(cfg, es[k].description, es[k].sample);
        assert ShowsAt(c, m, d, k);
        assert (d, k) in m;
      }
      if x in SlotScraped(cfg, m, LabelCount, d) {
        var dk :| dk in m && dk.0 == d && cfg.accepts(m[dk].description, m[dk].sample.series.labelVals)
            && x == Expose(cfg, m[dk].description, m[dk].sample);
        assert ShowsAt(c, m, d, dk.1);
      }
    }
  }

  // ---------- Sweeping metrics ----------

  /** The record's entry has been scraped and has not been refreshed for long enough. */
  ghost predicate Doomed(h: Heap, r: nat, now: int, expiry: int) {
    KeyPresent(h, r) && Process(h, r).scrapped && now - h.records[r].lastArrival >= expiry
  }

  ghost predicate OwnsItsEntry(h: Heap, r: nat) {
    KeyPresent(h, r) && Process(h, r).expiry == r
  }

  /** The entry at this key is deleted by one of these records. */
  ghost predicate GoneAt(h: Heap, es: seq<Option<nat>>, id: nat, k: string, now: int, expiry: int)
    requires id < |h.store| && k in h.store[id].mProc
  {
    var r := h.store[id].mProc[k].expiry;
    && Some(r) in es && r < |h.records|
    && h.records[r].collector == id && h.records[r].cacheKey == k
    && Doomed(h, r, now, expiry)
  }

  ghost predicate SameButGone(h: Heap, h': Heap, es: seq<Option<nat>>, now: int, expiry: int) {
    && h'.records == h.records && h'.collectors == h.collectors && |h'.store| == |h.store|
    && (forall id | 0 <= id < |h.store| :: h'.store[id].dimensions == h.store[id].dimensions)
    && (forall id, k | 0 <= id < |h.store| ::
          (k in h'.store[id].mProc <==> k in h.store[id].mProc && !GoneAt(h, es, id, k, now, expiry))
          && (k in h'.store[id].mProc ==> h'.store[id].mProc[k] == h.store[id].mProc[k]))
  }

  lemma WithoutKeepsOthers(h: Heap, r0: nat, r: nat)
    requires OwnsItsEntry(h, r0) && OwnsItsEntry(h, r) && r != r0
    ensures OwnsItsEntry(Without(h, r0), r) && Process(Without(h, r0), r) == Process(h, r)
  {
  }

  /** What a round does when every listed record owns an entry: it deletes the entries of the
      doomed records and takes those records off the list, and nothing else. */
  lemma {:induction false} SweepEffect(es: seq<Option<nat>>, h: Heap, now: int, expiry: int)
    requires ListOk(es) && forall r | Some(r) in es :: OwnsItsEntry(h, r)
    ensures var (kept, h') := Sweep(es, h, MetricExpired(now, expiry), MetricDelete);
            && SameButGone(h, h', es, now, expiry)
            && ListOk(kept)
            && (forall r :: Some(r) in kept <==> Some(r) in es && !Doomed(h, r, now, expiry))
  {
    if es != [] {
      assert es[0] in es;
      var r0, rest := es[0].value, es[1..];
      var h1 := Visit(es[0], h, MetricExpired(now, expiry), MetricDelete).1;
      assert OwnsItsEntry(h, r0);
      assert h1 == if Doomed(h, r0, now, expiry) then Without(h, r0) else h;
      forall r | Some(r) in rest
        ensures OwnsItsEntry(h1, r) && r != r0 && Doomed(h1, r, now, expiry) == Doomed(h, r, now, expiry)
      {
        assert Some(r) in es;
        if h1 != h {
          WithoutKeepsOthers(h, r0, r);
        }
      }
      SweepEffect(rest, h1, now, expiry);
    }
  }

  /** A deleted entry is one whose slot was due. */
  lemma GoneIsDue(cfg: Config, c: Cache, id: nat, k: string, interval: int, now: int)
    requires Inv(c) && id < |c.heap.store| && k in c.heap.store[id].mProc && interval in c.procs
             && Expiry(cfg, interval) != 0
    ensures GoneAt(c.heap, c.procs[interval], id, k, now, Expiry(cfg, interval)) <==>
            Due(cfg, SlotAt(c.heap, id, k), interval, now)
  {
    hide CacheKey, Expiry;
    var p := c.heap.store[id].mProc[k];
    assert EntryOk(c, id, k);
    assert InList(c, p.interval, p.expiry);
    if InList(c, interval, p.expiry) {
      assert RecordOk(c, interval, p.expiry);
    }
  }

  lemma SweptStateOk(c: Cache, c': Cache, interval: int, now: int, expiry: int)
    requires Inv(c) && interval in c.procs
    requires c'.collectorProc == c.collectorProc && c'.procs.Keys == c.procs.Keys
    requires forall i | i in c.procs && i != interval :: c'.procs[i] == c.procs[i]
    requires SameButGone(c.heap, c'.heap, c.procs[interval], now, expiry)
    requires ListOk(c'.procs[interval])
    requires forall r :: Some(r) in c'.procs[interval] <==>
             Some(r) in c.procs[interval] && !Doomed(c.heap, r, now, expiry)
    ensures Inv(c')
  {
    hide CacheKey;
    forall i, r: nat
      ensures InList(c', i, r) <==> InList(c, i, r) && !(i == interval && Doomed(c.heap, r, now, expiry))
    {
    }
    forall id, k | 0 <= id < |c'.heap.store| && k in c'.heap.store[id].mProc ensures EntryOk(c', id, k) {
      assert k in c.heap.store[id].mProc && EntryOk(c, id, k);
    }
    forall i, r: nat | InList(c', i, r) ensures RecordOk(c', i, r) {
      assert RecordOk(c, i, r);
      var rec := c.heap.records[r];
      assert InList(c, interval, r) ==> RecordOk(c, interval, r);
      assert rec.cacheKey in c'.heap.store[rec.collector].mProc;
    }
  }

  lemma SweepMetricsKeeps(cfg: Config, c: Cache, interval: int, now: int, m: Keyed)
    requires Inv(c) && Shows(c, m)
    ensures Inv(SweepMetrics(cfg, c, interval, now))
            && Shows(SweepMetrics(cfg, c, interval, now), SlotSweep(cfg, m, interval, now))
  {
    var expiry := Expiry(cfg, interval);
    var c' := SweepMetrics(cfg, c, interval, now);
    var m' := SlotSweep(cfg, m, interval, now);
    if interval in c.procs && expiry != 0 {
      var es := c.procs[interval];
      forall r | Some(r) in es ensures OwnsItsEntry(c.heap, r) {
        assert InList(c, interval, r) && RecordOk(c, interval, r);
      }
      SweepEffect(es, c.heap, now, expiry);
      hide Sweep, CacheKey;
      SweptStateOk(c, c', interval, now, expiry);
      forall d, k ensures ShowsAt(c', m', d, k) {
        assert ShowsAt(c, m, d, k);
        if Cached(c, d, k) {
          assert EntryOk(c, c.heap.collectors[d], k);
          GoneIsDue(cfg, c, c.heap.collectors[d], k, interval, now);
        }
      }
    } else {
      hide CacheKey;
      forall d, k ensures ShowsAt(c', m', d, k) {
        assert ShowsAt(c, m, d, k);
        if Cached(c, d, k) {
          assert EntryOk(c, c.heap.collectors[d], k);
          assert InList(c, m[(d, k)].interval, c.heap.store[c.heap.collectors[d]].mProc[k].expiry);
        }
      }
    }
  }

  // ---------- Sweeping collectors ----------

  ghost predicate NoneExpired(list: seq<Option<CollectorExpiry>>, h: Heap, d: nat) {
    forall id :: Some(CollectorExpiry(id, d)) in list ==> !CollectorExpired(CollectorExpiry(id, d), h)
  }

  /** The collector sweep drops the empty collectors with their records, and nothing else. */
  lemma {:induction false} CollectorSweepEffect(list: seq<Option<CollectorExpiry>>, h: Heap)
    requires NoDuplicates(list) && forall e <- list :: e.Some?
    ensures var (kept, h') := Sweep(list, h, CollectorExpired, CollectorDelete);
            && h'.store == h.store && h'.records == h.records
            && (forall d :: d in h'.collectors <==> d in h.collectors && NoneExpired(list, h, d))
            && (forall d | d in h'.collectors :: h'.collectors[d] == h.collectors[d])
            && NoDuplicates(kept) && (forall e <- kept :: e.Some?)
            && (forall r :: Some(r) in kept <==> Some(r) in list && !CollectorExpired(r, h))
  {
    if list != [] {
      assert list[0] in list;
      var r0, rest := list[0].value, list[1..];
      assert forall e <- list :: e == list[0] || e in rest;
      var h1 := Visit(list[0], h, CollectorExpired, CollectorDelete).1;
      CollectorSweepEffect(rest, h1);
      assert Some(CollectorExpiry(r0.collector, r0.dimensions)) == list[0];
      assert forall r :: CollectorExpired(r, h1) == CollectorExpired(r, h);
    }
  }

  /** A round of the collector process takes the empty collectors out of use, and only those. */
  lemma SweepDropsEmpty(c: Cache)
    requires Inv(c)
    ensures var c' := SweepCollectors(c);
            forall d :: d in c'.heap.collectors <==>
                          d in c.heap.collectors && c.heap.store[c.heap.collectors[d]].mProc != map[]
  {
    CollectorSweepEffect(c.collectorProc, c.heap);
    hide Sweep, CacheKey;
    forall d | d in c.heap.collectors
      ensures d in SweepCollectors(c).heap.collectors <==> c.heap.store[c.heap.collectors[d]].mProc != map[]
    {
      assert Some(CollectorExpiry(c.heap.collectors[d], d)) in c.collectorProc;
    }
  }

  lemma SweepCollectorsKeeps(c: Cache, m: Keyed)
    requires Inv(c) && Shows(c, m)
    ensures Inv(SweepCollectors(c)) && Shows(SweepCollectors(c), m)
  {
    var c' := SweepCollectors(c);
    CollectorSweepEffect(c.collectorProc, c.heap);
    SweepDropsEmpty(c);
    hide Sweep, CacheKey;
    forall i, r ensures InList(c', i, r) <==> InList(c, i, r) {
    }
    forall id, k | 0 <= id < |c'.heap.store| && k in c'.heap.store[id].mProc ensures EntryOk(c', id, k) {
      assert EntryOk(c, id, k);
    }
    forall i, r | InList(c', i, r) ensures RecordOk(c', i, r) {
      assert RecordOk(c, i, r);
    }
    forall d, k ensures ShowsAt(c', m, d, k) {
      assert ShowsAt(c, m, d, k);
    }
  }

  // ---------- Every run ----------

  lemma StepKeeps(cfg: Config, c: Cache, e: Event, m: Keyed)
    requires Inv(c) && Shows(c, m)
    ensures Inv(Step(cfg, c, e)) && Shows(Step(cfg, c, e), KeyedStep(cfg, m, e))
  {
    hide Inv, Shows;
    match e.op
    case ReceiveOp(sample, interval) => ReceiveKeeps(c, e.at, sample, interval, m);
    case ScrapeOp(d) => ScrapeKeeps(c, d, m);
    case SweepMetricsOp(interval) => SweepMetricsKeeps(cfg, c, interval, e.at, m);
    case SweepCollectorsOp => SweepCollectorsKeeps(c, m);
  }

  lemma EmptyOk()
    ensures Inv(EMPTY) && Shows(EMPTY, map[])
  {
  }

  /** The cache after a run; its pointers are always good. */
  ghost function Run(cfg: Config, es: seq<Event>): (c: Cache)
    ensures Inv(c) && Shows(c, KeyedRun(cfg, es))
  {
    if es == [] then EmptyOk(); EMPTY
    else
      var c := Run(cfg, es[..|es| - 1]);
      StepKeeps(cfg, c, es[|es| - 1], KeyedRun(cfg, es[..|es| - 1]));
      Step(cfg, c, es[|es| - 1])
  }

  /** Main refinement, over all runs and without any assumption: a scrape hands out exactly
      what the keyed map holds for that label count. */
  lemma CacheRefinesKeyedMap(cfg: Config, es: seq<Event>, d: nat)
    ensures Scraped(cfg, Run(cfg, es), d) == SlotScraped(cfg, KeyedRun(cfg, es), LabelCount, d)
  {
    ScrapedIsKeyed(cfg, Run(cfg, es), d, KeyedRun(cfg, es));
  }

  lemma RunOneMore(cfg: Config, es: seq<Event>, e: Event)
    ensures Run(cfg, es + [e]) == Step(cfg, Run(cfg, es), e)
  {
    assert (es + [e])[..|es|] == es;
  }

  /** In every run, a collector sweep leaves exactly the label counts in use that have a live metric. */
  lemma SweptCollectors(cfg: Config, es: seq<Event>, at: int, d: nat)
    ensures d in Run(cfg, es + [Event(at, SweepCollectorsOp)]).heap.collectors <==>
              exists k :: Cached(Run(cfg, es), d, k)
  {
    RunOneMore(cfg, es, Event(at, SweepCollectorsOp));
    hide Run, SweepCollectors, EntryOk, RecordOk, Shows;
    var c := Run(cfg, es);
    SweepDropsEmpty(c);
    if d in c.heap.collectors && c.heap.store[c.heap.collectors[d]].mProc != map[] {
      var k :| k in c.heap.store[c.heap.collectors[d]].mProc;
      assert Cached(c, d, k);
    }
  }

  /** Lifecycle of collectors, across any number of deletions and re-creations: each label
      count in use has exactly one collector record, for the very collector in use; every
      entry of any collector that was ever created is in a collector in use and has as many
      labels; and every listed metric record points into a collector in use. */
  lemma CollectorLifecycle(cfg: Config, es: seq<Event>, d: nat)
    ensures var c := Run(cfg, es);
            && (d in c.heap.collectors ==>
                  && Some(CollectorExpiry(c.heap.collectors[d], d)) in c.collectorProc
                  && forall id :: Some(CollectorExpiry(id, d)) in c.collectorProc ==> id == c.heap.collectors[d])
            && NoDuplicates(c.collectorProc)
            && (forall id, k | 0 <= id < |c.heap.store| && k in c.heap.store[id].mProc ::
                  && Current(c.heap, id)
                  && |c.heap.store[id].mProc[k].sample.series.labelKeys| == c.heap.store[id].dimensions)
            && (forall i, r: nat | InList(c, i, r) ::
                  r < |c.heap.records| && Current(c.heap, c.heap.records[r].collector))
  {
    var c := Run(cfg, es);
    hide CacheKey, Run;
    forall id, k | 0 <= id < |c.heap.store| && k in c.heap.store[id].mProc
      ensures Current(c.heap, id) && |c.heap.store[id].mProc[k].sample.series.labelKeys| == c.heap.store[id].dimensions
    {
      assert EntryOk(c, id, k);
    }
    forall i, r: nat | InList(c, i, r) ensures r < |c.heap.records| && Current(c.heap, c.heap.records[r].collector) {
      assert RecordOk(c, i, r);
      assert EntryOk(c, c.heap.records[r].collector, c.heap.records[r].cacheKey);
    }
  }
}
