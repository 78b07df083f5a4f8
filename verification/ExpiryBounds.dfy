/** When metrics leave the cache: never too early in any run, and in time when the timers are exact. */
module ExpiryBounds {
  import opened CacheRefinement
  import opened MetricCache

  type Key = (nat, string)

  /** The collector for this label count holds this cache key. */
  ghost predicate Live(cfg: Config, es: seq<Event>, k: Key) {
    Cached(Run(cfg, es), k.0, k.1)
  }

  lemma LiveIsKeyed(cfg: Config, es: seq<Event>, k: Key)
    ensures Live(cfg, es, k) <==> k in KeyedRun(cfg, es)
  {
    hide Run, Cached;
    assert ShowsAt(Run(cfg, es), KeyedRun(cfg, es), k.0, k.1);
  }

  predicate IsSample(e: Event, k: Key) {
    e.op.ReceiveOp? && KeyOf(e.op.sample.series) == k
  }

  ghost predicate ScrapedIn(es: seq<Event>, k: Key, first: nat) {
    exists j | first < j < |es| :: es[j].op == ScrapeOp(k.0)
  }

  ghost predicate NoSampleSince(es: seq<Event>, k: Key, last: int) {
    forall j | 0 <= j < |es| && last < j :: !IsSample(es[j], k)
  }

  ghost predicate SampledAt(es: seq<Event>, k: Key, i: nat) {
    i < |es| && IsSample(es[i], k)
  }

  /** A live key was created by event `first`, has been live ever since, and event `last` is its latest sample. */
  ghost predicate History(cfg: Config, es: seq<Event>, k: Key, first: nat, last: nat) {
    && first <= last && SampledAt(es, k, first) && SampledAt(es, k, last) && NoSampleSince(es, k, last)
    && LiveSince(cfg, es, k, first)
  }

  ghost predicate LiveSince(cfg: Config, es: seq<Event>, k: Key, first: nat)
    requires first < |es|
  {
    !Live(cfg, es[..first], k) && forall j | first < j <= |es| :: Live(cfg, es[..j], k)
  }

  /** What a slot has kept of its history. */
  ghost predicate Remembers(slot: Slot, es: seq<Event>, k: Key, first: nat, last: nat)
    requires SampledAt(es, k, first) && SampledAt(es, k, last)
  {
    && slot.description == Desc(es[first].op.sample.series.name, es[first].op.sample.series.labelKeys)
    && slot.interval == es[first].op.interval
    && slot.sample == es[last].op.sample && slot.lastArrival == es[last].at
    && (slot.scrapped <==> ScrapedIn(es, k, first))
  }

  lemma RunOfMore(cfg: Config, es: seq<Event>, e: Event)
    ensures KeyedRun(cfg, es + [e]) == KeyedStep(cfg, KeyedRun(cfg, es), e)
  {
    assert (es + [e])[..|es|] == es;
  }

  lemma LiveSinceGrows(cfg: Config, es: seq<Event>, e: Event, k: Key, first: nat)
    requires first < |es| && LiveSince(cfg, es, k, first) && Live(cfg, es + [e], k)
    ensures LiveSince(cfg, es + [e], k, first)
  {
    hide Live;
    var longer := es + [e];
    assert longer[..first] == es[..first];
    forall j | first < j <= |longer| ensures Live(cfg, longer[..j], k) {
      if j <= |es| {
        assert longer[..j] == es[..j];
      } else {
        assert longer[..j] == longer;
      }
    }
  }

  lemma NoSampleGrows(es: seq<Event>, e: Event, k: Key, last: nat)
    requires NoSampleSince(es, k, last) && last < |es|
    ensures NoSampleSince(es + [e], k, if IsSample(e, k) then |es| else last)
  {
    hide IsSample;
    var longer := es + [e];
    forall j | last < j < |es| ensures !IsSample(longer[j], k) {
      assert longer[j] == es[j];
    }
  }

  lemma HistoryGrows(cfg: Config, es: seq<Event>, e: Event, k: Key, first: nat, last: nat)
    requires History(cfg, es, k, first, last) && Live(cfg, es + [e], k)
    ensures History(cfg, es + [e], k, first, if IsSample(e, k) then |es| else last)
  {
    LiveSinceGrows(cfg, es, e, k, first);
    NoSampleGrows(es, e, k, last);
    hide LiveSince, Live, IsSample, NoSampleSince;
  }

  /** A key becomes live by its own sample, and that is then its whole history. */
  lemma HistoryBegins(cfg: Config, es: seq<Event>, e: Event, k: Key)
    requires !Live(cfg, es, k) && Live(cfg, es + [e], k)
    ensures History(cfg, es + [e], k, |es|, |es|)
    ensures k in KeyedRun(cfg, es + [e]) && Remembers(KeyedRun(cfg, es + [e])[k], es + [e], k, |es|, |es|)
  {
    LiveIsKeyed(cfg, es, k);
    LiveIsKeyed(cfg, es + [e], k);
    RunOfMore(cfg, es, e);
    hide Live, KeyedRun, KeyOf;
    assert IsSample(e, k);
    var longer := es + [e];
    assert longer[|es|] == e && longer[..|es|] == es && longer[..|longer|] == longer;
  }

  lemma ScrapedLater(es: seq<Event>, e: Event, k: Key, first: nat)
    requires first < |es|
    ensures ScrapedIn(es + [e], k, first) <==> ScrapedIn(es, k, first) || e.op == ScrapeOp(k.0)
  {
    var longer := es + [e];
    assert longer[|es|] == e && forall j | 0 <= j < |es| :: longer[j] == es[j];
  }

  lemma RemembersGrows(cfg: Config, es: seq<Event>, e: Event, k: Key, first: nat, last: nat)
    requires History(cfg, es, k, first, last) && Live(cfg, es + [e], k)
    requires k in KeyedRun(cfg, es) && Remembers(KeyedRun(cfg, es)[k], es, k, first, last)
    ensures SampledAt(es + [e], k, first) && SampledAt(es + [e], k, if IsSample(e, k) then |es| else last)
    ensures k in KeyedRun(cfg, es + [e])
    ensures Remembers(KeyedRun(cfg, es + [e])[k], es + [e], k, first, if IsSample(e, k) then |es| else last)
  {
    hide KeyedRun, KeyOf, ScrapedIn, Expiry, Live, LiveSince, NoSampleSince;
    LiveIsKeyed(cfg, es + [e], k);
    ScrapedLater(es, e, k, first);
    RunOfMore(cfg, es, e);
    var longer := es + [e];
    assert longer[|es|] == e && longer[first] == es[first] && longer[last] == es[last];
  }

  /** Every live key has a history, and its slot remembers it: only the first sample fixes
      description and interval, only the last one fixes value and arrival time. */
  lemma {:induction false} HistoryOf(cfg: Config, es: seq<Event>, k: Key) returns (first: nat, last: nat)
    requires Live(cfg, es, k)
    ensures first < |es| && last < |es| && SampledAt(es, k, first) && SampledAt(es, k, last)
    ensures History(cfg, es, k, first, last)
    ensures k in KeyedRun(cfg, es) && Remembers(KeyedRun(cfg, es)[k], es, k, first, last)
    decreases |es|
  {
    LiveIsKeyed(cfg, es, k);
    assert es != [];
    hide History, Live, KeyedRun, KeyOf, Expiry, ScrapedIn, Remembers, IsSample;
    var init, e := es[..|es| - 1], es[|es| - 1];
    assert init + [e] == es;
    if Live(cfg, init, k) {
      first, last := HistoryOf(cfg, init, k);
      HistoryGrows(cfg, init, e, k, first, last);
      RemembersGrows(cfg, init, e, k, first, last);
      last := if IsSample(e, k) then |init| else last;
    } else {
      HistoryBegins(cfg, init, e, k);
      first, last := |init|, |init|;
    }
  }

  lemma OneHistory(cfg: Config, es: seq<Event>, k: Key, first: nat, last: nat, f: nat, l: nat)
    requires History(cfg, es, k, first, last) && History(cfg, es, k, f, l)
    ensures f == first && l == last
  {
    hide Live;
    var atFirst, atF := es[..first], es[..f];
    assert f < first ==> Live(cfg, atFirst, k);
    assert first < f ==> Live(cfg, atF, k);
  }

  /** The slot of a live key remembers the history of the key. */
  lemma SlotOfHistory(cfg: Config, es: seq<Event>, k: Key, first: nat, last: nat)
    requires History(cfg, es, k, first, last)
    ensures k in KeyedRun(cfg, es) && Remembers(KeyedRun(cfg, es)[k], es, k, first, last)
  {
    assert es[..|es|] == es && Live(cfg, es[..|es|], k);
    var f, l := HistoryOf(cfg, es, k);
    OneHistory(cfg, es, k, first, last, f, l);
  }

  /** Expiry safety, exactly: a live entry is removed by the next event if and only if that is
      a sweep of the list of its first sample's interval, that interval does expire, some scrape
      has visited the entry since it was created, and its last arrival is at least the expiry
      time of its first sample ago. */
  lemma RemovedIff(cfg: Config, es: seq<Event>, e: Event, k: Key, first: nat, last: nat)
    requires History(cfg, es, k, first, last)
    ensures var expiry := Expiry(cfg, es[first].op.interval);
            !Live(cfg, es + [e], k) <==>
              && e.op == SweepMetricsOp(es[first].op.interval) && expiry != 0
              && ScrapedIn(es, k, first) && e.at - es[last].at >= expiry
  {
    hide Expiry, KeyOf, ScrapedIn, Live, LiveSince, NoSampleSince, KeyedRun;
    SlotOfHistory(cfg, es, k, first, last);
    LiveIsKeyed(cfg, es + [e], k);
    RunOfMore(cfg, es, e);
  }

  /** An entry's record stays on the expiry list of its first sample's interval, whatever
      interval later samples carry. */
  lemma StaysOnItsList(cfg: Config, es: seq<Event>, k: Key, first: nat, last: nat, interval: int)
    requires History(cfg, es, k, first, last)
    ensures var c := Run(cfg, es);
            && Cached(c, k.0, k.1)
            && (InList(c, interval, c.heap.store[c.heap.collectors[k.0]].mProc[k.1].expiry) <==>
               interval == es[first].op.interval)
  {
    SlotOfHistory(cfg, es, k, first, last);
    LiveIsKeyed(cfg, es, k);
    var c := Run(cfg, es);
    var id := c.heap.collectors[k.0];
    hide CacheKey, Run, KeyedRun;
    assert ShowsAt(c, KeyedRun(cfg, es), k.0, k.1) && EntryOk(c, id, k.1);
    var r := c.heap.store[id].mProc[k.1].expiry;
    assert InList(c, interval, r) ==> RecordOk(c, interval, r);
  }

  /** A metric that was first seen with an interval that never expires stays for ever. */
  lemma {:induction false} ZeroExpiryStays(cfg: Config, es: seq<Event>, k: Key, first: nat, last: nat, more: seq<Event>)
    requires History(cfg, es, k, first, last) && Expiry(cfg, es[first].op.interval) == 0
    ensures Live(cfg, es + more, k)
    decreases |more|
  {
    hide Expiry, KeyOf, LiveSince, Live;
    if more == [] {
      SlotOfHistory(cfg, es, k, first, last);
      LiveIsKeyed(cfg, es, k);
      assert es + more == es;
    } else {
      RemovedIff(cfg, es, more[0], k, first, last);
      HistoryGrows(cfg, es, more[0], k, first, last);
      assert (es + [more[0]]) + more[1..] == es + more;
      assert (es + [more[0]])[first] == es[first];
      ZeroExpiryStays(cfg, es + [more[0]], k, first, if IsSample(more[0], k) then |es| else last, more[1..]);
    }
  }

  ghost predicate LastSampleOf(cfg: Config, es: seq<Event>, first: nat, last: nat, x: Exposed) {
    && first < |es| && last < |es| && es[first].op.ReceiveOp? && es[last].op.ReceiveOp?
    && var desc := Desc(es[first].op.sample.series.name, es[first].op.sample.series.labelKeys);
       cfg.accepts(desc, es[last].op.sample.series.labelVals) && x == Expose(cfg, desc, es[last].op.sample)
  }

  /** What a scrape hands out: the last sample of every live key with that many labels, under
      the description of its first sample. */
  lemma ScrapeHandsOutLastSamples(cfg: Config, es: seq<Event>, d: nat, x: Exposed)
    ensures x in Scraped(cfg, Run(cfg, es), d) <==>
              exists k: Key, first: nat, last: nat | History(cfg, es, k, first, last) && k.0 == d ::
                LastSampleOf(cfg, es, first, last, x)
  {
    CacheRefinesKeyedMap(cfg, es, d);
    var m := KeyedRun(cfg, es);
    assert es[..|es|] == es;
    hide KeyedRun, KeyOf, Run, Scraped, Expose;
    if x in SlotScraped(cfg, m, LabelCount, d) {
      var k :| k in m && LabelCount(k) == d && cfg.accepts(m[k].description, m[k].sample.series.labelVals)
          && x == Expose(cfg, m[k].description, m[k].sample);
      LiveIsKeyed(cfg, es, k);
      var first, last := HistoryOf(cfg, es, k);
      assert LastSampleOf(cfg, es, first, last, x);
    }
    forall k: Key, first: nat, last: nat | History(cfg, es, k, first, last) && k.0 == d
        && LastSampleOf(cfg, es, first, last, x)
      ensures x in SlotScraped(cfg, m, LabelCount, d)
    {
      SlotOfHistory(cfg, es, k, first, last);
      assert k in m && LabelCount(k) == d;
    }
  }

  /** What is exposed: the series of the description with the label values of the sample, its
      type and value, and its time in whole seconds where times are asked for and known. */
  lemma ExposedIs(cfg: Config, desc: Desc, s: Sample)
    ensures var x := Expose(cfg, desc, s);
            && x.series.name == desc.name && x.series.labelKeys == desc.labelKeys
            && x.series.labelVals == s.series.labelVals && x.metricType == s.metricType && x.value == s.value
            && (x.timestamp.Some? <==> cfg.withTimestamp && s.time != 0.0)
            && (x.timestamp.Some? && s.time > 0.0 ==>
                  x.timestamp.value as real <= s.time < (x.timestamp.value + 1) as real)
            && (x.timestamp.Some? && s.time < 0.0 ==>
                  (x.timestamp.value - 1) as real < s.time <= x.timestamp.value as real)
  {
  }

  // ---------- Time ----------

  const SECOND := 1_000_000_000

  ghost predicate InTimeOrder(es: seq<Event>) {
    forall i, j | 0 <= i < j < |es| :: es[i].at <= es[j].at
  }

  /** The process for an interval is started by the first sample that carries the interval. */
  ghost predicate Starts(es: seq<Event>, a: nat, interval: int) {
    && a < |es| && es[a].op.ReceiveOp? && es[a].op.interval == interval
    && forall j | 0 <= j < a :: es[j].op.ReceiveOp? ==> es[j].op.interval != interval
  }

  /** When the n-th timer fires: after the expiry time and one second, again and again. */
  function Tick(start: int, expiry: int, n: int): (r: int) {
    start + n * (expiry + SECOND)
  }

  /** Exact timers and instantaneous sweeps: each tick up to the deadline is a sweep in the run. */
  ghost predicate OnSchedule(es: seq<Event>, start: int, interval: int, expiry: int, deadline: int) {
    forall n | n >= 1 && Tick(start, expiry, n) <= deadline ::
      Event(Tick(start, expiry, n), SweepMetricsOp(interval)) in es
  }

  /** The timer is started anew after each round, for the expiry time and one second. */
  lemma TicksApart(start: int, expiry: int, n: int)
    ensures Tick(start, expiry, 0) == start
    ensures Tick(start, expiry, n + 1) == Tick(start, expiry, n) + expiry + 1_000_000_000
  {
    assert (n + 1) * (expiry + SECOND) == n * (expiry + SECOND) + expiry + SECOND;
  }

  lemma NextTick(start: int, expiry: int, t: int) returns (n: int)
    requires start <= t && 0 < expiry
    ensures n >= 1 && t < Tick(start, expiry, n) <= t + expiry + SECOND
  {
    var period := expiry + SECOND;
    n := (t - start) / period + 1;
    assert (n - 1) * period + (t - start) % period == t - start;
    assert n * period == (n - 1) * period + period;
  }

  lemma {:induction false} AbsentStays(cfg: Config, es: seq<Event>, k: Key, i: nat, j: nat)
    requires i <= j <= |es| && k !in KeyedRun(cfg, es[..i]) && NoSampleSince(es, k, i - 1)
    ensures k !in KeyedRun(cfg, es[..j])
    decreases j
  {
    if i < j {
      AbsentStays(cfg, es, k, i, j - 1);
      assert es[..j - 1] + [es[j - 1]] == es[..j];
      RunOfMore(cfg, es[..j - 1], es[j - 1]);
    }
  }

  /** Without further samples, what is live later has the history it had after its last sample. */
  lemma SameHistory(cfg: Config, es: seq<Event>, k: Key, first: nat, last: nat, i: nat, f: nat, l: nat)
    requires last < i <= |es| && History(cfg, es[..last + 1], k, first, last) && NoSampleSince(es, k, last)
    requires History(cfg, es[..i], k, f, l)
    ensures f == first && l == last
  {
    hide Live, KeyOf;
    var upTo := es[..last + 1];
    assert es[..i][l] == es[l] && es[..i][last] == es[last] && es[..i][f] == es[f];
    assert SampledAt(es[..i], k, last) && upTo[last] == es[last];
    assert es[..i][..first] == es[..first] == upTo[..first] && es[..i][..f] == es[..f] == upTo[..f];
    var atFirst, atF := es[..first], es[..f];
    assert f < first ==> Live(cfg, atFirst, k);
    assert first < f ==> Live(cfg, atF, k);
  }

  /** A sweep that comes after the expiry time and after a scrape removes the entry. */
  lemma SweptAway(cfg: Config, es: seq<Event>, k: Key, first: nat, last: nat, s: nat, i: nat)
    requires last < i < |es| && History(cfg, es[..last + 1], k, first, last) && NoSampleSince(es, k, last)
    requires first < s < i && es[s].op == ScrapeOp(k.0)
    requires es[i].op == SweepMetricsOp(es[first].op.interval)
    requires Expiry(cfg, es[first].op.interval) != 0 && es[i].at - es[last].at >= Expiry(cfg, es[first].op.interval)
    ensures !Live(cfg, es[..i + 1], k)
  {
    hide Expiry, KeyOf;
    var before := es[..i];
    assert before + [es[i]] == es[..i + 1];
    if Live(cfg, before, k) {
      var f, l := HistoryOf(cfg, before, k);
      SameHistory(cfg, es, k, first, last, i, f, l);
      assert before[s] == es[s] && before[first] == es[first] && before[last] == es[last];
      RemovedIff(cfg, before, es[i], k, first, last);
    } else {
      LiveIsKeyed(cfg, before, k);
      LiveIsKeyed(cfg, es[..i + 1], k);
      AbsentStays(cfg, es, k, i, i + 1);
    }
  }

  /** Expiry in time: with exact timers, a metric whose last sample came at time t, whose expiry
      time is positive and which is scraped, since it was created, no later than that long after t,
      is gone for good no later than at t plus twice the expiry time plus one second. */
  lemma ExpiryTimeBound(cfg: Config, es: seq<Event>, k: Key, first: nat, last: nat, s: nat, a: nat) returns (gone: nat)
    requires InTimeOrder(es) && last < |es|
    requires History(cfg, es[..last + 1], k, first, last) && NoSampleSince(es, k, last)
    requires var interval, t := es[first].op.interval, es[last].at;
             && Expiry(cfg, interval) > 0
             && first < s < |es| && es[s].op == ScrapeOp(k.0) && es[s].at <= t + Expiry(cfg, interval)
             && Starts(es, a, interval)
             && OnSchedule(es, es[a].at, interval, Expiry(cfg, interval), t + 2 * Expiry(cfg, interval) + SECOND)
    ensures gone < |es| && es[gone].at <= es[last].at + 2 * Expiry(cfg, es[first].op.interval) + SECOND
    ensures forall v | gone < v <= |es| :: !Live(cfg, es[..v], k)
  {
    hide Expiry, KeyOf, Live, KeyedRun;
    assert es[..last + 1][first] == es[first];
    var interval, t := es[first].op.interval, es[last].at;
    var expiry := Expiry(cfg, interval);
    assert a <= first;
    var n := NextTick(es[a].at, expiry, t + expiry);
    var sweep := Event(Tick(es[a].at, expiry, n), SweepMetricsOp(interval));
    assert sweep in es;
    gone :| 0 <= gone < |es| && es[gone] == sweep;
    assert last < gone && s < gone;
    SweptAway(cfg, es, k, first, last, s, gone);
    forall v | gone < v <= |es| ensures !Live(cfg, es[..v], k) {
      LiveIsKeyed(cfg, es[..gone + 1], k);
      AbsentStays(cfg, es, k, gone + 1, v);
      LiveIsKeyed(cfg, es[..v], k);
    }
  }

  // ---------- In terms of the configuration ----------

  /** The expiry time is the interval times the configured multiple, where that fits an int64. */
  lemma ExpiryIsProduct(cfg: Config, interval: int)
    requires -0x8000_0000_0000_0000 <= interval * cfg.multiple < 0x8000_0000_0000_0000
    ensures Expiry(cfg, interval) == interval * cfg.multiple
  {
  }

  /** Expiry safety in units of the interval: when a live entry is removed by the next event. */
  lemma RemovedAfterMultiple(cfg: Config, es: seq<Event>, e: Event, k: Key, first: nat, last: nat)
    requires History(cfg, es, k, first, last)
    requires -0x8000_0000_0000_0000 <= es[first].op.interval * cfg.multiple < 0x8000_0000_0000_0000
    ensures var expiry := es[first].op.interval * cfg.multiple;
            !Live(cfg, es + [e], k) <==>
              && e.op == SweepMetricsOp(es[first].op.interval) && expiry != 0
              && ScrapedIn(es, k, first) && e.at - es[last].at >= expiry
  {
    hide Live, ScrapedIn, KeyOf;
    ExpiryIsProduct(cfg, es[first].op.interval);
    RemovedIff(cfg, es, e, k, first, last);
  }

  /** Expiry in time, in units of the interval: with exact timers, which fire every interval times
      the multiple plus a second, a metric that was scraped in time is gone for good no later than
      twice the interval times the multiple plus a second after its last sample. */
  lemma GoneAfterMultiple(cfg: Config, es: seq<Event>, k: Key, first: nat, last: nat, s: nat, a: nat)
    returns (gone: nat)
    requires InTimeOrder(es) && last < |es|
    requires History(cfg, es[..last + 1], k, first, last) && NoSampleSince(es, k, last)
    requires 0 < es[first].op.interval * cfg.multiple < 0x8000_0000_0000_0000
    requires var (interval, t, expiry) := (es[first].op.interval, es[last].at, es[first].op.interval * cfg.multiple);
             && first < s < |es| && es[s].op == ScrapeOp(k.0) && es[s].at <= t + expiry
             && Starts(es, a, interval)
             && OnSchedule(es, es[a].at, interval, expiry, t + 2 * expiry + 1_000_000_000)
    ensures gone < |es| && es[gone].at <= es[last].at + 2 * (es[first].op.interval * cfg.multiple) + 1_000_000_000
    ensures forall v | gone < v <= |es| :: !Live(cfg, es[..v], k)
  {
    hide Live, KeyOf, NoSampleSince, InTimeOrder, Starts;
    assert es[..last + 1][first] == es[first];
    ExpiryIsProduct(cfg, es[first].op.interval);
    gone := ExpiryTimeBound(cfg, es, k, first, last, s, a);
  }
}
