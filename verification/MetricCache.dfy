/** The state of the Prometheus application and what one call, one scrape and one sweep do to
    it. Collectors and expiry records are shared by pointer, so they live in a store and are
    known by their position: a collector that is dropped and created anew is another one. */
module MetricCache {
  import opened ExpirySweep
  import opened Int64
  import opened MetricTypes
  import opened Wrappers

  /** What identifies a time series: its name and its labels. */
  datatype Series = Series(name: string, labelKeys: seq<string>, labelVals: seq<string>)

  datatype Sample = Sample(series: Series, time: real, metricType: MetricType, value: real)

  /** A metric description is fixed when its entry is created. */
  datatype Desc = Desc(name: string, labelKeys: seq<string>)

  /** One cache entry; `expiry` points to its expiry record, `interval` is that of its first sample. */
  datatype MetricProcess = MetricProcess(description: Desc, sample: Sample, interval: int, expiry: nat, scrapped: bool)

  datatype PromCollector = PromCollector(dimensions: nat, mProc: map<string, MetricProcess>)

  /** An expiry record. Its delete closure reaches into one collector, at one key. */
  datatype MetricExpiry = MetricExpiry(lastArrival: int, collector: nat, cacheKey: string)

  datatype CollectorExpiry = CollectorExpiry(collector: nat, dimensions: nat)

  /** What expiry records can see and change. */
  datatype Heap = Heap(store: seq<PromCollector>, records: seq<MetricExpiry>, collectors: map<nat, nat>)

  /** The heap, the list of each metric expiry process, and that of the collector process. */
  datatype Cache = Cache(heap: Heap, procs: map<int, seq<Option<nat>>>, collectorProc: seq<Option<CollectorExpiry>>)

  /** `accepts` stands for the checks the client library makes on an exposed metric. */
  datatype Config = Config(multiple: int, withTimestamp: bool, accepts: (Desc, seq<string>) -> bool)

  const EMPTY := Cache(Heap([], [], map[]), map[], [])

  function Concat(strings: seq<string>): (r: string) {
    if strings == [] then "" else strings[0] + Concat(strings[1..])
  }

  /** Name and label values in a row, without separators. */
  function CacheKey(s: Series): (r: string) {
    s.name + Concat(s.labelVals)
  }

  /** When a metric of this interval expires, in the arithmetic of time.Duration. */
  function Expiry(cfg: Config, interval: int): (r: int)
    ensures MIN_INT64 <= r <= MAX_INT64 && (r - interval * cfg.multiple) % 0x1_0000_0000_0000_0000 == 0
  {
    Wrap64(interval * cfg.multiple)
  }

  // ---------- Receiving ----------

  function EnsureCollector(c: Cache, d: nat): (r: Cache) {
    if d in c.heap.collectors then c
    else
      var id := |c.heap.store|;
      c.(heap := c.heap.(store := c.heap.store + [PromCollector(d, map[])], collectors := c.heap.collectors[d := id]),
         collectorProc := c.collectorProc + [Some(CollectorExpiry(id, d))])
  }

  function EnsureProc(c: Cache, interval: int): (r: Cache) {
    if interval in c.procs then c else c.(procs := c.procs[interval := []])
  }

  /** Puts an entry at a key of a collector. */
  function PutEntry(h: Heap, id: nat, key: string, p: MetricProcess): (r: Heap) {
    if id < |h.store| then h.(store := h.store[id := h.store[id].(mProc := h.store[id].mProc[key := p])]) else h
  }

  function KeepAlive(h: Heap, r: nat, now: int): (res: Heap) {
    if r < |h.records| then h.(records := h.records[r := h.records[r].(lastArrival := now)]) else h
  }

  function UpdateMetrics(c: Cache, id: nat, now: int, sample: Sample, interval: int): (r: Cache)
    requires id < |c.heap.store| && interval in c.procs
  {
    var key := CacheKey(sample.series);
    var h := c.heap;
    if key in h.store[id].mProc then
      var p := h.store[id].mProc[key];
      c.(heap := KeepAlive(PutEntry(h, id, key, p.(sample := sample)), p.expiry, now))
    else
      var r := |h.records|;
      var p := MetricProcess(Desc(sample.series.name, sample.series.labelKeys), sample, interval, r, false);
      c.(heap := PutEntry(h.(records := h.records + [MetricExpiry(now, id, key)]), id, key, p),
         procs := c.procs[interval := c.procs[interval] + [Some(r)]])
  }

  predicate Pointers(c: Cache) {
    forall d | d in c.heap.collectors :: c.heap.collectors[d] < |c.heap.store|
  }

  function Receive(c: Cache, now: int, sample: Sample, interval: int): (r: Cache)
    requires Pointers(c)
  {
    var d := |sample.series.labelKeys|;
    var c' := EnsureProc(EnsureCollector(c, d), interval);
    UpdateMetrics(c', c'.heap.collectors[d], now, sample, interval)
  }

  // ---------- Scraping ----------

  /** A metric as it is handed to a scraper. */
  datatype Exposed = Exposed(series: Series, metricType: MetricType, value: real, timestamp: Option<int>)

  /** Conversion of a float to an integer, towards zero. */
  function Truncate(t: real): (r: int)
    ensures t >= 0.0 ==> r as real <= t < (r + 1) as real
    ensures t < 0.0 ==> (r - 1) as real < t <= r as real
  {
    if t >= 0.0 then t.Floor else -((-t).Floor)
  }

  function Expose(cfg: Config, desc: Desc, s: Sample): (r: Exposed) {
    Exposed(Series(desc.name, desc.labelKeys, s.series.labelVals), s.metricType, s.value,
            if cfg.withTimestamp && s.time != 0.0 then Some(Truncate(s.time)) else None)
  }

  /** What a scrape of the collector for d labels hands out. */
  function Scraped(cfg: Config, c: Cache, d: nat): (r: set<Exposed>)
    requires Pointers(c)
  {
    if d !in c.heap.collectors then {}
    else
      var m := c.heap.store[c.heap.collectors[d]].mProc;
      set k | k in m && cfg.accepts(m[k].description, m[k].sample.series.labelVals) ::
          Expose(cfg, m[k].description, m[k].sample)
  }

  /** A scrape marks every entry it visits, also one the library refuses. */
  function Scrape(c: Cache, d: nat): (r: Cache)
    requires Pointers(c)
  {
    if d !in c.heap.collectors then c
    else
      var id := c.heap.collectors[d];
      var col := c.heap.store[id];
      var seen := map k | k in col.mProc :: col.mProc[k].(scrapped := true);
      c.(heap := c.heap.(store := c.heap.store[id := col.(mProc := seen)]))
  }

  // ---------- Expiry ----------

  function MetricExpired(now: int, expiry: int): (r: (nat, Heap) -> bool) {
    (r: nat, h: Heap) => r < |h.records| && now - h.records[r].lastArrival >= expiry
  }

  predicate KeyPresent(h: Heap, r: nat) {
    r < |h.records| && h.records[r].collector < |h.store|
        && h.records[r].cacheKey in h.store[h.records[r].collector].mProc
  }

  /** The entry a record's closure finds. */
  function Process(h: Heap, r: nat): (res: MetricProcess)
    requires KeyPresent(h, r)
  {
    h.store[h.records[r].collector].mProc[h.records[r].cacheKey]
  }

  function Without(h: Heap, r: nat): (res: Heap)
    requires KeyPresent(h, r)
  {
    var id := h.records[r].collector;
    h.(store := h.store[id := h.store[id].(mProc := h.store[id].mProc - {h.records[r].cacheKey})])
  }

  /** The delete closure of a metric. Without the key it reports a cache miss and gives up,
      and an entry that no scrape has seen yet stays. */
  function MetricDelete(r: nat, h: Heap): (res: (bool, Heap)) {
    if KeyPresent(h, r) && Process(h, r).scrapped then (true, Without(h, r)) else (false, h)
  }

  function CollectorExpired(r: CollectorExpiry, h: Heap): (res: bool) {
    r.collector < |h.store| && h.store[r.collector].mProc == map[]
  }

  function CollectorDelete(r: CollectorExpiry, h: Heap): (res: (bool, Heap)) {
    (true, h.(collectors := h.collectors - {r.dimensions}))
  }

  /** One round of the expiry process for an interval; for expiry 0 the process ends at once. */
  function SweepMetrics(cfg: Config, c: Cache, interval: int, now: int): (r: Cache) {
    if interval !in c.procs || Expiry(cfg, interval) == 0 then c
    else
      var (kept, h) := Sweep(c.procs[interval], c.heap, MetricExpired(now, Expiry(cfg, interval)), MetricDelete);
      c.(heap := h, procs := c.procs[interval := kept])
  }

  function SweepCollectors(c: Cache): (r: Cache) {
    var (kept, h) := Sweep(c.collectorProc, c.heap, CollectorExpired, CollectorDelete);
    c.(heap := h, collectorProc := kept)
  }

  // ---------- What the cache is for ----------

  /** A live metric: description and interval of its first sample, its last sample and when
      that arrived, and whether a scrape has seen it. */
  datatype Slot = Slot(description: Desc, sample: Sample, interval: int, lastArrival: int, scrapped: bool)

  function SlotReceive<K>(m: map<K, Slot>, k: K, now: int, sample: Sample, interval: int): (r: map<K, Slot>) {
    if k in m then m[k := m[k].(sample := sample, lastArrival := now)]
    else m[k := Slot(Desc(sample.series.name, sample.series.labelKeys), sample, interval, now, false)]
  }

  /** `dim` tells the label count of a key. */
  function SlotScrape<K>(m: map<K, Slot>, dim: K -> nat, d: nat): (r: map<K, Slot>) {
    map k | k in m :: if dim(k) == d then m[k].(scrapped := true) else m[k]
  }

  function SlotScraped<K>(cfg: Config, m: map<K, Slot>, dim: K -> nat, d: nat): (r: set<Exposed>) {
    set k | k in m && dim(k) == d && cfg.accepts(m[k].description, m[k].sample.series.labelVals) ::
      Expose(cfg, m[k].description, m[k].sample)
  }

  /** Due for deletion in this round of the process for this interval. */
  predicate Due(cfg: Config, slot: Slot, interval: int, now: int) {
    && slot.interval == interval && Expiry(cfg, interval) != 0
    && slot.scrapped && now - slot.lastArrival >= Expiry(cfg, interval)
  }

  function SlotSweep<K>(cfg: Config, m: map<K, Slot>, interval: int, now: int): (r: map<K, Slot>) {
    map k | k in m && !Due(cfg, m[k], interval, now) :: m[k]
  }

  /** A cache without collectors, expiry lists and closures: slots by label count and cache key. */
  type Keyed = map<(nat, string), Slot>

  function KeyOf(s: Series): (r: (nat, string)) {
    (|s.labelKeys|, CacheKey(s))
  }

  function LabelCount(k: (nat, string)): (r: nat) {
    k.0
  }

  // ---------- Runs ----------

  datatype Op =
    | ReceiveOp(sample: Sample, interval: int)
    | ScrapeOp(dimensions: nat)
    | SweepMetricsOp(interval: int)
    | SweepCollectorsOp

  /** An operation and the time it happens. */
  datatype Event = Event(at: int, op: Op)

  function Step(cfg: Config, c: Cache, e: Event): (r: Cache)
    requires Pointers(c)
  {
    match e.op
    case ReceiveOp(sample, interval) => Receive(c, e.at, sample, interval)
    case ScrapeOp(d) => Scrape(c, d)
    case SweepMetricsOp(interval) => SweepMetrics(cfg, c, interval, e.at)
    case SweepCollectorsOp => SweepCollectors(c)
  }

  /** Sweeping collectors does nothing that a user of the cache could see. */
  function KeyedStep(cfg: Config, m: Keyed, e: Event): (r: Keyed) {
    match e.op
    case ReceiveOp(sample, interval) => SlotReceive(m, KeyOf(sample.series), e.at, sample, interval)
    case ScrapeOp(d) => SlotScrape(m, LabelCount, d)
    case SweepMetricsOp(interval) => SlotSweep(cfg, m, interval, e.at)
    case SweepCollectorsOp => m
  }

  function KeyedRun(cfg: Config, es: seq<Event>): (r: Keyed) {
    if es == [] then map[] else KeyedStep(cfg, KeyedRun(cfg, es[..|es| - 1]), es[|es| - 1])
  }
}
