/** The cache key runs name and label values together without separators. Here is exactly
    when the cache nevertheless keeps every time series apart from every other. */
module SeriesMap {
  import opened CacheRefinement
  import opened MetricCache
  import opened MetricTypes

  /** What users expect the cache to be: one slot for each series. */
  type Plain = map<Series, Slot>

  function Dimensions(s: Series): (r: nat) {
    |s.labelKeys|
  }

  function PlainStep(cfg: Config, m: Plain, e: Event): (r: Plain) {
    match e.op
    case ReceiveOp(sample, interval) => SlotReceive(m, sample.series, e.at, sample, interval)
    case ScrapeOp(d) => SlotScrape(m, Dimensions, d)
    case SweepMetricsOp(interval) => SlotSweep(cfg, m, interval, e.at)
    case SweepCollectorsOp => m
  }

  function PlainRun(cfg: Config, es: seq<Event>): (r: Plain) {
    if es == [] then map[] else PlainStep(cfg, PlainRun(cfg, es[..|es| - 1]), es[|es| - 1])
  }

  /** All samples of the run belong to these series. */
  ghost predicate Over(es: seq<Event>, u: iset<Series>) {
    forall e <- es :: e.op.ReceiveOp? ==> e.op.sample.series in u
  }

  /** Label count and cache key tell these series apart. */
  ghost predicate Distinguishes(u: iset<Series>) {
    forall a, b | a in u && b in u && KeyOf(a) == KeyOf(b) :: a == b
  }

  function DescOf(s: Series): (desc: Desc) {
    Desc(s.name, s.labelKeys)
  }

  /** The library accepts the description of one series with the label values of another. */
  predicate Shown(cfg: Config, first: Series, last: Series) {
    cfg.accepts(DescOf(first), last.labelVals)
  }

  /** No two of these series share a key, apart from series that the library refuses both alone
      and mixed with each other. */
  ghost predicate TellsApart(cfg: Config, u: iset<Series>) {
    forall a, b | a in u && b in u && KeyOf(a) == KeyOf(b) && a != b :: !Shown(cfg, a, a) && !Shown(cfg, a, b)
  }

  ghost predicate Alone(u: iset<Series>, s: Series) {
    forall b | b in u && KeyOf(b) == KeyOf(s) :: b == s
  }

  /** A series has its own slot, and one that shares its key with no other has the cache's slot. */
  ghost predicate AgreeOn(m: Keyed, p: Plain, u: iset<Series>, s: Series) {
    s in p ==>
      && s in u && p[s].sample.series == s && p[s].description == DescOf(s)
      && (Alone(u, s) ==> KeyOf(s) in m && m[KeyOf(s)] == p[s])
  }

  ghost predicate Describes(desc: Desc, u: iset<Series>, k: (nat, string)) {
    exists first :: first in u && KeyOf(first) == k && desc == DescOf(first)
  }

  /** A slot of the cache holds a sample and a description of series with its key. */
  ghost predicate HoldsOf(m: Keyed, p: Plain, u: iset<Series>, k: (nat, string)) {
    k in m ==>
      && var last := m[k].sample.series;
         last in u && KeyOf(last) == k && Describes(m[k].description, u, k) && (Alone(u, last) ==> last in p)
  }

  ghost predicate Agree(m: Keyed, p: Plain, u: iset<Series>) {
    (forall s :: AgreeOn(m, p, u, s)) && (forall k :: HoldsOf(m, p, u, k))
  }

  lemma StepAgrees(cfg: Config, m: Keyed, p: Plain, u: iset<Series>, e: Event)
    requires Agree(m, p, u) && Over([e], u)
    ensures Agree(KeyedStep(cfg, m, e), PlainStep(cfg, p, e), u)
  {
    assert e in [e];
    assert e.op.ReceiveOp? ==> Describes(DescOf(e.op.sample.series), u, KeyOf(e.op.sample.series));
    hide KeyOf, Expiry, Describes, Agree;
    var m', p' := KeyedStep(cfg, m, e), PlainStep(cfg, p, e);
    forall s ensures AgreeOn(m', p', u, s) {
      AgreesOn(m, p, u, s);
      AgreesAt(m, p, u, KeyOf(s));
    }
    forall k ensures HoldsOf(m', p', u, k) {
      AgreesAt(m, p, u, k);
      if k in m {
        AgreesOn(m, p, u, m[k].sample.series);
      }
    }
    AgreeIs(m', p', u);
  }

  lemma AgreesOn(m: Keyed, p: Plain, u: iset<Series>, s: Series)
    requires Agree(m, p, u)
    ensures AgreeOn(m, p, u, s)
  {
  }

  lemma AgreesAt(m: Keyed, p: Plain, u: iset<Series>, k: (nat, string))
    requires Agree(m, p, u)
    ensures HoldsOf(m, p, u, k)
  {
  }

  lemma AgreeIs(m: Keyed, p: Plain, u: iset<Series>)
    requires (forall s :: AgreeOn(m, p, u, s)) && (forall k :: HoldsOf(m, p, u, k))
    ensures Agree(m, p, u)
  {
  }

  lemma {:induction false} RunAgrees(cfg: Config, es: seq<Event>, u: iset<Series>)
    requires Over(es, u)
    ensures Agree(KeyedRun(cfg, es), PlainRun(cfg, es), u)
  {
    if es != [] {
      var init, e := es[..|es| - 1], es[|es| - 1];
      assert forall x <- init :: x in es;
      assert e in es;
      RunAgrees(cfg, init, u);
      StepAgrees(cfg, KeyedRun(cfg, init), PlainRun(cfg, init), u, e);
    }
  }

  /** What the library accepts in a slot belongs to a series that is alone on its key. */
  lemma ShownIsAlone(cfg: Config, u: iset<Series>, first: Series, last: Series)
    requires TellsApart(cfg, u) && first in u && last in u && KeyOf(first) == KeyOf(last) && Shown(cfg, first, last)
    ensures first == last && Alone(u, last)
  {
    hide KeyOf, Shown;
  }

  lemma AgreedScrapes(cfg: Config, m: Keyed, p: Plain, u: iset<Series>, d: nat)
    requires TellsApart(cfg, u) && Agree(m, p, u)
    ensures SlotScraped(cfg, m, LabelCount, d) == SlotScraped(cfg, p, Dimensions, d)
  {
    forall x ensures x in SlotScraped(cfg, m, LabelCount, d) <==> x in SlotScraped(cfg, p, Dimensions, d) {
      if x in SlotScraped(cfg, m, LabelCount, d) {
        CacheShowsPlain(cfg, m, p, u, d, x);
      }
      if x in SlotScraped(cfg, p, Dimensions, d) {
        PlainShowsCache(cfg, m, p, u, d, x);
      }
    }
  }

  lemma CacheShowsPlain(cfg: Config, m: Keyed, p: Plain, u: iset<Series>, d: nat, x: Exposed)
    requires TellsApart(cfg, u) && Agree(m, p, u) && x in SlotScraped(cfg, m, LabelCount, d)
    ensures x in SlotScraped(cfg, p, Dimensions, d)
  {
    var k :| k in m && LabelCount(k) == d && cfg.accepts(m[k].description, m[k].sample.series.labelVals)
             && x == Expose(cfg, m[k].description, m[k].sample);
    hide CacheKey, Expose, Agree, TellsApart;
    var last := m[k].sample.series;
    AgreesAt(m, p, u, k);
    var first :| first in u && KeyOf(first) == k && m[k].description == DescOf(first);
    ShownIsAlone(cfg, u, first, last);
    AgreesOn(m, p, u, last);
    assert last in p && Dimensions(last) == d && p[last] == m[k];
  }

  lemma PlainShowsCache(cfg: Config, m: Keyed, p: Plain, u: iset<Series>, d: nat, x: Exposed)
    requires TellsApart(cfg, u) && Agree(m, p, u) && x in SlotScraped(cfg, p, Dimensions, d)
    ensures x in SlotScraped(cfg, m, LabelCount, d)
  {
    var s :| s in p && Dimensions(s) == d && cfg.accepts(p[s].description, p[s].sample.series.labelVals)
             && x == Expose(cfg, p[s].description, p[s].sample);
    hide CacheKey, Expose, Agree, TellsApart;
    AgreesOn(m, p, u, s);
    ShownIsAlone(cfg, u, s, s);
    assert KeyOf(s) in m && LabelCount(KeyOf(s)) == d && m[KeyOf(s)] == p[s];
  }

  /** When the keys tell the series apart, every scrape of every run hands out exactly the last
      sample of every live series with that many labels. */
  lemma CacheRefinesPlainMap(cfg: Config, es: seq<Event>, u: iset<Series>, d: nat)
    requires TellsApart(cfg, u) && Over(es, u)
    ensures Scraped(cfg, Run(cfg, es), d) == SlotScraped(cfg, PlainRun(cfg, es), Dimensions, d)
  {
    CacheRefinesKeyedMap(cfg, es, d);
    RunAgrees(cfg, es, u);
    AgreedScrapes(cfg, KeyedRun(cfg, es), PlainRun(cfg, es), u, d);
  }

  function SampleOf(s: Series): (r: Sample) {
    Sample(s, 0.0, Untyped, 0.0)
  }

  /** One sample of each of two series. */
  function TwoSamples(a: Series, b: Series): (es: seq<Event>) {
    [Event(0, ReceiveOp(SampleOf(a), 1)), Event(0, ReceiveOp(SampleOf(b), 1))]
  }

  lemma RunsOfTwo(cfg: Config, a: Series, b: Series)
    requires a != b && KeyOf(a) == KeyOf(b)
    ensures KeyedRun(cfg, TwoSamples(a, b)) == map[KeyOf(a) := Slot(DescOf(a), SampleOf(b), 1, 0, false)]
    ensures PlainRun(cfg, TwoSamples(a, b))
            == map[a := Slot(DescOf(a), SampleOf(a), 1, 0, false), b := Slot(DescOf(b), SampleOf(b), 1, 0, false)]
  {
    hide KeyOf;
    var es := TwoSamples(a, b);
    assert es[..1] == [es[0]] && es[..1][..0] == [];
    assert KeyedRun(cfg, []) == map[] && PlainRun(cfg, []) == map[];
    assert KeyedRun(cfg, es[..1]) == map[KeyOf(a) := Slot(DescOf(a), SampleOf(a), 1, 0, false)];
    assert PlainRun(cfg, es[..1]) == map[a := Slot(DescOf(a), SampleOf(a), 1, 0, false)];
  }

  ghost predicate ScrapesAgree(cfg: Config, es: seq<Event>, d: nat) {
    Scraped(cfg, Run(cfg, es), d) == SlotScraped(cfg, PlainRun(cfg, es), Dimensions, d)
  }

  lemma ScrapedSlot(cfg: Config, k: (nat, string), slot: Slot)
    ensures SlotScraped(cfg, map[k := slot], LabelCount, k.0)
            == if cfg.accepts(slot.description, slot.sample.series.labelVals)
               then {Expose(cfg, slot.description, slot.sample)} else {}
  {
    hide Expose;
    var m := map[k := slot];
    assert k in m && m[k] == slot && LabelCount(k) == k.0;
  }

  lemma CacheOfTwo(cfg: Config, a: Series, b: Series)
    requires a != b && KeyOf(a) == KeyOf(b)
    ensures Scraped(cfg, Run(cfg, TwoSamples(a, b)), |a.labelKeys|)
            == if Shown(cfg, a, b) then {Expose(cfg, DescOf(a), SampleOf(b))} else {}
  {
    assert KeyOf(a).0 == |a.labelKeys|;
    hide KeyOf, KeyedRun, PlainRun, Run, Expose, Scraped, SlotScraped;
    CacheRefinesKeyedMap(cfg, TwoSamples(a, b), |a.labelKeys|);
    RunsOfTwo(cfg, a, b);
    ScrapedSlot(cfg, KeyOf(a), Slot(DescOf(a), SampleOf(b), 1, 0, false));
  }

  lemma PlainOfTwo(cfg: Config, a: Series, b: Series)
    requires a != b && KeyOf(a) == KeyOf(b)
    ensures SlotScraped(cfg, PlainRun(cfg, TwoSamples(a, b)), Dimensions, |a.labelKeys|)
            == (if Shown(cfg, a, a) then {Expose(cfg, DescOf(a), SampleOf(a))} else {})
               + (if Shown(cfg, b, b) then {Expose(cfg, DescOf(b), SampleOf(b))} else {})
  {
    assert |b.labelKeys| == |a.labelKeys|;
    hide CacheKey, Expose;
    RunsOfTwo(cfg, a, b);
    hide KeyedRun, PlainRun, KeyOf;
    var p, d := PlainRun(cfg, TwoSamples(a, b)), |a.labelKeys|;
    assert p[a] == Slot(DescOf(a), SampleOf(a), 1, 0, false) && p[b] == Slot(DescOf(b), SampleOf(b), 1, 0, false);
    assert Dimensions(a) == d && Dimensions(b) == d;
  }

  /** Where descriptions agree the values differ, and where they differ no mixture hides it. */
  lemma MixturesDiffer(cfg: Config, a: Series, b: Series)
    requires a != b
    ensures DescOf(a) == DescOf(b) ==>
              Expose(cfg, DescOf(a), SampleOf(a)) != Expose(cfg, DescOf(a), SampleOf(b))
    ensures DescOf(a) != DescOf(b) ==>
              Expose(cfg, DescOf(a), SampleOf(a)) != Expose(cfg, DescOf(b), SampleOf(a))
  {
  }

  /** Two series with one key, and the library accepts one of them or their mixture: after one
      sample of each, in one order or the other, a scrape does not hand out what it should. */
  lemma CollisionShows(cfg: Config, a: Series, b: Series)
    requires a != b && KeyOf(a) == KeyOf(b) && (Shown(cfg, a, a) || Shown(cfg, a, b))
    ensures !ScrapesAgree(cfg, TwoSamples(a, b), |a.labelKeys|) || !ScrapesAgree(cfg, TwoSamples(b, a), |a.labelKeys|)
  {
    assert |a.labelKeys| == |b.labelKeys|;
    hide Run, SlotScraped, PlainRun, Scraped, Expose, KeyOf;
    MixturesDiffer(cfg, a, b);
    var xa := Expose(cfg, DescOf(a), SampleOf(a));
    if Shown(cfg, a, a) && DescOf(a) != DescOf(b) {
      CacheOfTwo(cfg, b, a);
      PlainOfTwo(cfg, b, a);
      assert xa in SlotScraped(cfg, PlainRun(cfg, TwoSamples(b, a)), Dimensions, |b.labelKeys|);
    } else {
      CacheOfTwo(cfg, a, b);
      PlainOfTwo(cfg, a, b);
      assert Shown(cfg, a, a) ==> xa in SlotScraped(cfg, PlainRun(cfg, TwoSamples(a, b)), Dimensions, |a.labelKeys|);
      if !Shown(cfg, a, a) && Shown(cfg, b, b) {
        CacheOfTwo(cfg, b, a);
        PlainOfTwo(cfg, b, a);
        MixturesDiffer(cfg, b, a);
      }
    }
  }

  /** In every run over these series, every scrape hands out what the plain map holds. */
  ghost predicate ActsLikePlainMap(cfg: Config, u: iset<Series>) {
    forall es, d | Over(es, u) :: ScrapesAgree(cfg, es, d)
  }

  /** Exactly when the cache is a map from series to samples, for each configuration, whatever
      the library accepts, and for each set of series. For series that the library accepts this
      is the case if and only if label count and cache key tell them apart. */
  lemma PlainMapIff(cfg: Config, u: iset<Series>)
    ensures ActsLikePlainMap(cfg, u) <==> TellsApart(cfg, u)
    ensures (forall s <- u :: Shown(cfg, s, s)) ==> (TellsApart(cfg, u) <==> Distinguishes(u))
  {
    hide ScrapesAgree, KeyOf, Shown;
    if TellsApart(cfg, u) {
      forall es, d | Over(es, u) ensures ScrapesAgree(cfg, es, d) {
        PlainRefined(cfg, es, u, d);
      }
    } else {
      var a, b :| a in u && b in u && KeyOf(a) == KeyOf(b) && a != b && (Shown(cfg, a, a) || Shown(cfg, a, b));
      CollisionShows(cfg, a, b);
      assert Over(TwoSamples(a, b), u) && Over(TwoSamples(b, a), u);
    }
  }

  lemma PlainRefined(cfg: Config, es: seq<Event>, u: iset<Series>, d: nat)
    requires TellsApart(cfg, u) && Over(es, u)
    ensures ScrapesAgree(cfg, es, d)
  {
    CacheRefinesPlainMap(cfg, es, u, d);
  }

  // ---------- What is in a key ----------

  lemma {:induction false} ConcatSplit(vals: seq<string>, i: nat)
    requires i < |vals|
    ensures Concat(vals) == Concat(vals[..i]) + vals[i] + Concat(vals[i + 1..])
  {
    if i == 0 {
      assert vals[..0] == [] && Concat([]) == "";
      assert "" + vals[0] + Concat(vals[1..]) == vals[0] + Concat(vals[1..]);
    } else {
      ConcatSplit(vals[1..], i - 1);
      assert vals[..i][1..] == vals[1..][..i - 1] && vals[1..][i..] == vals[i + 1..];
      var front := Concat(vals[1..][..i - 1]);
      assert vals[0] + (front + vals[i] + Concat(vals[i + 1..])) == vals[0] + front + vals[i] + Concat(vals[i + 1..]);
    }
  }

  lemma CancelAround(front: string, x: string, y: string, back: string)
    requires front + x + back == front + y + back
    ensures x == y
  {
    assert |front + x + back| == |front + y + back|;
    assert (front + x + back)[|front|..|front| + |x|] == x && (front + y + back)[|front|..|front| + |y|] == y;
  }

  /** Every label value counts: two series that differ in one label value only, whichever it is,
      have different keys. */
  lemma OneValueTellsApart(a: Series, b: Series, i: nat)
    requires a.name == b.name && a.labelKeys == b.labelKeys && |a.labelVals| == |b.labelVals|
    requires i < |a.labelVals| && a.labelVals[i] != b.labelVals[i]
    requires forall j | 0 <= j < |a.labelVals| && j != i :: a.labelVals[j] == b.labelVals[j]
    ensures KeyOf(a) != KeyOf(b)
  {
    var x, y := a.labelVals, b.labelVals;
    ConcatSplit(x, i);
    ConcatSplit(y, i);
    assert x[..i] == y[..i] && x[i + 1..] == y[i + 1..];
    hide Concat;
    var front, back := Concat(x[..i]), Concat(x[i + 1..]);
    assert a.name + (front + x[i] + back) == a.name + front + x[i] + back;
    assert a.name + (front + y[i] + back) == a.name + front + y[i] + back;
    if KeyOf(a) == KeyOf(b) {
      CancelAround(a.name + front, x[i], y[i], back);
    }
  }

  /** A key is the name of the series and then its label values, one behind the other. */
  lemma KeyIsSpelledOut(name: string, keys: seq<string>, vals: seq<string>, last: string)
    ensures CacheKey(Series(name, keys, [])) == name
    ensures CacheKey(Series(name, keys, vals + [last])) == CacheKey(Series(name, keys, vals)) + last
  {
    ConcatSplit(vals + [last], |vals|);
    assert (vals + [last])[..|vals|] == vals && (vals + [last])[|vals| + 1..] == [];
    assert Concat([]) == "";
    assert name + (Concat(vals) + last + "") == name + Concat(vals) + last;
  }

  /** Such a pair of series: metric `a` with value `bc`, metric `ab` with value `c`. */
  lemma CollisionExample()
    ensures KeyOf(Series("a", ["host"], ["bc"])) == KeyOf(Series("ab", ["host"], ["c"]))
  {
    assert Concat(["bc"]) == "bc" && Concat(["c"]) == "c";
    assert "a" + "bc" == "ab" + "c";
  }
}
