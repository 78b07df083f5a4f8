/** Everything that runs at once in the Elasticsearch application: receivers that block on a
    bounded channel, the flusher that works under the buffer lock, and the index workers. */
module ElasticPipeline {
  import opened Wrappers
  import opened ElasticBuffer

  const CHANNEL_CAPACITY := 512

  /** A record and its index. */
  type Record = (string, string)

  datatype Pipeline = Pipeline(
    bufferSize: int,
    buffer: Buffer,
    flushing: Option<set<string>>,   // the flusher holds the lock and has these indices to visit
    senders: seq<Batch>,             // receivers blocked on the channel
    queue: seq<Batch>,
    workers: seq<Option<Batch>>,
    ended: seq<Ended>,               // batches whose indexing call has returned
    accepted: seq<Record>,           // history: every accepted record, in order of arrival
    taken: seq<Batch>)               // history: every batch that left the buffer, in order

  datatype Step =
    | Receive(index: string, record: string)
    | Send(sender: nat)
    | StartFlush
    | FlushOne(index: string, acknowledged: nat)
    | EndFlush
    | Dequeue(worker: nat)
    | Stored(worker: nat, acknowledged: nat)

  function Start(bufferSize: int, workers: nat): (r: Pipeline) {
    Pipeline(bufferSize, map[], None, [], [], seq(workers, _ => None), [], [], [])
  }

  predicate Enabled(s: Pipeline, step: Step) {
    match step
    case Receive(_, _) => s.bufferSize > 1 ==> s.flushing.None?
    case Send(i) => i < |s.senders| && |s.queue| < CHANNEL_CAPACITY
    case StartFlush => s.flushing.None?
    case FlushOne(index, _) => s.flushing.Some? && index in s.flushing.value && index in s.buffer
    case EndFlush => s.flushing == Some({})
    case Dequeue(w) => w < |s.workers| && s.workers[w].None? && s.queue != []
    case Stored(w, _) => w < |s.workers| && s.workers[w].Some?
  }

  /** The indexing call for a batch returns, after the database has acknowledged so many of its
      documents: all of them, or fewer when it fails. */
  function Finish(s: Pipeline, b: Batch, acknowledged: nat): (r: Pipeline) {
    s.(ended := s.ended + [Ended(b, acknowledged)])
  }

  /** A step; one that is not possible changes nothing. */
  function Next(s: Pipeline, step: Step): (r: Pipeline) {
    if !Enabled(s, step) then s
    else
      match step
      case Receive(index, record) =>
        var (b, batch) := Arrive(s.buffer, s.bufferSize, index, record);
        var out := if batch.Some? then [batch.value] else [];
        s.(buffer := b, senders := s.senders + out, taken := s.taken + out, accepted := s.accepted + [(index, record)])
      case Send(i) =>
        s.(senders := s.senders[..i] + s.senders[i + 1..], queue := s.queue + [s.senders[i]])
      case StartFlush => s.(flushing := Some(s.buffer.Keys))
      case FlushOne(index, acknowledged) =>
        var b := Batch(index, s.buffer[index]);
        var left := s.flushing.value - {index};
        Finish(s.(buffer := s.buffer - {index}, flushing := Some(left), taken := s.taken + [b]), b, acknowledged)
      case EndFlush => s.(flushing := None)
      case Dequeue(w) => s.(workers := s.workers[w := Some(s.queue[0])], queue := s.queue[1..])
      case Stored(w, acknowledged) => Finish(s.(workers := s.workers[w := None]), s.workers[w].value, acknowledged)
  }

  function Run(s: Pipeline, steps: seq<Step>): (r: Pipeline) {
    if steps == [] then s else Next(Run(s, steps[..|steps| - 1]), steps[|steps| - 1])
  }

  // ---------- Order ----------

  /** The accepted records of one index, in order of arrival. */
  function AcceptedOf(rs: seq<Record>, index: string): (r: seq<string>) {
    if rs == [] then []
    else
      var last := rs[|rs| - 1];
      AcceptedOf(rs[..|rs| - 1], index) + (if last.0 == index then [last.1] else [])
  }

  /** The records of one index in a list of batches. */
  function RecordsOf(bs: seq<Batch>, index: string): (r: seq<string>) {
    if bs == [] then []
    else
      var last := bs[|bs| - 1];
      RecordsOf(bs[..|bs| - 1], index) + (if last.index == index then last.records else [])
  }

  /** Batches taken before, then what still waits: the records in the order they came. */
  ghost predicate InOrder(s: Pipeline, index: string) {
    AcceptedOf(s.accepted, index) == RecordsOf(s.taken, index) + Waiting(s.buffer, index)
  }

  ghost predicate BatchFits(bufferSize: int, b: Batch) {
    if bufferSize <= 1 then |b.records| == 1 else 1 <= |b.records| <= bufferSize
  }

  /** Batches held by the workers. */
  function Held(workers: seq<Option<Batch>>): (r: seq<Batch>) {
    if workers == [] then [] else Single(workers[0]) + Held(workers[1..])
  }

  function Count(bs: seq<Batch>, b: Batch): (r: nat) {
    multiset(bs)[b]
  }

  /** Every batch that left the buffer is in exactly one place. */
  ghost predicate BatchConserved(s: Pipeline, b: Batch) {
    Count(s.taken, b) == Count(s.senders, b) + Count(s.queue, b) + Count(Held(s.workers), b)
        + Count(Batches(s.ended), b)
  }

  ghost predicate Inv(s: Pipeline) {
    && (forall index :: InOrder(s, index))
    && (forall index | index in s.buffer :: 1 <= |s.buffer[index]| < s.bufferSize)
    && (s.bufferSize <= 1 ==> s.buffer == map[])
    && (forall b <- s.taken :: BatchFits(s.bufferSize, b))
    && |s.queue| <= CHANNEL_CAPACITY
    && (s.flushing.Some? ==> s.flushing.value == s.buffer.Keys)
    && (forall b :: BatchConserved(s, b))
  }

  lemma AcceptedOfSnoc(rs: seq<Record>, r: Record, index: string)
    ensures AcceptedOf(rs + [r], index) == AcceptedOf(rs, index) + if r.0 == index then [r.1] else []
  {
    assert (rs + [r])[..|rs|] == rs;
  }

  lemma RecordsOfSnoc(bs: seq<Batch>, b: Batch, index: string)
    ensures RecordsOf(bs + [b], index) == RecordsOf(bs, index) + if b.index == index then b.records else []
  {
    assert (bs + [b])[..|bs|] == bs;
  }

  function Single(b: Option<Batch>): (r: seq<Batch>) {
    if b.Some? then [b.value] else []
  }

  lemma {:induction false} HeldUpdate(workers: seq<Option<Batch>>, w: nat, o: Option<Batch>, b: Batch)
    requires w < |workers|
    ensures Count(Held(workers[w := o]), b) + Count(Single(workers[w]), b) ==
            Count(Held(workers), b) + Count(Single(o), b)
  {
    if w == 0 {
      assert workers[w := o][1..] == workers[1..];
      CountAppend(Single(workers[0]), Held(workers[1..]), b);
      CountAppend(Single(o), Held(workers[1..]), b);
    } else {
      assert workers[w := o][1..] == workers[1..][w - 1 := o];
      HeldUpdate(workers[1..], w - 1, o, b);
      CountAppend(Single(workers[0]), Held(workers[1..]), b);
      CountAppend(Single(workers[0]), Held(workers[1..][w - 1 := o]), b);
    }
  }

  lemma ArriveKeepsOrder(buffer: Buffer, bufferSize: int, i: string, record: string, index: string)
    requires bufferSize <= 1 ==> buffer == map[]
    ensures var (b, batch) := Arrive(buffer, bufferSize, i, record);
            && (bufferSize <= 1 ==> b == map[])
            && (if batch.Some? && batch.value.index == index then batch.value.records else []) + Waiting(b, index)
               == Waiting(buffer, index) + if i == index then [record] else []
  {
    var (b, batch) := Arrive(buffer, bufferSize, i, record);
    assert [] + Waiting(b, index) == Waiting(b, index);
    assert Waiting(buffer, index) + [] == Waiting(buffer, index);
  }

  lemma ReceiveKeepsOrder(s: Pipeline, i: string, record: string, index: string)
    requires InOrder(s, index) && (s.bufferSize <= 1 ==> s.buffer == map[])
    ensures InOrder(Next(s, Receive(i, record)), index)
  {
    hide AcceptedOf, RecordsOf, Arrive;
    if Enabled(s, Receive(i, record)) {
      var (b, batch) := Arrive(s.buffer, s.bufferSize, i, record);
      var before, waiting := RecordsOf(s.taken, index), Waiting(s.buffer, index);
      var now := if batch.Some? && batch.value.index == index then batch.value.records else [];
      var arrived := if i == index then [record] else [];
      AcceptedOfSnoc(s.accepted, (i, record), index);
      ArriveKeepsOrder(s.buffer, s.bufferSize, i, record, index);
      var taken' := s.taken + if batch.Some? then [batch.value] else [];
      assert RecordsOf(taken', index) == before + now by {
        if batch.Some? {
          RecordsOfSnoc(s.taken, batch.value, index);
        } else {
          assert s.taken + [] == s.taken;
        }
      }
      calc {
        AcceptedOf(s.accepted + [(i, record)], index);
        before + waiting + arrived;
        before + (waiting + arrived);
        before + (now + Waiting(b, index));
        before + now + Waiting(b, index);
      }
    }
  }

  lemma FlushKeepsOrder(s: Pipeline, i: string, acknowledged: nat, index: string)
    requires InOrder(s, index)
    ensures InOrder(Next(s, FlushOne(i, acknowledged)), index)
  {
    hide AcceptedOf, RecordsOf;
    if Enabled(s, FlushOne(i, acknowledged)) {
      RecordsOfSnoc(s.taken, Batch(i, s.buffer[i]), index);
      assert RecordsOf(s.taken, index) + s.buffer[i] + [] == RecordsOf(s.taken, index) + s.buffer[i];
      assert RecordsOf(s.taken, index) + [] == RecordsOf(s.taken, index);
    }
  }

  lemma NextKeepsOrder(s: Pipeline, step: Step, index: string)
    requires InOrder(s, index) && (s.bufferSize <= 1 ==> s.buffer == map[])
    ensures InOrder(Next(s, step), index)
  {
    match step
    case Receive(i, record) => ReceiveKeepsOrder(s, i, record, index);
    case FlushOne(i, acknowledged) => FlushKeepsOrder(s, i, acknowledged, index);
    case _ =>
  }

  lemma CountAppend(x: seq<Batch>, y: seq<Batch>, b: Batch)
    ensures Count(x + y, b) == Count(x, b) + Count(y, b)
  {
  }

  lemma CountOne(c: Batch, b: Batch)
    ensures Count([c], b) == if b == c then 1 else 0
  {
  }

  lemma CountSingle(o: Option<Batch>, b: Batch)
    ensures Count(Single(o), b) == if o == Some(b) then 1 else 0
  {
  }

  lemma CountRemoved(bs: seq<Batch>, i: nat, b: Batch)
    requires i < |bs|
    ensures Count(bs, b) == Count(bs[..i] + bs[i + 1..], b) + if b == bs[i] then 1 else 0
  {
    assert bs == bs[..i] + [bs[i]] + bs[i + 1..];
    CountOne(bs[i], b);
  }

  lemma EndedOne(s: Pipeline, c: Batch, acknowledged: nat, b: Batch)
    ensures Count(Batches(Finish(s, c, acknowledged).ended), b) == Count(Batches(s.ended), b) + Count([c], b)
  {
    assert Batches(Finish(s, c, acknowledged).ended) == Batches(s.ended) + [c];
  }

  lemma NextKeepsBatch(s: Pipeline, step: Step, b: Batch)
    requires BatchConserved(s, b)
    ensures BatchConserved(Next(s, step), b)
  {
    hide Held, Arrive, Count;
    if Enabled(s, step) {
      match step
      case Receive(index, record) =>
        var batch := Arrive(s.buffer, s.bufferSize, index, record).1;
        var out := if batch.Some? then [batch.value] else [];
        CountAppend(s.senders, out, b);
        CountAppend(s.taken, out, b);
      case Send(i) =>
        CountRemoved(s.senders, i, b);
        CountAppend(s.queue, [s.senders[i]], b);
        CountOne(s.senders[i], b);
      case FlushOne(index, acknowledged) =>
        var c := Batch(index, s.buffer[index]);
        CountAppend(s.taken, [c], b);
        EndedOne(s, c, acknowledged, b);
      case Dequeue(w) =>
        HeldUpdate(s.workers, w, Some(s.queue[0]), b);
        CountSingle(Some(s.queue[0]), b);
        CountSingle(None, b);
        CountRemoved(s.queue, 0, b);
        assert s.queue[..0] + s.queue[1..] == s.queue[1..];
      case Stored(w, acknowledged) =>
        var c := s.workers[w].value;
        HeldUpdate(s.workers, w, None, b);
        CountSingle(s.workers[w], b);
        CountSingle(None, b);
        EndedOne(s, c, acknowledged, b);
        CountOne(c, b);
      case _ =>
    }
  }

  lemma NextKeepsInv(s: Pipeline, step: Step)
    requires Inv(s)
    ensures Inv(Next(s, step)) && Next(s, step).bufferSize == s.bufferSize
  {
    hide InOrder, BatchConserved;
    var s' := Next(s, step);
    forall b ensures BatchConserved(s', b) {
      NextKeepsBatch(s, step, b);
    }
    forall index ensures InOrder(s', index) {
      assert InOrder(s, index);
      NextKeepsOrder(s, step, index);
    }
  }

  lemma {:induction false} RunKeepsInv(s: Pipeline, steps: seq<Step>)
    requires Inv(s)
    ensures Inv(Run(s, steps)) && Run(s, steps).bufferSize == s.bufferSize
  {
    if steps != [] {
      RunKeepsInv(s, steps[..|steps| - 1]);
      NextKeepsInv(Run(s, steps[..|steps| - 1]), steps[|steps| - 1]);
    }
  }

  lemma {:induction false} NothingHeld(workers: seq<Option<Batch>>)
    requires forall w <- workers :: w.None?
    ensures Held(workers) == []
  {
    if workers != [] {
      assert workers[0] in workers;
      NothingHeld(workers[1..]);
    }
  }

  lemma StartInv(bufferSize: int, workers: nat)
    ensures Inv(Start(bufferSize, workers))
  {
    NothingHeld(Start(bufferSize, workers).workers);
    hide Held;
  }

  /** Per-index order, over every run: the batches of an index in the order they left the
      buffer, followed by what still waits, are its accepted records in order of arrival.
      What waits is never empty and never a full batch. */
  lemma PerIndexOrder(bufferSize: int, workers: nat, steps: seq<Step>, index: string)
    ensures var s := Run(Start(bufferSize, workers), steps);
            && AcceptedOf(s.accepted, index) == RecordsOf(s.taken, index) + Waiting(s.buffer, index)
            && (index in s.buffer ==> 1 <= |s.buffer[index]| <= bufferSize - 1)
  {
    StartInv(bufferSize, workers);
    RunKeepsInv(Start(bufferSize, workers), steps);
    assert InOrder(Run(Start(bufferSize, workers), steps), index);
  }

  /** A batch that a receiver takes is full; one that the flusher takes is not. */
  lemma BatchSizes(bufferSize: int, workers: nat, steps: seq<Step>, step: Step)
    ensures var s := Run(Start(bufferSize, workers), steps);
            var s' := Next(s, step);
            s'.taken != s.taken ==>
              && |s'.taken| == |s.taken| + 1
              && var n := |s'.taken[|s.taken|].records|;
                 && (step.Receive? ==> n == if bufferSize > 1 then bufferSize else 1)
                 && (step.FlushOne? ==> 1 <= n < bufferSize)
                 && (step.Receive? || step.FlushOne?)
  {
    StartInv(bufferSize, workers);
    RunKeepsInv(Start(bufferSize, workers), steps);
    hide Run, InOrder, BatchConserved;
    var s := Run(Start(bufferSize, workers), steps);
    assert s.taken + [] == s.taken;
  }

  // ---------- Conservation of records ----------

  /** The records of a list of batches, with their index, as a multiset. */
  function Records(bs: seq<Batch>): (r: multiset<Record>) {
    if bs == [] then multiset{}
    else Records(bs[..|bs| - 1]) + Tagged(bs[|bs| - 1].index, bs[|bs| - 1].records)
  }

  function Tagged(index: string, records: seq<string>): (r: multiset<Record>) {
    if records == [] then multiset{}
    else Tagged(index, records[..|records| - 1])[(index, records[|records| - 1]) :=
           Tagged(index, records[..|records| - 1])[(index, records[|records| - 1])] + 1]
  }

  lemma {:induction false} TaggedCount(index: string, records: seq<string>, r: Record)
    ensures Tagged(index, records)[r] == if r.0 == index then multiset(records)[r.1] else 0
  {
    if records != [] {
      TaggedCount(index, records[..|records| - 1], r);
      assert records == records[..|records| - 1] + [records[|records| - 1]];
    }
  }

  lemma {:induction false} AcceptedCount(rs: seq<Record>, r: Record)
    ensures multiset(rs)[r] == multiset(AcceptedOf(rs, r.0))[r.1]
  {
    if rs != [] {
      AcceptedCount(rs[..|rs| - 1], r);
      assert rs == rs[..|rs| - 1] + [rs[|rs| - 1]];
    }
  }

  lemma {:induction false} RecordsCount(bs: seq<Batch>, r: Record)
    ensures Records(bs)[r] == multiset(RecordsOf(bs, r.0))[r.1]
  {
    if bs != [] {
      var last := bs[|bs| - 1];
      RecordsCount(bs[..|bs| - 1], r);
      TaggedCount(last.index, last.records, r);
    }
  }

  lemma {:induction false} RecordsAppend(a: seq<Batch>, b: seq<Batch>)
    ensures Records(a + b) == Records(a) + Records(b)
  {
    if b == [] {
      assert a + b == a;
    } else {
      assert (a + b)[..|a + b| - 1] == a + b[..|b| - 1];
      RecordsAppend(a, b[..|b| - 1]);
    }
  }

  lemma CancelOne<T>(a: multiset<T>, b: multiset<T>, x: T)
    requires a + multiset{x} == b + multiset{x}
    ensures a == b
  {
    forall y ensures a[y] == b[y] {
      assert (a + multiset{x})[y] == (b + multiset{x})[y];
    }
  }

  /** Only which batches there are matters for the records in them. */
  lemma {:induction false} RecordsOfPermutation(a: seq<Batch>, b: seq<Batch>)
    requires multiset(a) == multiset(b)
    ensures Records(a) == Records(b)
  {
    if a == [] {
      assert |multiset(b)| == 0;
    } else {
      var init, last := a[..|a| - 1], a[|a| - 1];
      assert a == init + [last];
      assert last in multiset(b);
      var k :| 0 <= k < |b| && b[k] == last;
      var before, after := b[..k], b[k + 1..];
      assert b == before + [last] + after;
      assert multiset(before + [last] + after) == multiset(before + after) + multiset{last};
      assert multiset(init) + multiset{last} == multiset(before + after) + multiset{last};
      CancelOne(multiset(init), multiset(before + after), last);
      RecordsOfPermutation(init, before + after);
      RecordsAppend(before, after);
      RecordsAppend(before + [last], after);
      RecordsAppend(before, [last]);
      RecordsAppend(init, [last]);
    }
  }

  /** What the database acknowledged: the front of each batch. */
  function Acknowledged(es: seq<Ended>): (r: seq<Batch>) {
    if es == [] then []
    else
      var e := es[|es| - 1];
      Acknowledged(es[..|es| - 1]) + [Batch(e.batch.index, e.batch.records[..Cut(e)])]
  }

  /** What was disregarded after a failure: the rest of each batch. */
  function Disregarded(es: seq<Ended>): (r: seq<Batch>) {
    if es == [] then []
    else
      var e := es[|es| - 1];
      Disregarded(es[..|es| - 1]) + [Batch(e.batch.index, e.batch.records[Cut(e)..])]
  }

  function Cut(e: Ended): (n: nat)
    ensures n <= |e.batch.records|
  {
    if e.acknowledged < |e.batch.records| then e.acknowledged else |e.batch.records|
  }

  lemma RecordsSnoc(bs: seq<Batch>, b: Batch, r: Record)
    ensures Records(bs + [b])[r] == Records(bs)[r] + if b.index == r.0 then multiset(b.records)[r.1] else 0
  {
    assert (bs + [b])[..|bs|] == bs;
    TaggedCount(b.index, b.records, r);
  }

  lemma {:induction false} EndedIsSplit(es: seq<Ended>, r: Record)
    ensures Records(Batches(es))[r] == Records(Acknowledged(es))[r] + Records(Disregarded(es))[r]
  {
    hide Records;
    if es != [] {
      var init, e := es[..|es| - 1], es[|es| - 1];
      var front, rest := e.batch.records[..Cut(e)], e.batch.records[Cut(e)..];
      EndedIsSplit(init, r);
      assert Batches(es) == Batches(init) + [e.batch];
      RecordsSnoc(Batches(init), e.batch, r);
      RecordsSnoc(Acknowledged(init), Batch(e.batch.index, front), r);
      RecordsSnoc(Disregarded(init), Batch(e.batch.index, rest), r);
      assert e.batch.records == front + rest;
    } else {
      assert Batches(es) == [];
      NoRecords();
    }
  }

  lemma NoRecords()
    ensures Records([]) == multiset{}
  {
  }

  /** Record conservation, over every run: each accepted record waits in the buffer, is held
      by a blocked receiver, is queued, is held by a worker, was acknowledged by the database,
      or was disregarded after its batch failed; exactly once each, and the channel never holds
      more than it can. */
  lemma RecordsConserved(bufferSize: int, workers: nat, steps: seq<Step>, r: Record)
    ensures var s := Run(Start(bufferSize, workers), steps);
            && multiset(s.accepted)[r] ==
                 multiset(Waiting(s.buffer, r.0))[r.1] + Records(s.senders)[r] + Records(s.queue)[r]
                 + Records(Held(s.workers))[r] + Records(Acknowledged(s.ended))[r] + Records(Disregarded(s.ended))[r]
            && |s.queue| <= CHANNEL_CAPACITY
  {
    var s := Run(Start(bufferSize, workers), steps);
    StartInv(bufferSize, workers);
    RunKeepsInv(Start(bufferSize, workers), steps);
    assert InOrder(s, r.0);
    AcceptedCount(s.accepted, r);
    RecordsCount(s.taken, r);
    assert multiset(RecordsOf(s.taken, r.0) + Waiting(s.buffer, r.0))
           == multiset(RecordsOf(s.taken, r.0)) + multiset(Waiting(s.buffer, r.0));
    var held, ended := Held(s.workers), Batches(s.ended);
    var placed := s.senders + s.queue + held + ended;
    forall b ensures multiset(s.taken)[b] == multiset(placed)[b] {
      assert BatchConserved(s, b);
    }
    RecordsOfPermutation(s.taken, placed);
    RecordsAppend(s.senders + s.queue + held, ended);
    RecordsAppend(s.senders + s.queue, held);
    RecordsAppend(s.senders, s.queue);
    EndedIsSplit(s.ended, r);
  }
}
