/** What the indexing calls report is what counts; nothing is lost while they succeed; and
    whatever has been accepted can come to its end. */
module ElasticOutcomes {
  import opened ElasticBuffer
  import opened ElasticPipeline
  import opened Wrappers

  lemma RunOneMore(s: Pipeline, steps: seq<Step>, step: Step)
    ensures Run(s, steps + [step]) == Next(Run(s, steps), step)
  {
    assert (steps + [step])[..|steps|] == steps;
  }

  /** A record is accepted unless a flush holds the lock of the buffer. */
  lemma ReceiveAccepts(bufferSize: int, workers: nat, steps: seq<Step>, index: string, record: string)
    requires Run(Start(bufferSize, workers), steps).flushing.None? || bufferSize <= 1
    ensures var s := Run(Start(bufferSize, workers), steps);
            Run(Start(bufferSize, workers), steps + [Receive(index, record)]).accepted == s.accepted + [(index, record)]
  {
    StartInv(bufferSize, workers);
    RunKeepsInv(Start(bufferSize, workers), steps);
    RunOneMore(Start(bufferSize, workers), steps, Receive(index, record));
    hide Run, Arrive;
  }

  // ---------- Outcomes ----------

  function Smaller(a: nat, b: nat): (r: nat)
    ensures r <= a && r <= b && (r == a || r == b)
  {
    if a < b then a else b
  }

  /** One more ended call, in numbers of one record. */
  lemma EndedSnoc(es: seq<Ended>, b: Batch, n: nat, r: Record)
    ensures var k := Smaller(n, |b.records|);
            && Records(Acknowledged(es + [Ended(b, n)]))[r]
               == Records(Acknowledged(es))[r] + (if b.index == r.0 then multiset(b.records[..k])[r.1] else 0)
            && Records(Disregarded(es + [Ended(b, n)]))[r]
               == Records(Disregarded(es))[r] + (if b.index == r.0 then multiset(b.records[k..])[r.1] else 0)
  {
    hide Records;
    var k := Smaller(n, |b.records|);
    assert (es + [Ended(b, n)])[..|es|] == es && Cut(Ended(b, n)) == k;
    RecordsSnoc(Acknowledged(es), Batch(b.index, b.records[..k]), r);
    RecordsSnoc(Disregarded(es), Batch(b.index, b.records[k..]), r);
  }

  /** A worker's call returns after so many documents: of the batch the worker holds, exactly
      those in front count as acknowledged, and exactly the rest as disregarded. */
  lemma StoredIsReported(bufferSize: int, workers: nat, steps: seq<Step>, w: nat, n: nat, r: Record)
    requires var s := Run(Start(bufferSize, workers), steps); w < |s.workers| && s.workers[w].Some?
    ensures var s := Run(Start(bufferSize, workers), steps);
            var s' := Run(Start(bufferSize, workers), steps + [Stored(w, n)]);
            var b := s.workers[w].value;
            var k := if n < |b.records| then n else |b.records|;
            && s'.workers == s.workers[w := None]
            && Records(Acknowledged(s'.ended))[r]
               == Records(Acknowledged(s.ended))[r] + (if b.index == r.0 then multiset(b.records[..k])[r.1] else 0)
            && Records(Disregarded(s'.ended))[r]
               == Records(Disregarded(s.ended))[r] + (if b.index == r.0 then multiset(b.records[k..])[r.1] else 0)
  {
    RunOneMore(Start(bufferSize, workers), steps, Stored(w, n));
    hide Run, Records, Acknowledged, Disregarded;
    var s := Run(Start(bufferSize, workers), steps);
    EndedSnoc(s.ended, s.workers[w].value, n, r);
  }

  /** The same for a batch that the flusher takes from the buffer. */
  lemma FlushIsReported(bufferSize: int, workers: nat, steps: seq<Step>, index: string, n: nat, r: Record)
    requires var s := Run(Start(bufferSize, workers), steps); s.flushing.Some? && index in s.flushing.value
    ensures var s := Run(Start(bufferSize, workers), steps);
            var s' := Run(Start(bufferSize, workers), steps + [FlushOne(index, n)]);
            && index in s.buffer && s'.buffer == s.buffer - {index}
            && var records := s.buffer[index];
               var k := if n < |records| then n else |records|;
               && Records(Acknowledged(s'.ended))[r]
                  == Records(Acknowledged(s.ended))[r] + (if index == r.0 then multiset(records[..k])[r.1] else 0)
               && Records(Disregarded(s'.ended))[r]
                  == Records(Disregarded(s.ended))[r] + (if index == r.0 then multiset(records[k..])[r.1] else 0)
  {
    StartInv(bufferSize, workers);
    RunKeepsInv(Start(bufferSize, workers), steps);
    RunOneMore(Start(bufferSize, workers), steps, FlushOne(index, n));
    hide Run, Records, Acknowledged, Disregarded;
    var s := Run(Start(bufferSize, workers), steps);
    EndedSnoc(s.ended, Batch(index, s.buffer[index]), n, r);
  }

  /** If this step ends an indexing call, the database has acknowledged the whole batch. */
  predicate Succeeds(s: Pipeline, step: Step) {
    match step
    case Stored(w, n) => w < |s.workers| && s.workers[w].Some? ==> n >= |s.workers[w].value.records|
    case FlushOne(index, n) => index in s.buffer ==> n >= |s.buffer[index]|
    case _ => true
  }

  ghost predicate AllSucceed(s: Pipeline, steps: seq<Step>) {
    forall i | 0 <= i < |steps| :: Succeeds(Run(s, steps[..i]), steps[i])
  }

  lemma SucceedingDisregardsNothing(s: Pipeline, step: Step, r: Record)
    requires Succeeds(s, step)
    ensures Records(Disregarded(Next(s, step).ended))[r] == Records(Disregarded(s.ended))[r]
  {
    hide Records, Acknowledged, Disregarded, Arrive;
    match step
    case Stored(w, n) =>
      if w < |s.workers| && s.workers[w].Some? {
        EndedSnoc(s.ended, s.workers[w].value, n, r);
      }
    case FlushOne(index, n) =>
      if index in s.buffer {
        EndedSnoc(s.ended, Batch(index, s.buffer[index]), n, r);
      }
    case _ =>
  }

  lemma {:induction false} SuccessDisregardsNothing(s: Pipeline, steps: seq<Step>, r: Record)
    requires AllSucceed(s, steps)
    ensures Records(Disregarded(Run(s, steps).ended))[r] == Records(Disregarded(s.ended))[r]
  {
    if steps != [] {
      var init := steps[..|steps| - 1];
      assert forall i | 0 <= i < |init| :: init[..i] == steps[..i];
      SuccessDisregardsNothing(s, init, r);
      RunOneMore(s, init, steps[|steps| - 1]);
      assert init + [steps[|steps| - 1]] == steps;
      hide Run, Records, Disregarded;
      SucceedingDisregardsNothing(Run(s, init), steps[|steps| - 1], r);
    }
  }

  /** A run whose indexing calls all succeed disregards nothing: each accepted record waits, is
      held, is queued, or has been acknowledged. */
  lemma SuccessLosesNothing(bufferSize: int, workers: nat, steps: seq<Step>, r: Record)
    requires AllSucceed(Start(bufferSize, workers), steps)
    ensures var s := Run(Start(bufferSize, workers), steps);
            && Records(Disregarded(s.ended))[r] == 0
            && multiset(s.accepted)[r] ==
                 multiset(Waiting(s.buffer, r.0))[r.1] + Records(s.senders)[r] + Records(s.queue)[r]
                 + Records(Held(s.workers))[r] + Records(Acknowledged(s.ended))[r]
  {
    SuccessDisregardsNothing(Start(bufferSize, workers), steps, r);
    NoRecords();
    assert Disregarded([]) == [];
    RecordsConserved(bufferSize, workers, steps, r);
  }

  // ---------- First in, first out ----------

  /** The batches that receivers have put into the channel, in order. */
  ghost function Sent(s: Pipeline, steps: seq<Step>): (r: seq<Batch>) {
    if steps == [] then []
    else
      var init, step := steps[..|steps| - 1], steps[|steps| - 1];
      var (before, after) := (Run(s, init), Run(s, steps));
      Sent(s, init)
      + (if step.Send? && step.sender < |before.senders| && |after.senders| < |before.senders|
         then [before.senders[step.sender]] else [])
  }

  /** The batches that workers have got out of it, in order. */
  ghost function Received(s: Pipeline, steps: seq<Step>): (r: seq<Batch>) {
    if steps == [] then []
    else
      var init, step := steps[..|steps| - 1], steps[|steps| - 1];
      var (before, after) := (Run(s, init), Run(s, steps));
      Received(s, init)
      + (if step.Dequeue? && step.worker < |before.workers| && |after.workers| == |before.workers|
            && before.workers[step.worker].None? && after.workers[step.worker].Some?
         then [after.workers[step.worker].value] else [])
  }

  /** What a step does to the channel. */
  lemma QueueStep(s: Pipeline, step: Step)
    ensures Next(s, step).queue
         == if step.Send? && Enabled(s, step) then s.queue + [s.senders[step.sender]]
            else if step.Dequeue? && Enabled(s, step) then s.queue[1..]
            else s.queue
  {
    hide Arrive;
  }

  lemma SentNext(s: Pipeline, steps: seq<Step>)
    requires steps != []
    ensures var (before, step) := (Run(s, steps[..|steps| - 1]), steps[|steps| - 1]);
            && Sent(s, steps) == Sent(s, steps[..|steps| - 1])
                 + (if step.Send? && Enabled(before, step) then [before.senders[step.sender]] else [])
            && Received(s, steps) == Received(s, steps[..|steps| - 1])
                 + (if step.Dequeue? && Enabled(before, step) then [before.queue[0]] else [])
            && Run(s, steps) == Next(before, step)
  {
    hide Arrive, Finish;
  }

  /** The channel holds 512 batches; a sender gets its batch in if and only if it is not full. */
  lemma SendsUntilFull(bufferSize: int, workers: nat, steps: seq<Step>, i: nat)
    requires i < |Run(Start(bufferSize, workers), steps).senders|
    ensures var s := Run(Start(bufferSize, workers), steps);
            var s' := Run(Start(bufferSize, workers), steps + [Send(i)]);
            if |s.queue| < 512 then s'.queue == s.queue + [s.senders[i]] && |s'.senders| == |s.senders| - 1
            else s' == s
  {
    RunOneMore(Start(bufferSize, workers), steps, Send(i));
    hide Run, Arrive;
  }

  /** Any worker that is free can take the batch at the front. */
  lemma FreeWorkerTakes(bufferSize: int, workers: nat, steps: seq<Step>, w: nat)
    requires var s := Run(Start(bufferSize, workers), steps);
             w < |s.workers| && s.workers[w].None? && s.queue != []
    ensures var s := Run(Start(bufferSize, workers), steps);
            var s' := Run(Start(bufferSize, workers), steps + [Dequeue(w)]);
            s'.workers == s.workers[w := Some(s.queue[0])] && s.queue == [s.queue[0]] + s'.queue
  {
    RunOneMore(Start(bufferSize, workers), steps, Dequeue(w));
    hide Run, Arrive;
  }

  lemma MovedAlong(sent: seq<Batch>, received: seq<Batch>, queue: seq<Batch>)
    requires sent == received + queue
    ensures forall b: Batch :: sent + [b] == received + (queue + [b])
    ensures queue != [] ==> sent == received + [queue[0]] + queue[1..]
    ensures sent + [] == sent && received + [] == received
  {
    forall b: Batch ensures sent + [b] == received + (queue + [b]) {
      assert received + queue + [b] == received + (queue + [b]);
    }
    if queue != [] {
      assert queue == [queue[0]] + queue[1..];
      assert received + ([queue[0]] + queue[1..]) == received + [queue[0]] + queue[1..];
    }
  }

  lemma {:induction false} QueueInOrder(s: Pipeline, steps: seq<Step>)
    requires s.queue == []
    ensures Sent(s, steps) == Received(s, steps) + Run(s, steps).queue
  {
    hide Next;
    if steps != [] {
      var init, step := steps[..|steps| - 1], steps[|steps| - 1];
      QueueInOrder(s, init);
      SentNext(s, steps);
      QueueStep(Run(s, init), step);
      hide Run, Sent, Received;
      MovedAlong(Sent(s, init), Received(s, init), Run(s, init).queue);
    }
  }

  /** The channel is first in, first out: what receivers have sent is what workers have got,
      followed by what is queued. */
  lemma ChannelIsFifo(bufferSize: int, workers: nat, steps: seq<Step>)
    ensures var s0 := Start(bufferSize, workers); Sent(s0, steps) == Received(s0, steps) + Run(s0, steps).queue
  {
    QueueInOrder(Start(bufferSize, workers), steps);
  }

  // ---------- Everything can come to its end ----------

  lemma {:induction false} RunSplit(s: Pipeline, a: seq<Step>, b: seq<Step>)
    ensures Run(s, a + b) == Run(Run(s, a), b)
    decreases |b|
  {
    hide Next;
    if b == [] {
      assert a + b == a;
    } else {
      var init, step := b[..|b| - 1], b[|b| - 1];
      RunSplit(s, a, init);
      assert a + b == a + init + [step];
      assert b == init + [step];
      RunOneMore(s, a + init, step);
      RunOneMore(Run(s, a), init, step);
    }
  }

  /** Nothing new has been accepted, and nothing more disregarded. */
  ghost predicate Carries(s: Pipeline, s': Pipeline) {
    && s'.accepted == s.accepted && s'.bufferSize == s.bufferSize && |s'.workers| == |s.workers|
    && forall r :: Records(Disregarded(s'.ended))[r] == Records(Disregarded(s.ended))[r]
  }

  lemma CarriesOn(s: Pipeline, step: Step)
    requires Inv(s) && Succeeds(s, step) && !step.Receive?
    ensures Run(s, [step]) == Next(s, step) && Inv(Next(s, step)) && Carries(s, Next(s, step))
  {
    RunOneMore(s, [], step);
    assert [] + [step] == [step];
    NextKeepsInv(s, step);
    forall r ensures Records(Disregarded(Next(s, step).ended))[r] == Records(Disregarded(s.ended))[r] {
      SucceedingDisregardsNothing(s, step, r);
    }
    hide Inv, Records, Disregarded, Arrive;
  }

  lemma Together(s: Pipeline, a: seq<Step>, b: seq<Step>)
    requires Carries(s, Run(s, a)) && Carries(Run(s, a), Run(Run(s, a), b))
    ensures Run(s, a + b) == Run(Run(s, a), b) && Carries(s, Run(s, a + b))
  {
    RunSplit(s, a, b);
    hide Records, Disregarded, Run;
  }

  ghost predicate AllFree(s: Pipeline) {
    forall w | 0 <= w < |s.workers| :: s.workers[w].None?
  }

  lemma {:induction false} FlushAll(s: Pipeline) returns (more: seq<Step>)
    requires Inv(s) && s.flushing.Some?
    ensures var s' := Run(s, more);
            && Inv(s') && Carries(s, s') && s'.buffer == map[] && s'.flushing.None?
    decreases |s.buffer|
  {
    if s.buffer == map[] {
      more := [EndFlush];
      assert s.buffer.Keys == {};
      CarriesOn(s, EndFlush);
    } else {
      var index :| index in s.buffer;
      var flush := FlushOne(index, |s.buffer[index]|);
      CarriesOn(s, flush);
      assert |s.buffer - {index}| < |s.buffer| by {
        assert (s.buffer - {index}).Keys == s.buffer.Keys - {index} && |s.buffer.Keys| == |s.buffer|;
        assert |(s.buffer - {index}).Keys| == |s.buffer - {index}|;
      }
      assert Next(s, flush).buffer == s.buffer - {index} && Next(s, flush).flushing.Some?;
      hide Inv, Run, Carries, Next;
      var rest := FlushAll(Next(s, flush));
      Together(s, [flush], rest);
      more := [flush] + rest;
    }
  }

  lemma {:induction false} FreeWorkers(s: Pipeline, w: nat) returns (more: seq<Step>)
    requires Inv(s) && w <= |s.workers| && forall v | 0 <= v < w :: s.workers[v].None?
    ensures var s' := Run(s, more);
            && Inv(s') && Carries(s, s') && AllFree(s')
            && s'.buffer == s.buffer && s'.flushing == s.flushing && s'.queue == s.queue && s'.senders == s.senders
    decreases |s.workers| - w
  {
    if w == |s.workers| {
      more := [];
    } else if s.workers[w].None? {
      more := FreeWorkers(s, w + 1);
    } else {
      var stored := Stored(w, |s.workers[w].value.records|);
      CarriesOn(s, stored);
      var s1 := Next(s, stored);
      assert s1.workers == s.workers[w := None];
      hide Inv, Run, Carries;
      var rest := FreeWorkers(s1, w + 1);
      Together(s, [stored], rest);
      more := [stored] + rest;
    }
  }

  lemma {:induction false} EmptyQueue(s: Pipeline) returns (more: seq<Step>)
    requires Inv(s) && AllFree(s) && |s.workers| > 0
    ensures var s' := Run(s, more);
            && Inv(s') && Carries(s, s') && AllFree(s') && s'.queue == []
            && s'.buffer == s.buffer && s'.flushing == s.flushing && s'.senders == s.senders
    decreases |s.queue|
  {
    if s.queue == [] {
      more := [];
    } else {
      CarriesOn(s, Dequeue(0));
      var s1 := Next(s, Dequeue(0));
      assert s1.workers == s.workers[0 := Some(s.queue[0])] && s1.queue == s.queue[1..];
      assert s1.buffer == s.buffer && s1.flushing == s.flushing && s1.senders == s.senders;
      var stored := Stored(0, |s.queue[0].records|);
      CarriesOn(s1, stored);
      var s2 := Next(s1, stored);
      assert s2.workers == s1.workers[0 := None] && s2.queue == s1.queue;
      assert s2.buffer == s.buffer && s2.flushing == s.flushing && s2.senders == s.senders;
      hide Inv, Run, Carries, Next;
      var rest := EmptyQueue(s2);
      Together(s1, [stored], rest);
      Together(s, [Dequeue(0)], [stored] + rest);
      more := [Dequeue(0)] + ([stored] + rest);
    }
  }

  lemma {:induction false} EmptySenders(s: Pipeline) returns (more: seq<Step>)
    requires Inv(s) && AllFree(s) && |s.workers| > 0 && s.queue == []
    ensures var s' := Run(s, more);
            && Inv(s') && Carries(s, s') && AllFree(s') && s'.queue == [] && s'.senders == []
            && s'.buffer == s.buffer && s'.flushing == s.flushing
    decreases |s.senders|
  {
    if s.senders == [] {
      more := [];
    } else {
      CarriesOn(s, Send(0));
      var s1 := Next(s, Send(0));
      assert |s1.senders| < |s.senders| && s1.workers == s.workers;
      assert s1.buffer == s.buffer && s1.flushing == s.flushing;
      hide Inv, Run, Carries, Next;
      var one := EmptyQueue(s1);
      Together(s, [Send(0)], one);
      var rest := EmptySenders(Run(s1, one));
      Together(s, [Send(0)] + one, rest);
      more := [Send(0)] + one + rest;
    }
  }

  /** Whatever the run has been: as long as there are workers, it can go on so that nothing waits,
      is held or is queued any more, and nothing more is disregarded. So each accepted record that
      was not disregarded before is then acknowledged. */
  lemma EverythingCanBeStored(bufferSize: int, workers: nat, steps: seq<Step>) returns (more: seq<Step>)
    requires workers > 0
    ensures var (s, s') := (Run(Start(bufferSize, workers), steps), Run(Start(bufferSize, workers), steps + more));
            && s'.accepted == s.accepted && s'.buffer == map[] && s'.senders == [] && s'.queue == [] && AllFree(s')
            && s'.flushing.None?
            && forall r :: multiset(s'.accepted)[r] ==
                 Records(Acknowledged(s'.ended))[r] + Records(Disregarded(s.ended))[r]
  {
    var s0 := Start(bufferSize, workers);
    StartInv(bufferSize, workers);
    RunKeepsInv(s0, steps);
    WorkersStay(s0, steps);
    var s := Run(s0, steps);
    more := [];
    if s.flushing.None? {
      CarriesOn(s, StartFlush);
      more := [StartFlush];
    }
    assert Carries(s, Run(s, more)) && Run(s, more).flushing.Some?;
    hide Inv, Run, Carries, Next;
    var a := FlushAll(Run(s, more));
    Together(s, more, a);
    more := more + a;
    var b := FreeWorkers(Run(s, more), 0);
    Together(s, more, b);
    more := more + b;
    CarriesWorkers(s, Run(s, more));
    var c := EmptyQueue(Run(s, more));
    Together(s, more, c);
    more := more + c;
    CarriesWorkers(s, Run(s, more));
    var d := EmptySenders(Run(s, more));
    Together(s, more, d);
    more := more + d;
    RunSplit(s0, steps, more);
    var s' := Run(s, more);
    CarriesWorkers(s, s');
    forall r ensures multiset(s'.accepted)[r] ==
        Records(Acknowledged(s'.ended))[r] + Records(Disregarded(s.ended))[r]
    {
      RecordsConserved(bufferSize, workers, steps + more, r);
      NothingInHand(s', r);
      CarriesRecord(s, s', r);
    }
  }

  lemma CarriesWorkers(s: Pipeline, s': Pipeline)
    requires Carries(s, s')
    ensures |s'.workers| == |s.workers| && s'.accepted == s.accepted
  {
  }

  lemma CarriesRecord(s: Pipeline, s': Pipeline, r: Record)
    requires Carries(s, s')
    ensures Records(Disregarded(s'.ended))[r] == Records(Disregarded(s.ended))[r]
  {
  }

  lemma NothingInHand(s: Pipeline, r: Record)
    requires s.buffer == map[] && s.senders == [] && s.queue == [] && AllFree(s)
    ensures multiset(Waiting(s.buffer, r.0))[r.1] == 0 && Records(s.senders)[r] == 0 && Records(s.queue)[r] == 0
    ensures Records(Held(s.workers))[r] == 0
  {
    NothingHeld(s.workers);
    NoRecords();
  }

  lemma {:induction false} WorkersStay(s: Pipeline, steps: seq<Step>)
    ensures |Run(s, steps).workers| == |s.workers|
  {
    if steps != [] {
      WorkersStay(s, steps[..|steps| - 1]);
      hide Arrive;
    }
  }
}
