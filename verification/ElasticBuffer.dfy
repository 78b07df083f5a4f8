/** The buffering of the Elasticsearch application: records wait per index until a batch is
    full or the flusher comes by. */
module ElasticBuffer {
  import opened Wrappers

  /** What is sent to the database in one call: records of one index. */
  datatype Batch = Batch(index: string, records: seq<string>)

  type Buffer = map<string, seq<string>>

  function Waiting(buffer: Buffer, index: string): (r: seq<string>) {
    if index in buffer then buffer[index] else []
  }

  /** A record arrives: it waits, or completes a batch, which leaves the buffer. Without
      buffering it is a batch of its own. */
  function Arrive(buffer: Buffer, bufferSize: int, index: string, record: string): (r: (Buffer, Option<Batch>)) {
    if bufferSize <= 1 then (buffer, Some(Batch(index, [record])))
    else
      var list := Waiting(buffer, index) + [record];
      if |list| < bufferSize then (buffer[index := list], None)
      else (buffer - {index}, Some(Batch(index, list)))
  }

  /** Everything that waits, as one batch per index. */
  ghost function BatchesIn(buffer: Buffer): (r: set<Batch>) {
    set i | i in buffer :: Batch(i, buffer[i])
  }

  lemma OneBatchLess(buffer: Buffer, index: string)
    requires index in buffer
    ensures var b := Batch(index, buffer[index]);
            var rest := BatchesIn(buffer - {index});
            BatchesIn(buffer) == rest + {b} && b !in rest
            && multiset(BatchesIn(buffer)) == multiset(rest) + multiset{b}
  {
    var b := Batch(index, buffer[index]);
    var rest := BatchesIn(buffer - {index});
    assert b !in rest;
    forall c ensures c in BatchesIn(buffer) <==> c in rest + {b} {
      if c in BatchesIn(buffer) && c.index != index {
        assert c.index in buffer - {index};
      }
    }
    assert BatchesIn(buffer) == rest + {b};
  }

  /** A batch whose call of the database client has ended, and how many of its documents, from
      the front, the database had acknowledged by then. */
  datatype Ended = Ended(batch: Batch, acknowledged: nat)

  function Batches(es: seq<Ended>): (bs: seq<Batch>)
    ensures |bs| == |es|
  {
    seq(|es|, i requires 0 <= i < |es| => es[i].batch)
  }

  /** `answers` tells which requests for a batch succeed. With bulk indexing there is one request
      for all documents, otherwise one for each, and the first failure ends the call. */
  ghost predicate IsOutcome(e: Ended, bulk: bool, answers: (Batch, nat) -> bool) {
    var n := |e.batch.records|;
    && e.acknowledged <= n
    && (bulk ==> e.acknowledged == if answers(e.batch, 0) then n else 0)
    && (!bulk ==> forall k: nat | k < e.acknowledged :: answers(e.batch, k))
    && (!bulk && e.acknowledged < n ==> !answers(e.batch, e.acknowledged))
  }

  /** The client's call: saves the documents of a batch. */
  method Index(batch: Batch, bulk: bool, answers: (Batch, nat) -> bool) returns (acknowledged: nat, ok: bool)
    ensures IsOutcome(Ended(batch, acknowledged), bulk, answers)
    ensures ok ==> acknowledged == |batch.records|
    ensures !ok ==> bulk || acknowledged < |batch.records|
  {
    if bulk {
      ok := answers(batch, 0);
      acknowledged := if ok then |batch.records| else 0;
      return;
    }
    acknowledged := 0;
    while acknowledged < |batch.records|
      invariant acknowledged <= |batch.records|
      invariant forall k: nat | k < acknowledged :: answers(batch, k)
    {
      if !answers(batch, acknowledged) {
        return acknowledged, false;
      }
      acknowledged := acknowledged + 1;
    }
    ok := true;
  }

  ghost predicate AllOutcomes(es: seq<Ended>, bulk: bool, answers: (Batch, nat) -> bool) {
    forall e <- es :: IsOutcome(e, bulk, answers)
  }

  lemma OneMoreOutcome(es: seq<Ended>, bulk: bool, answers: (Batch, nat) -> bool, e: Ended)
    requires AllOutcomes(es, bulk, answers) && IsOutcome(e, bulk, answers)
    ensures AllOutcomes(es + [e], bulk, answers)
    ensures multiset(Batches(es + [e])) == multiset(Batches(es)) + multiset{e.batch}
  {
    assert Batches(es + [e]) == Batches(es) + [e.batch];
  }

  lemma NothingEnded(bulk: bool, answers: (Batch, nat) -> bool)
    ensures Batches([]) == [] && AllOutcomes([], bulk, answers)
  {
  }

  lemma NoBatches()
    ensures BatchesIn(map[]) == {}
  {
  }

  datatype EventType = ErrorEvent | EventEvent | LogEvent | ResultEvent | TaskEvent

  /** An event, with what the JSON encoder makes of it: the text of the record or an error. */
  datatype Event = Event(eventType: EventType, index: string, encoded: Option<string>)

  class Elasticsearch {
    const bufferSize: int
    var buffer: Buffer
    var outgoing: seq<Batch>   // batches handed to the dump channel
    var ended: seq<Ended>      // batches the flusher is done with

    constructor (size: int)
      ensures bufferSize == size && buffer == map[] && outgoing == [] && ended == []
    {
      bufferSize, buffer, outgoing, ended := size, map[], [], [];
    }

    /** Only events and log records are stored, and only those that can be encoded. */
    method ReceiveEvent(event: Event)
      modifies this`buffer, this`outgoing
      ensures event.eventType in {ErrorEvent, ResultEvent, TaskEvent} || event.encoded.None? ==>
                buffer == old(buffer) && outgoing == old(outgoing)
      ensures event.eventType in {EventEvent, LogEvent} && event.encoded.Some? ==>
                var (b, batch) := Arrive(old(buffer), bufferSize, event.index, event.encoded.value);
                && buffer == b
                && outgoing == old(outgoing) + if batch.Some? then [batch.value] else []
    {
      if !(event.eventType.EventEvent? || event.eventType.LogEvent?) || event.encoded.None? {
        return;
      }
      var record := event.encoded.value;
      var recordList: seq<string>;
      if bufferSize > 1 {
        if event.index !in buffer {
          buffer := buffer[event.index := []];
        }
        buffer := buffer[event.index := buffer[event.index] + [record]];
        if |buffer[event.index]| < bufferSize {
          return;
        }
        recordList := buffer[event.index];
        buffer := buffer - {event.index};
      } else {
        recordList := [record];
      }
      outgoing := outgoing + [Batch(event.index, recordList)];
    }

    /** One tick of the flusher, in whatever order the map is walked: every waiting batch leaves
        the buffer once, whether indexing it succeeds or not. */
    method Flush(bulk: bool, answers: (Batch, nat) -> bool)
      modifies this`buffer, this`ended
      ensures buffer == map[]
      ensures old(ended) <= ended
      ensures multiset(Batches(ended[|old(ended)|..])) == multiset(BatchesIn(old(buffer)))
      ensures AllOutcomes(ended[|old(ended)|..], bulk, answers)
    {
      hide BatchesIn, AllOutcomes, IsOutcome, Batches;
      ghost var done: seq<Ended> := [];
      ghost var all := BatchesIn(buffer);
      NothingEnded(bulk, answers);
      while buffer != map[]
        invariant ended == old(ended) + done
        invariant multiset(Batches(done)) + multiset(BatchesIn(buffer)) == multiset(all)
        invariant AllOutcomes(done, bulk, answers)
        decreases buffer.Keys
      {
        var index :| index in buffer;
        var batch := Batch(index, buffer[index]);
        OneBatchLess(buffer, index);
        var acknowledged, _ := Index(batch, bulk, answers);
        OneMoreOutcome(done, bulk, answers, Ended(batch, acknowledged));
        ended := ended + [Ended(batch, acknowledged)];
        done := done + [Ended(batch, acknowledged)];
        buffer := buffer - {index};
      }
      NoBatches();
      assert ended[|old(ended)|..] == done;
    }
  }
}
