/** The expiry process: a list of records that is appended to and swept in place. The records
    implement an interface of two methods, which here are two functions of the record and of
    the state it can see and change. */
module ExpirySweep {
  import opened Wrappers

  /** One element: does it stay, and what does the state become? */
  function Visit<R, W>(e: Option<R>, w: W, expired: (R, W) -> bool, delete: (R, W) -> (bool, W)): (r: (bool, W)) {
    match e
    case None => (false, w)
    case Some(r) => if expired(r, w) then (!delete(r, w).0, delete(r, w).1) else (true, w)
  }

  /** A sweep over the list, on the side of the specification: what stays in it, and the
      state the deletions leave. An element without a value is removed. */
  function Sweep<R, W>(entries: seq<Option<R>>, w: W, expired: (R, W) -> bool,
      delete: (R, W) -> (bool, W)): (r: (seq<Option<R>>, W))
  {
    if entries == [] then ([], w)
    else
      var (keep, w') := Visit(entries[0], w, expired, delete);
      var (kept, w'') := Sweep(entries[1..], w', expired, delete);
      (if keep then [entries[0]] + kept else kept, w'')
  }

  /** Whether Delete is called on an element. */
  predicate Expires<R, W>(e: Option<R>, w: W, expired: (R, W) -> bool) {
    e.Some? && expired(e.value, w)
  }

  /** The records whose Delete is called during a sweep, in order. */
  function Deletions<R, W>(entries: seq<Option<R>>, w: W, expired: (R, W) -> bool,
      delete: (R, W) -> (bool, W)): (r: seq<R>)
  {
    if entries == [] then []
    else
      (if Expires(entries[0], w, expired) then [entries[0].value] else [])
      + Deletions(entries[1..], Visit(entries[0], w, expired, delete).1, expired, delete)
  }

  lemma OneVisit<R, W>(done: seq<Option<R>>, calls: seq<R>, es: seq<Option<R>>, w: W, expired: (R, W) -> bool,
      delete: (R, W) -> (bool, W))
    requires es != []
    ensures var (keep, w') := Visit(es[0], w, expired, delete);
            && Sweep(es, w, expired, delete).1 == Sweep(es[1..], w', expired, delete).1
            && done + Sweep(es, w, expired, delete).0
               == (if keep then done + [es[0]] else done) + Sweep(es[1..], w', expired, delete).0
            && calls + Deletions(es, w, expired, delete)
               == (if Expires(es[0], w, expired) then calls + [es[0].value] else calls)
                   + Deletions(es[1..], w', expired, delete)
  {
    var w' := Visit(es[0], w, expired, delete).1;
    var kept := Sweep(es[1..], w', expired, delete).0;
    assert done + ([es[0]] + kept) == done + [es[0]] + kept;
    var later := Deletions(es[1..], w', expired, delete);
    if Expires(es[0], w, expired) {
      assert calls + ([es[0].value] + later) == calls + [es[0].value] + later;
    } else {
      assert [] + later == later;
    }
  }

  lemma NothingLeft<R, W>(done: seq<Option<R>>, calls: seq<R>, w: W, expired: (R, W) -> bool,
      delete: (R, W) -> (bool, W))
    ensures done + Sweep([], w, expired, delete).0 == done && Sweep([], w, expired, delete).1 == w
    ensures calls + Deletions([], w, expired, delete) == calls
  {
  }

  class ExpiryProc<R(==)> {
    var entries: seq<Option<R>>
    const interval: int

    constructor (interval: int)
      ensures this.interval == interval && entries == []
    {
      this.interval := interval;
      entries := [];
    }

    method Register(e: R)
      modifies this
      ensures entries == old(entries) + [Some(e)]
    {
      entries := entries + [Some(e)];
    }

    /** The cursor walk of the source: the cursor stays where it is after a removal. */
    method Check<W>(w: W, expired: (R, W) -> bool, delete: (R, W) -> (bool, W)) returns (w': W, calls: seq<R>)
      modifies this
      ensures entries == Sweep(old(entries), w, expired, delete).0
      ensures w' == Sweep(old(entries), w, expired, delete).1
      ensures calls == Deletions(old(entries), w, expired, delete)
    {
      hide Sweep, Deletions;
      w', calls := w, [];
      var e := 0;
      assert entries[0..] == entries;
      assert [] + Sweep(entries, w, expired, delete).0 == Sweep(entries, w, expired, delete).0;
      assert [] + Deletions(entries, w, expired, delete) == Deletions(entries, w, expired, delete);
      while e < |entries|
        invariant e <= |entries|
        invariant Sweep(old(entries), w, expired, delete).0 == entries[..e] + Sweep(entries[e..], w', expired, delete).0
        invariant Sweep(old(entries), w, expired, delete).1 == Sweep(entries[e..], w', expired, delete).1
        invariant Deletions(old(entries), w, expired, delete) == calls + Deletions(entries[e..], w', expired, delete)
        decreases |entries| - e
      {
        OneVisit(entries[..e], calls, entries[e..], w', expired, delete);
        assert entries[e..][1..] == entries[e + 1..] && entries[..e + 1] == entries[..e] + [entries[e]];
        if entries[e].None? {
          RemoveAt(e);
          continue;
        }
        var expirable := entries[e].value;
        if expired(expirable, w') {
          var (gone, after) := delete(expirable, w');
          calls, w' := calls + [expirable], after;
          if gone {
            RemoveAt(e);
            continue;
          }
        }
        e := e + 1;
      }
      assert entries[e..] == [] && entries[..e] == entries;
      NothingLeft(entries, calls, w', expired, delete);
    }

    /** The list operation that takes out one element. */
    method RemoveAt(e: nat)
      requires e < |entries|
      modifies this
      ensures entries == old(entries[..e] + entries[e + 1..])
      ensures entries[..e] == old(entries[..e]) && entries[e..] == old(entries[e + 1..])
    {
      entries := entries[..e] + entries[e + 1..];
    }
  }

  // ---------- A sweep is a filter ----------

  /** The state when element i is visited. */
  function StateAt<R, W>(entries: seq<Option<R>>, w: W, expired: (R, W) -> bool, delete: (R, W) -> (bool, W),
      i: nat): (r: W)
    requires i <= |entries|
  {
    if i == 0 then w
    else Visit(entries[i - 1], StateAt(entries, w, expired, delete, i - 1), expired, delete).1
  }

  /** Element i has a value and is not both expired and deletable when it is visited. */
  predicate Stays<R, W>(entries: seq<Option<R>>, w: W, expired: (R, W) -> bool, delete: (R, W) -> (bool, W), i: nat)
    requires i < |entries|
  {
    var s := StateAt(entries, w, expired, delete, i);
    entries[i].Some? && !(expired(entries[i].value, s) && delete(entries[i].value, s).0)
  }

  predicate DeleteCalled<R, W>(entries: seq<Option<R>>, w: W, expired: (R, W) -> bool, delete: (R, W) -> (bool, W),
      i: nat)
    requires i < |entries|
  {
    Expires(entries[i], StateAt(entries, w, expired, delete, i), expired)
  }

  /** The elements of a list at the positions that are marked, in their order. */
  function Marked<T>(ts: seq<T>, marks: seq<bool>): (r: seq<T>)
    requires |ts| == |marks|
  {
    if ts == [] then [] else (if marks[0] then [ts[0]] else []) + Marked(ts[1..], marks[1..])
  }

  lemma {:induction false} StateAtRest<R, W>(entries: seq<Option<R>>, w: W, expired: (R, W) -> bool,
      delete: (R, W) -> (bool, W), i: nat)
    requires 0 < i <= |entries|
    ensures StateAt(entries, w, expired, delete, i)
            == StateAt(entries[1..], Visit(entries[0], w, expired, delete).1, expired, delete, i - 1)
  {
    if i > 1 {
      StateAtRest(entries, w, expired, delete, i - 1);
    } else {
      assert StateAt(entries, w, expired, delete, 0) == w;
    }
  }

  /** The values in a list of elements; an element without one is skipped. */
  function Values<R>(es: seq<Option<R>>): (r: seq<R>) {
    if es == [] then [] else (if es[0].Some? then [es[0].value] else []) + Values(es[1..])
  }

  /** For each element, whether it stays. */
  function Staying<R, W>(entries: seq<Option<R>>, w: W, expired: (R, W) -> bool,
      delete: (R, W) -> (bool, W)): (r: seq<bool>)
  {
    seq(|entries|, i requires 0 <= i < |entries| => Stays(entries, w, expired, delete, i))
  }

  /** For each element, whether its Delete is called. */
  function Called<R, W>(entries: seq<Option<R>>, w: W, expired: (R, W) -> bool,
      delete: (R, W) -> (bool, W)): (r: seq<bool>)
  {
    seq(|entries|, i requires 0 <= i < |entries| => DeleteCalled(entries, w, expired, delete, i))
  }

  lemma MarksOfRest<R, W>(entries: seq<Option<R>>, w: W, expired: (R, W) -> bool, delete: (R, W) -> (bool, W))
    requires entries != []
    ensures var w' := Visit(entries[0], w, expired, delete).1;
            && Staying(entries, w, expired, delete) ==
               [Visit(entries[0], w, expired, delete).0] + Staying(entries[1..], w', expired, delete)
            && Called(entries, w, expired, delete)
               == [Expires(entries[0], w, expired)] + Called(entries[1..], w', expired, delete)
  {
    var rest, w' := entries[1..], Visit(entries[0], w, expired, delete).1;
    assert StateAt(entries, w, expired, delete, 0) == w;
    forall i | 0 < i < |entries|
      ensures Stays(entries, w, expired, delete, i) == Stays(rest, w', expired, delete, i - 1)
      ensures DeleteCalled(entries, w, expired, delete, i) == DeleteCalled(rest, w', expired, delete, i - 1)
    {
      StateAtRest(entries, w, expired, delete, i);
      assert entries[i] == rest[i - 1];
    }
  }

  /** Although every deletion changes the state that later records look at, a sweep visits
      each element once, keeps in their order exactly those that have a value and are not both
      expired and deletable when visited, and calls Delete once for each element found
      expired, in list order, and for no other. */
  lemma {:induction false} SweepIsFilter<R, W>(entries: seq<Option<R>>, w: W, expired: (R, W) -> bool,
      delete: (R, W) -> (bool, W))
    ensures Sweep(entries, w, expired, delete).0 == Marked(entries, Staying(entries, w, expired, delete))
    ensures Sweep(entries, w, expired, delete).1 == StateAt(entries, w, expired, delete, |entries|)
    ensures Deletions(entries, w, expired, delete) == Values(Marked(entries, Called(entries, w, expired, delete)))
  {
    if entries != [] {
      var rest, w' := entries[1..], Visit(entries[0], w, expired, delete).1;
      SweepIsFilter(rest, w', expired, delete);
      StateAtRest(entries, w, expired, delete, |entries|);
      MarksOfRest(entries, w, expired, delete);
      var later := Marked(rest, Called(rest, w', expired, delete));
      assert ([entries[0]] + later)[1..] == later && [] + later == later;
      hide Staying, Called, StateAt;
      assert Staying(entries, w, expired, delete)[1..] == Staying(rest, w', expired, delete);
      assert Called(entries, w, expired, delete)[1..] == Called(rest, w', expired, delete);
    }
  }
}
