/** When a sweep removes an entry whose sample has only just arrived. At the grain of single
    operations a receiver's call can overlap the visit of a sweep to the same entry. */
module ExpiryRaces {
  import opened ExpiryProtocol
  import opened MetricCache
  import opened Wrappers

  // ---------- Visits ----------

  /** The state before action j. */
  function StateAt(cfg: Config, actions: seq<Action>, j: nat): (r: State)
    requires j <= |actions|
  {
    Run(cfg, actions[..j])
  }

  /** The sweep has found the entry expired and is on its way to deleting it. */
  ghost predicate Busy(s: State, i: int, r: nat) {
    && i in s.procs
    && var p := s.procs[i];
       (p.sweeper.Deleting? || p.sweeper.Loaded? || p.sweeper.SawScrapped?) && p.sweeper.pos < |p.list|
           && p.list[p.sweeper.pos] == r
  }

  /** This action is the check that finds the entry expired. */
  ghost predicate Checks(cfg: Config, s: State, a: Action, i: int, r: nat) {
    && a.SweepExpired? && a.interval == i && i in s.procs && s.procs[i].sweeper.At?
    && var p := s.procs[i];
       p.sweeper.pos < |p.list| && p.list[p.sweeper.pos] == r && r < |s.entries|
           && ExpiredAt(cfg, s.entries[r], i, a.now)
  }

  /** One visit: the check is action `check`, and before action n the sweep is still at it. */
  ghost predicate Visit(cfg: Config, actions: seq<Action>, i: int, r: nat, check: nat, n: nat) {
    && check < n <= |actions|
    && Checks(cfg, StateAt(cfg, actions, check), actions[check], i, r)
    && forall j | check < j <= n :: Busy(StateAt(cfg, actions, j), i, r)
  }

  ghost predicate AboutToDelete(s: State, i: int) {
    i in s.procs && s.procs[i].sweeper.SawScrapped?
  }

  /** This action takes the entry out of the cache. */
  ghost predicate Removes(s: State, a: Action, i: int, r: nat) {
    a == SweepDelete(i) && Busy(s, i, r) && AboutToDelete(s, i)
  }

  /** Action d ends this visit by removing the entry. */
  ghost predicate Removal(cfg: Config, actions: seq<Action>, i: int, r: nat, check: nat, d: nat) {
    d < |actions| && Visit(cfg, actions, i, r, check, d) && Removes(StateAt(cfg, actions, d), actions[d], i, r)
  }

  lemma StateAtNext(cfg: Config, actions: seq<Action>, j: nat)
    requires j < |actions|
    ensures StateAt(cfg, actions, j + 1) == Next(cfg, StateAt(cfg, actions, j), actions[j])
  {
    assert actions[..j + 1][..j] == actions[..j];
  }

  lemma StateAtInv(cfg: Config, actions: seq<Action>, j: nat)
    requires j <= |actions|
    ensures Inv(StateAt(cfg, actions, j))
  {
    RunKeepsInv(cfg, actions[..j]);
  }

  lemma BusySince(cfg: Config, s: State, a: Action, i: int, r: nat)
    requires Inv(s) && Busy(Next(cfg, s, a), i, r)
    ensures Busy(s, i, r) || Checks(cfg, s, a, i, r)
  {
    hide Expiry, MapOk, ReceiverOk, Distinct, ListedOk;
    assert ProcOk(s, i);
  }

  lemma NothingIsBusyAtStart(cfg: Config, actions: seq<Action>, i: int, r: nat)
    ensures !Busy(StateAt(cfg, actions, 0), i, r)
  {
  }

  /** Each step towards a deletion belongs to one visit, which began with a check. */
  lemma {:induction false} VisitOf(cfg: Config, actions: seq<Action>, i: int, r: nat, n: nat) returns (check: nat)
    requires n <= |actions| && Busy(StateAt(cfg, actions, n), i, r)
    ensures Visit(cfg, actions, i, r, check, n)
    decreases n
  {
    hide Inv, Busy, Checks, Next;
    assert n > 0 by { NothingIsBusyAtStart(cfg, actions, i, r); }
    StateAtNext(cfg, actions, n - 1);
    StateAtInv(cfg, actions, n - 1);
    BusySince(cfg, StateAt(cfg, actions, n - 1), actions[n - 1], i, r);
    if Busy(StateAt(cfg, actions, n - 1), i, r) {
      check := VisitOf(cfg, actions, i, r, n - 1);
    } else {
      check := n - 1;
    }
  }

  // ---------- Every removal is justified by a check ----------

  /** Only a deleting sweep takes anything out of the cache. */
  lemma OnlyDeletionRemoves(cfg: Config, s: State, a: Action, ck: (nat, string))
    requires Inv(s) && ck in s.mProc && ck !in Next(cfg, s, a).mProc
    ensures a.SweepDelete? && Removes(s, a, a.interval, s.mProc[ck])
  {
    hide Expiry, Distinct;
    assert a.SweepDelete?;
    var i := a.interval;
    assert ProcOk(s, i) && ListedOk(s, i, s.procs[i], s.procs[i].sweeper.pos);
  }

  /** This action reads that a scrape has seen the entry. */
  ghost predicate ReadsScrapped(s: State, a: Action, i: int, r: nat) {
    a == SweepRead(i) && Busy(s, i, r) && s.procs[i].sweeper.Loaded? && r < |s.entries| && s.entries[r].scrapped
  }

  lemma ScrappedSince(cfg: Config, s: State, a: Action, i: int, r: nat)
    requires Inv(s) && Busy(s, i, r) && AboutToDelete(Next(cfg, s, a), i)
    ensures AboutToDelete(s, i) || ReadsScrapped(s, a, i, r)
  {
    hide Expiry, MapOk, ReceiverOk, Distinct, ListedOk;
    assert ProcOk(s, i);
  }

  lemma DeletingAfterCheck(cfg: Config, s: State, a: Action, i: int, r: nat)
    requires Checks(cfg, s, a, i, r)
    ensures !AboutToDelete(Next(cfg, s, a), i)
  {
    hide Expiry;
  }

  /** Behind its check a visit has not read anything yet, and otherwise it is a longer visit. */
  lemma VisitShorter(cfg: Config, actions: seq<Action>, i: int, r: nat, check: nat, n: nat)
    requires n <= |actions| && Visit(cfg, actions, i, r, check, n) && AboutToDelete(StateAt(cfg, actions, n), i)
    ensures check < n - 1 && Visit(cfg, actions, i, r, check, n - 1) && Busy(StateAt(cfg, actions, n - 1), i, r)
  {
    hide Next, StateAt, Checks, AboutToDelete, Busy;
    StateAtNext(cfg, actions, check);
    DeletingAfterCheck(cfg, StateAt(cfg, actions, check), actions[check], i, r);
  }

  lemma {:induction false} ScrappedInVisit(cfg: Config, actions: seq<Action>, i: int, r: nat, check: nat, n: nat)
    returns (read: nat)
    requires n <= |actions| && Visit(cfg, actions, i, r, check, n)
    requires AboutToDelete(StateAt(cfg, actions, n), i)
    ensures check < read < n && ReadsScrapped(StateAt(cfg, actions, read), actions[read], i, r)
    decreases n
  {
    hide Inv, Next, Visit, StateAt, Busy, AboutToDelete, ReadsScrapped;
    VisitShorter(cfg, actions, i, r, check, n);
    StateAtNext(cfg, actions, n - 1);
    StateAtInv(cfg, actions, n - 1);
    ScrappedSince(cfg, StateAt(cfg, actions, n - 1), actions[n - 1], i, r);
    if AboutToDelete(StateAt(cfg, actions, n - 1), i) {
      read := ScrappedInVisit(cfg, actions, i, r, check, n - 1);
    } else {
      read := n - 1;
    }
  }

  /** The receiver is in the middle of a call for this entry. */
  predicate Holds(s: State, r: nat) {
    match s.receiver
    case Looked(_, _, _, Some(q)) => q == r
    case Stored(q, _) => q == r
    case Locked(q, _) => q == r
    case Pushed(q, _) => q == r
    case Known(q) => q == r
    case _ => false
  }

  /** An entry without an arrival time is one that its first call has still in hand. */
  ghost predicate NewIsHeld(s: State) {
    forall r: nat | r < |s.entries| && s.entries[r].lastArrival.None? :: Holds(s, r) && !s.receiver.Looked?
  }

  lemma NextKeepsNewIsHeld(cfg: Config, s: State, a: Action)
    requires Inv(s) && NewIsHeld(s)
    ensures NewIsHeld(Next(cfg, s, a))
  {
    hide Expiry;
  }

  lemma {:induction false} NewIsHeldAt(cfg: Config, actions: seq<Action>, j: nat)
    requires j <= |actions|
    ensures NewIsHeld(StateAt(cfg, actions, j))
    decreases j
  {
    if j > 0 {
      NewIsHeldAt(cfg, actions, j - 1);
      StateAtNext(cfg, actions, j - 1);
      StateAtInv(cfg, actions, j - 1);
      NextKeepsNewIsHeld(cfg, StateAt(cfg, actions, j - 1), actions[j - 1]);
    }
  }

  /** The first call for an entry has put it on its list and has not kept it alive yet. */
  predicate BeforeFirstKeepAlive(s: State, r: nat) {
    && r < |s.entries| && s.entries[r].lastArrival.None?
    && (s.receiver.Pushed? || s.receiver.Known?) && s.receiver.entry == r
  }

  lemma ListedIsPushed(s: State, i: int, pos: nat)
    requires Inv(s) && NewIsHeld(s) && i in s.procs && pos < |s.procs[i].list|
    requires var r := s.procs[i].list[pos]; r < |s.entries| && s.entries[r].lastArrival.None?
    ensures BeforeFirstKeepAlive(s, s.procs[i].list[pos])
  {
    var r := s.procs[i].list[pos];
    assert ProcOk(s, i) && ListedOk(s, i, s.procs[i], pos);
    assert Holds(s, r);
  }

  /** Whatever leaves the cache, in any interleaving, leaves it at the end of a visit of the
      sweep of its own list. At the check of that visit its last arrival was at least the expiry
      time ago, or its first call had put it on the list and not kept it alive yet; and then
      the sweep read that a scrape had seen it. */
  lemma RemovalIsJustified(cfg: Config, actions: seq<Action>, d: nat, ck: (nat, string))
    returns (i: int, check: nat, read: nat)
    requires d < |actions|
    requires ck in StateAt(cfg, actions, d).mProc && ck !in StateAt(cfg, actions, d + 1).mProc
    ensures var r := StateAt(cfg, actions, d).mProc[ck];
            && Removal(cfg, actions, i, r, check, d)
            && check < read < d && ReadsScrapped(StateAt(cfg, actions, read), actions[read], i, r)
            && var e, s := StateAt(cfg, actions, check).entries[r], StateAt(cfg, actions, check);
               || BeforeFirstKeepAlive(s, r)
               || (e.lastArrival.Some? && actions[check].now - e.lastArrival.value >= Expiry(cfg, i))
  {
    StateAtNext(cfg, actions, d);
    StateAtInv(cfg, actions, d);
    var r := StateAt(cfg, actions, d).mProc[ck];
    hide Expiry, Next, Inv, Run, Busy;
    OnlyDeletionRemoves(cfg, StateAt(cfg, actions, d), actions[d], ck);
    i := actions[d].interval;
    check := VisitOf(cfg, actions, i, r, d);
    read := ScrappedInVisit(cfg, actions, i, r, check, d);
    var s := StateAt(cfg, actions, check);
    if s.entries[r].lastArrival.None? {
      StateAtInv(cfg, actions, check);
      NewIsHeldAt(cfg, actions, check);
      ListedIsPushed(s, i, s.procs[i].sweeper.pos);
    }
  }

  // ---------- Exactly when a removal is premature ----------

  predicate Timed(a: Action) {
    a.SweepExpired? || a.KeepRecordAlive?
  }

  /** The clock never goes back between two of its readings. */
  ghost predicate InClockOrder(actions: seq<Action>) {
    forall p, q | 0 <= p < q < |actions| && Timed(actions[p]) && Timed(actions[q]) :: actions[p].now <= actions[q].now
  }

  /** This action ends a call for the entry by keeping its record alive. */
  ghost predicate Refreshes(s: State, a: Action, r: nat) {
    && a.KeepRecordAlive? && Holds(s, r) && (s.receiver.Known? || s.receiver.Looked?)
    && r < |s.entries| && !InDelete(s, r)
  }

  lemma ArrivalStep(cfg: Config, s: State, a: Action, r: nat)
    requires r < |s.entries|
    ensures var s' := Next(cfg, s, a);
            && r < |s'.entries|
            && s'.entries[r].lastArrival == if Refreshes(s, a, r) then Some(a.now) else s.entries[r].lastArrival
  {
    hide Expiry, InDelete;
  }

  lemma HoldsStep(cfg: Config, s: State, a: Action, r: nat)
    requires r < |s.entries| && Holds(s, r)
    ensures Holds(Next(cfg, s, a), r) || Refreshes(s, a, r)
  {
    hide Expiry, InDelete;
  }

  ghost predicate RefreshesAt(cfg: Config, actions: seq<Action>, r: nat, e: nat) {
    e < |actions| && Refreshes(StateAt(cfg, actions, e), actions[e], r)
  }

  /** The arrival time before action n is that of the latest refresh, if there was one. */
  lemma {:induction false} ArrivalSince(cfg: Config, actions: seq<Action>, r: nat, from: nat, n: nat)
    returns (last: Option<nat>)
    requires from <= n <= |actions| && r < |StateAt(cfg, actions, from).entries|
    ensures r < |StateAt(cfg, actions, n).entries|
    ensures last.None? ==>
              && StateAt(cfg, actions, n).entries[r].lastArrival == StateAt(cfg, actions, from).entries[r].lastArrival
              && forall e: nat | from <= e < n :: !RefreshesAt(cfg, actions, r, e)
    ensures last.Some? ==>
              && from <= last.value < n && RefreshesAt(cfg, actions, r, last.value)
              && StateAt(cfg, actions, n).entries[r].lastArrival == Some(actions[last.value].now)
              && forall e: nat | last.value < e < n :: !RefreshesAt(cfg, actions, r, e)
    decreases n
  {
    hide StateAt, Next;
    last := None;
    if from < n {
      last := ArrivalSince(cfg, actions, r, from, n - 1);
      StateAtNext(cfg, actions, n - 1);
      ArrivalStep(cfg, StateAt(cfg, actions, n - 1), actions[n - 1], r);
      if RefreshesAt(cfg, actions, r, n - 1) {
        last := Some(n - 1);
      }
    }
  }

  /** A call that is under way stays so until it refreshes the entry. */
  lemma {:induction false} HoldsUntilRefresh(cfg: Config, actions: seq<Action>, r: nat, j: nat, n: nat)
    requires j <= n <= |actions| && r < |StateAt(cfg, actions, j).entries| && Holds(StateAt(cfg, actions, j), r)
    ensures r < |StateAt(cfg, actions, n).entries|
    ensures Holds(StateAt(cfg, actions, n), r) || exists e: nat | j <= e < n :: RefreshesAt(cfg, actions, r, e)
    decreases n
  {
    hide StateAt, Next, Holds, Refreshes;
    if j < n {
      HoldsUntilRefresh(cfg, actions, r, j, n - 1);
      StateAtNext(cfg, actions, n - 1);
      ArrivalStep(cfg, StateAt(cfg, actions, n - 1), actions[n - 1], r);
      if Holds(StateAt(cfg, actions, n - 1), r) {
        HoldsStep(cfg, StateAt(cfg, actions, n - 1), actions[n - 1], r);
        assert Refreshes(StateAt(cfg, actions, n - 1), actions[n - 1], r) ==> RefreshesAt(cfg, actions, r, n - 1);
      }
    }
  }

  /** A sample is lost: that of a call under way, which will refresh an entry that is gone, or
      one that arrived less than the expiry time before the check. */
  ghost predicate Premature(cfg: Config, actions: seq<Action>, i: int, r: nat, check: nat, d: nat)
    requires Removal(cfg, actions, i, r, check, d)
  {
    var s := StateAt(cfg, actions, d);
    Holds(s, r) || (r < |s.entries| && !ExpiredAt(cfg, s.entries[r], i, actions[check].now))
  }

  /** A refresh behind the check brought a sample that the check could not see as expired. */
  ghost predicate TooLate(cfg: Config, actions: seq<Action>, i: int, r: nat, check: nat, e: nat) {
    && check < e < |actions| && RefreshesAt(cfg, actions, r, e) && actions[check].SweepExpired?
    && actions[check].now - actions[e].now < Expiry(cfg, i)
  }

  /** Premature removal, exactly, for every expiry time: when the entry is removed a call for it
      is under way, or one has refreshed it since the check, less than the expiry time before
      the check or after it. */
  lemma PrematureIff(cfg: Config, actions: seq<Action>, i: int, r: nat, check: nat, d: nat)
    requires InClockOrder(actions) && Removal(cfg, actions, i, r, check, d)
    ensures Premature(cfg, actions, i, r, check, d) <==>
              Holds(StateAt(cfg, actions, d), r) || exists e: nat | e < d :: TooLate(cfg, actions, i, r, check, e)
  {
    hide StateAt, Busy, AboutToDelete, Expiry, Holds, InDelete;
    var last := ArrivalSince(cfg, actions, r, check, d);
    if last.Some? {
      assert TooLate(cfg, actions, i, r, check, last.value) <==>
          !ExpiredAt(cfg, StateAt(cfg, actions, d).entries[r], i, actions[check].now);
      forall e: nat | e < d && TooLate(cfg, actions, i, r, check, e) ensures actions[e].now <= actions[last.value].now {
        assert e <= last.value;
      }
    }
  }

  /** The same in terms of the schedule alone, for a positive expiry time: a removal loses a
      sample if and only if the visit overlaps a call for the entry, that is, such a call is
      under way at the check, at the removal, or at some time between them. */
  lemma PrematureIffOverlap(cfg: Config, actions: seq<Action>, i: int, r: nat, check: nat, d: nat)
    requires InClockOrder(actions) && Removal(cfg, actions, i, r, check, d) && Expiry(cfg, i) > 0
    ensures Premature(cfg, actions, i, r, check, d) <==>
              exists j: nat | check <= j <= d :: Holds(StateAt(cfg, actions, j), r)
  {
    PrematureIff(cfg, actions, i, r, check, d);
    hide StateAt, Busy, AboutToDelete, Expiry, Holds, InDelete, Premature;
    forall e: nat | e < d && TooLate(cfg, actions, i, r, check, e) ensures Holds(StateAt(cfg, actions, e), r) {
    }
    forall j: nat | check <= j <= d && Holds(StateAt(cfg, actions, j), r)
      ensures Premature(cfg, actions, i, r, check, d)
    {
      var _ := ArrivalSince(cfg, actions, r, check, j);
      HoldsUntilRefresh(cfg, actions, r, j, d);
      if !Holds(StateAt(cfg, actions, d), r) {
        var e: nat :| j <= e < d && RefreshesAt(cfg, actions, r, e);
        assert TooLate(cfg, actions, i, r, check, e);
      }
    }
  }

  // ---------- Survival ----------

  lemma OwnsStep(cfg: Config, s: State, a: Action, r: nat)
    requires Inv(s) && Owns(s, r)
    ensures var s' := Next(cfg, s, a);
            && r < |s'.entries| && KeyAt(s', r) == KeyAt(s, r) && s'.entries[r].interval == s.entries[r].interval
            && (Owns(s', r) || KeyAt(s, r) !in s'.mProc)
            && (a != Scrapes(r) ==> s'.entries[r].scrapped == s.entries[r].scrapped)
  {
    hide Expiry, InDelete;
  }

  /** The entry is cached from here to there, and at the end the action has removed it. */
  ghost predicate OwnedTill(cfg: Config, actions: seq<Action>, r: nat, from: nat, n: nat) {
    && from <= n < |actions| && (forall j | from <= j <= n :: Owns(StateAt(cfg, actions, j), r))
    && !Owns(StateAt(cfg, actions, n + 1), r)
  }

  /** A cached entry stays so until some action removes it. */
  lemma {:induction false} OwnedUntil(cfg: Config, actions: seq<Action>, r: nat, from: nat, n: nat)
    returns (d: Option<nat>)
    requires from <= n <= |actions| && Owns(StateAt(cfg, actions, from), r)
    ensures d.None? ==> forall j | from <= j <= n :: Owns(StateAt(cfg, actions, j), r)
    ensures d.Some? ==> d.value < n && OwnedTill(cfg, actions, r, from, d.value)
    decreases n
  {
    hide StateAt, Owns;
    if from == n {
      d := None;
    } else {
      d := OwnedUntil(cfg, actions, r, from, n - 1);
      if d.None? && !Owns(StateAt(cfg, actions, n), r) {
        d := Some(n - 1);
      }
    }
  }

  lemma {:induction false} EntryKept(cfg: Config, actions: seq<Action>, r: nat, from: nat, n: nat)
    requires from <= n <= |actions| && forall j | from <= j <= n :: Owns(StateAt(cfg, actions, j), r)
    ensures r < |StateAt(cfg, actions, from).entries| && r < |StateAt(cfg, actions, n).entries|
    ensures var (e, e') := (StateAt(cfg, actions, from).entries[r], StateAt(cfg, actions, n).entries[r]);
            && (e'.collector, e'.key, e'.interval) == (e.collector, e.key, e.interval)
            && ((forall j | from <= j < n :: actions[j] != Scrapes(r)) ==> e'.scrapped == e.scrapped)
    decreases n
  {
    hide StateAt, Next, Inv;
    assert Owns(StateAt(cfg, actions, from), r) && Owns(StateAt(cfg, actions, n), r);
    if from < n {
      assert Owns(StateAt(cfg, actions, n - 1), r);
      EntryKept(cfg, actions, r, from, n - 1);
      StateAtNext(cfg, actions, n - 1);
      StateAtInv(cfg, actions, n - 1);
      OwnsStep(cfg, StateAt(cfg, actions, n - 1), actions[n - 1], r);
    }
  }

  /** An entry that was removed was removed at the end of a visit of its own list's sweep. */
  lemma RemovedInVisit(cfg: Config, actions: seq<Action>, r: nat, from: nat, d: nat)
    returns (i: int, check: nat, read: nat)
    requires OwnedTill(cfg, actions, r, from, d)
    ensures Removal(cfg, actions, i, r, check, d) && check < read < d
    ensures ReadsScrapped(StateAt(cfg, actions, read), actions[read], i, r)
    ensures StateAt(cfg, actions, check).entries[r].interval == i
    ensures var s := StateAt(cfg, actions, check);
            || BeforeFirstKeepAlive(s, r)
            || (s.entries[r].lastArrival.Some? && actions[check].now - s.entries[r].lastArrival.value >= Expiry(cfg, i))
  {
    StateAtNext(cfg, actions, d);
    StateAtInv(cfg, actions, d);
    var s := StateAt(cfg, actions, d);
    assert Owns(s, r);
    hide StateAt, Next, Inv, Expiry, ReadsScrapped, Removal, BeforeFirstKeepAlive;
    OwnsStep(cfg, s, actions[d], r);
    i, check, read := RemovalIsJustified(cfg, actions, d, KeyAt(s, r));
    ChecksOwnList(cfg, actions, i, r, check, d);
  }

  lemma ChecksOwnList(cfg: Config, actions: seq<Action>, i: int, r: nat, check: nat, d: nat)
    requires Removal(cfg, actions, i, r, check, d)
    ensures r < |StateAt(cfg, actions, check).entries| && StateAt(cfg, actions, check).entries[r].interval == i
    ensures actions[check].SweepExpired? && actions[check].interval == i
  {
    hide StateAt, Busy, AboutToDelete;
    var s := StateAt(cfg, actions, check);
    StateAtInv(cfg, actions, check);
    assert ProcOk(s, i) && ListedOk(s, i, s.procs[i], s.procs[i].sweeper.pos);
  }

  /** A check behind a refresh that finds the entry expired comes at least the expiry time later. */
  lemma CheckIsLate(cfg: Config, actions: seq<Action>, i: int, r: nat, e: nat, check: nat, d: nat)
    requires InClockOrder(actions) && RefreshesAt(cfg, actions, r, e) && e < check
    requires Removal(cfg, actions, i, r, check, d)
    ensures actions[check].SweepExpired? && actions[check].now - actions[e].now >= Expiry(cfg, i)
  {
    hide StateAt, Busy, Expiry, Holds, InDelete, AboutToDelete;
    var last := ArrivalSince(cfg, actions, r, e, check);
    assert last.Some?;
    assert actions[e].now <= actions[last.value].now;
  }

  lemma CheckIsLater(cfg: Config, actions: seq<Action>, i: int, r: nat, e: nat, check: nat, d: nat)
    requires RefreshesAt(cfg, actions, r, e) && e <= d && !Busy(StateAt(cfg, actions, e), i, r)
    requires Removal(cfg, actions, i, r, check, d)
    ensures e < check
  {
    hide StateAt, Busy, AboutToDelete, Holds, InDelete;
  }

  /** Survival: a sample that refreshes a cached entry while no sweep is deleting it keeps the
      entry in the cache as long as every check of its list comes less than the expiry time
      after the sample. */
  lemma FreshSampleSurvives(cfg: Config, actions: seq<Action>, r: nat, e: nat, n: nat)
    requires InClockOrder(actions) && e < n <= |actions|
    requires RefreshesAt(cfg, actions, r, e) && Owns(StateAt(cfg, actions, e), r)
    requires forall i :: !Busy(StateAt(cfg, actions, e), i, r)
    requires var interval := StateAt(cfg, actions, e).entries[r].interval;
             forall q | e < q < n && actions[q].SweepExpired? && actions[q].interval == interval ::
               actions[q].now - actions[e].now < Expiry(cfg, interval)
    ensures Owns(StateAt(cfg, actions, n), r)
  {
    hide StateAt, Owns, Busy, Expiry, RefreshesAt, ReadsScrapped, Removal;
    var gone := OwnedUntil(cfg, actions, r, e, n);
    if gone.Some? {
      var d := gone.value;
      var i, check, _ := RemovedInVisit(cfg, actions, r, e, d);
      CheckIsLater(cfg, actions, i, r, e, check, d);
      CheckIsLate(cfg, actions, i, r, e, check, d);
      ChecksOwnList(cfg, actions, i, r, check, d);
      EntryKept(cfg, actions, r, e, check);
    }
  }

  lemma ScrappedStep(cfg: Config, s: State, a: Action, r: nat)
    requires r < |s.entries| && s.entries[r].scrapped
    ensures r < |Next(cfg, s, a).entries| && Next(cfg, s, a).entries[r].scrapped
  {
    hide Expiry, InDelete;
  }

  lemma {:induction false} ScrappedStays(cfg: Config, actions: seq<Action>, r: nat, j: nat, n: nat)
    requires j <= n <= |actions|
    requires r < |StateAt(cfg, actions, j).entries| && StateAt(cfg, actions, j).entries[r].scrapped
    ensures r < |StateAt(cfg, actions, n).entries| && StateAt(cfg, actions, n).entries[r].scrapped
    decreases n
  {
    if j < n {
      hide StateAt, Next;
      ScrappedStays(cfg, actions, r, j, n - 1);
      StateAtNext(cfg, actions, n - 1);
      ScrappedStep(cfg, StateAt(cfg, actions, n - 1), actions[n - 1], r);
    }
  }

  /** What no scrape sees stays for ever. */
  lemma UnscrapedStays(cfg: Config, actions: seq<Action>, r: nat, j: nat, n: nat)
    requires j <= n <= |actions| && Owns(StateAt(cfg, actions, j), r) && !StateAt(cfg, actions, j).entries[r].scrapped
    requires forall q | j <= q < n :: actions[q] != Scrapes(r)
    ensures Owns(StateAt(cfg, actions, n), r)
  {
    hide StateAt, Owns, Busy, Expiry, RefreshesAt, Removal, BeforeFirstKeepAlive;
    var gone := OwnedUntil(cfg, actions, r, j, n);
    if gone.Some? {
      var _, _, read := RemovedInVisit(cfg, actions, r, j, gone.value);
      if j <= read {
        EntryKept(cfg, actions, r, j, read);
      } else {
        ScrappedStays(cfg, actions, r, read, j);
      }
    }
  }

  // ---------- Two races ----------

  /** The run so far is in clock order, and the clock now shows this time. */
  ghost predicate Clock(actions: seq<Action>, now: int) {
    InClockOrder(actions) && forall a <- actions :: Timed(a) ==> a.now <= now
  }

  lemma OneMore(cfg: Config, actions: seq<Action>, a: Action, now: int) returns (longer: seq<Action>)
    requires Clock(actions, now) && (Timed(a) ==> a.now == now)
    ensures longer == actions + [a] && Run(cfg, longer) == Next(cfg, Run(cfg, actions), a) && Clock(longer, now)
  {
    longer := actions + [a];
    assert longer[..|actions|] == actions;
  }

  /** A state with one entry and one list. */
  function OneEntry(interval: int, arrival: Option<int>, scrapped: bool, cached: bool, p: Proc,
      receiver: Receiver): (r: State)
  {
    State(if cached then map[(0, "up") := 0] else map[], [Entry(0, "up", interval, arrival, scrapped)],
        map[interval := p], receiver)
  }

  lemma EmptyClock(now: int)
    ensures Clock([], now)
  {
  }

  lemma StoredEntry(cfg: Config, interval: int, now: int) returns (actions: seq<Action>)
    ensures Clock(actions, now)
    ensures Run(cfg, actions) == OneEntry(interval, None, false, true, Proc([], None, Asleep), Stored(0, interval))
  {
    assert Run(cfg, []) == INIT;
    hide Run, Sweeps, Clock;
    assert Clock([], now) by { EmptyClock(now); }
    actions := OneMore(cfg, [], Begin(0, "up", interval), now);
    actions := OneMore(cfg, actions, LoadKey, now);
    actions := OneMore(cfg, actions, LoadOrStoreKey, now);
  }

  lemma ListedEntry(cfg: Config, interval: int, now: int) returns (actions: seq<Action>)
    ensures Clock(actions, now)
    ensures Run(cfg, actions) == OneEntry(interval, None, false, true, Proc([0], None, Asleep), Known(0))
  {
    hide Run, Sweeps, Clock;
    actions := StoredEntry(cfg, interval, now);
    actions := OneMore(cfg, actions, LockList, now);
    assert Run(cfg, actions) == OneEntry(interval, None, false, true, Proc([], Some(ByReceiver), Asleep),
        Locked(0, interval));
    actions := OneMore(cfg, actions, PushRecord, now);
    var none: seq<nat> := [];
    assert none + [0] == [0];
    assert Run(cfg, actions) == OneEntry(interval, None, false, true, Proc([0], Some(ByReceiver), Asleep),
        Pushed(0, interval));
    actions := OneMore(cfg, actions, UnlockList, now);
  }

  /** A scrape sees the entry, and a sweep finds it expired. */
  lemma CheckedEntry(cfg: Config, interval: int, arrival: Option<int>, receiver: Receiver, now: int,
      before: seq<Action>)
    returns (actions: seq<Action>)
    requires Expiry(cfg, interval) != 0 && Clock(before, now)
    requires Run(cfg, before) == OneEntry(interval, arrival, false, true, Proc([0], None, Asleep), receiver)
    requires arrival.None? || now - arrival.value >= Expiry(cfg, interval)
    ensures Clock(actions, now)
    ensures Run(cfg, actions) == OneEntry(interval, arrival, true, true, Proc([0], Some(BySweeper), Deleting(0)),
            receiver)
  {
    hide Run, Receives, Expiry, Clock;
    actions := OneMore(cfg, before, Scrapes(0), now);
    assert Run(cfg, actions) == OneEntry(interval, arrival, true, true, Proc([0], None, Asleep), receiver);
    actions := OneMore(cfg, actions, SweepLock(interval), now);
    assert Run(cfg, actions) == OneEntry(interval, arrival, true, true, Proc([0], Some(BySweeper), At(0)), receiver);
    actions := OneMore(cfg, actions, SweepExpired(interval, now), now);
  }

  /** From there on nothing keeps the sweep from removing the entry. */
  lemma RemovedEntry(cfg: Config, interval: int, arrival: Option<int>, receiver: Receiver, now: int,
      before: seq<Action>)
    returns (actions: seq<Action>)
    requires Clock(before, now)
    requires Run(cfg, before) == OneEntry(interval, arrival, true, true, Proc([0], Some(BySweeper), Deleting(0)),
             receiver)
    ensures Clock(actions, now)
    ensures Run(cfg, actions) == OneEntry(interval, arrival, true, false, Proc([0], Some(BySweeper), Deleted(0)),
            receiver)
    ensures actions != [] && actions[|actions| - 1] == SweepDelete(interval)
    ensures Run(cfg, actions[..|actions| - 1])
            == OneEntry(interval, arrival, true, true, Proc([0], Some(BySweeper), SawScrapped(0)), receiver)
  {
    hide Run, Receives, Clock;
    actions := OneMore(cfg, before, SweepLoad(interval), now);
    assert Run(cfg, actions) == OneEntry(interval, arrival, true, true, Proc([0], Some(BySweeper), Loaded(0, 0)),
        receiver);
    actions := OneMore(cfg, actions, SweepRead(interval), now);
    assert Run(cfg, actions) == OneEntry(interval, arrival, true, true, Proc([0], Some(BySweeper), SawScrapped(0)),
        receiver);
    var deletes := OneMore(cfg, actions, SweepDelete(interval), now);
    assert deletes[..|deletes| - 1] == actions;
    return deletes;
  }

  /** The deletion at action d of such a run ends a visit. */
  lemma RemovalOf(cfg: Config, interval: int, arrival: Option<int>, receiver: Receiver, actions: seq<Action>, d: nat)
    returns (check: nat)
    requires d < |actions| && actions[d] == SweepDelete(interval)
    requires Run(cfg, actions[..d])
             == OneEntry(interval, arrival, true, true, Proc([0], Some(BySweeper), SawScrapped(0)), receiver)
    ensures Removal(cfg, actions, interval, 0, check, d) && check < |actions| && actions[check].SweepExpired?
  {
    assert Busy(StateAt(cfg, actions, d), interval, 0) && AboutToDelete(StateAt(cfg, actions, d), interval);
    hide Run, Busy, AboutToDelete;
    check := VisitOf(cfg, actions, interval, 0, d);
  }

  /** The check in front of the first `keepAlive`: an entry that is on its list already and has
      no arrival time yet counts as expired. With a scrape in between, a sample is dropped by a
      sweep that happens at the very moment it arrives, however long its expiry time is. */
  lemma FreshSampleCanBeLost(cfg: Config, interval: int, now: int) returns (actions: seq<Action>, check: nat, d: nat)
    requires Expiry(cfg, interval) != 0
    ensures InClockOrder(actions)
    ensures Removal(cfg, actions, interval, 0, check, d) && Premature(cfg, actions, interval, 0, check, d)
    ensures Run(cfg, actions) == OneEntry(interval, Some(now), true, false, Proc([0], Some(BySweeper), Deleted(0)),
            Idle)
  {
    hide Run, Expiry, Sweeps, Removal;
    actions := ListedEntry(cfg, interval, now);
    actions := CheckedEntry(cfg, interval, None, Known(0), now, actions);
    actions := RemovedEntry(cfg, interval, None, Known(0), now, actions);
    d := |actions| - 1;
    var before := actions[..d];
    actions := OneMore(cfg, actions, KeepRecordAlive(now), now);
    assert actions[..d] == before;
    check := RemovalOf(cfg, interval, None, Known(0), actions, d);
  }

  lemma KnownEntry(cfg: Config, interval: int, now: int) returns (actions: seq<Action>)
    ensures Clock(actions, now)
    ensures Run(cfg, actions) == OneEntry(interval, Some(now), false, true, Proc([0], None, Asleep), Idle)
  {
    hide Run, Sweeps, Clock;
    actions := ListedEntry(cfg, interval, now);
    actions := OneMore(cfg, actions, KeepRecordAlive(now), now);
  }

  /** A second sample finds the entry and keeps it alive, between check and deletion. */
  lemma RefreshedEntry(cfg: Config, interval: int, first: int, now: int, before: seq<Action>)
    returns (actions: seq<Action>)
    requires Clock(before, now)
    requires Run(cfg, before) == OneEntry(interval, Some(first), true, true, Proc([0], Some(BySweeper), Deleting(0)),
             Idle)
    ensures Clock(actions, now)
    ensures Run(cfg, actions) == OneEntry(interval, Some(now), true, true, Proc([0], Some(BySweeper), Deleting(0)),
            Idle)
  {
    hide Run, Sweeps, Clock;
    var p := Proc([0], Some(BySweeper), Deleting(0));
    actions := OneMore(cfg, before, Begin(0, "up", interval), now);
    assert Run(cfg, actions) == OneEntry(interval, Some(first), true, true, p, Begun(0, "up", interval));
    actions := OneMore(cfg, actions, LoadKey, now);
    assert Run(cfg, actions) == OneEntry(interval, Some(first), true, true, p, Looked(0, "up", interval, Some(0)));
    actions := OneMore(cfg, actions, KeepRecordAlive(now), now);
  }

  /** A refresh between check and deletion: the entry has long been known, its next sample
      arrives just when it expires, and it is removed with an arrival time as fresh as can be. */
  lemma RefreshedSampleCanBeLost(cfg: Config, interval: int, first: int)
    returns (actions: seq<Action>, check: nat, d: nat)
    requires Expiry(cfg, interval) > 0
    ensures InClockOrder(actions)
    ensures Removal(cfg, actions, interval, 0, check, d) && Premature(cfg, actions, interval, 0, check, d)
    ensures var now := first + Expiry(cfg, interval);
            Run(cfg, actions) == OneEntry(interval, Some(now), true, false, Proc([0], Some(BySweeper), Deleted(0)),
                Idle)
  {
    hide Run, Expiry, Sweeps, Receives, Removal;
    var now := first + Expiry(cfg, interval);
    actions := KnownEntry(cfg, interval, first);
    actions := CheckedEntry(cfg, interval, Some(first), Idle, now, actions);
    actions := RefreshedEntry(cfg, interval, first, now, actions);
    actions := RemovedEntry(cfg, interval, Some(now), Idle, now, actions);
    d := |actions| - 1;
    check := RemovalOf(cfg, interval, Some(now), Idle, actions, d);
    assert actions[check] in actions;
  }
}
