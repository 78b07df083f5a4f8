/** The expiry protocol at the grain of single map, lock and list operations: one receiver at a
    time, scrapes, and one sweeping goroutine for each expiry process, in any interleaving. The
    collector of a call is left open, because a collector sweep may replace it at any moment. */
module ExpiryProtocol {
  import opened MetricCache
  import opened Wrappers

  /** A cache entry with its expiry record, created together. Before the first `keepAlive` the
      record holds the zero time. The closure has captured collector and key. */
  datatype Entry = Entry(collector: nat, key: string, interval: int, lastArrival: Option<int>, scrapped: bool)

  datatype Owner = ByReceiver | BySweeper

  /** Where a sweeping goroutine is in its walk over the list. */
  datatype Sweeper =
    | Asleep
    | At(pos: nat)
    | Deleting(pos: nat)
    | Loaded(pos: nat, entry: nat)
    | SawScrapped(pos: nat)
    | Deleted(pos: nat)
    | CacheMiss(pos: nat)

  datatype Proc = Proc(list: seq<nat>, lock: Option<Owner>, sweeper: Sweeper)

  /** Where the receiver, which holds the application's lock, is in one call. */
  datatype Receiver =
    | Idle
    | Begun(collector: nat, key: string, interval: int)
    | Looked(collector: nat, key: string, interval: int, found: Option<nat>)
    | Stored(entry: nat, interval: int)
    | Locked(entry: nat, interval: int)
    | Pushed(entry: nat, interval: int)
    | Known(entry: nat)

  datatype State = State(mProc: map<(nat, string), nat>, entries: seq<Entry>, procs: map<int, Proc>, receiver: Receiver)

  const INIT := State(map[], [], map[], Idle)

  datatype Action =
    | Begin(collector: nat, key: string, interval: int)
    | LoadKey
    | LoadOrStoreKey
    | LockList
    | PushRecord
    | UnlockList
    | KeepRecordAlive(now: int)
    | Scrapes(entry: nat)
    | SweepLock(interval: int)
    | SweepExpired(interval: int, now: int)
    | SweepLoad(interval: int)
    | SweepRead(interval: int)
    | SweepDelete(interval: int)
    | SweepRemove(interval: int)
    | SweepUnlock(interval: int)

  function KeyAt(s: State, r: nat): (res: (nat, string))
    requires r < |s.entries|
  {
    (s.entries[r].collector, s.entries[r].key)
  }

  function WithProc(s: State, i: int, p: Proc): (r: State) {
    s.(procs := s.procs[i := p])
  }

  /** What one action does; an action that is not possible now changes nothing. */
  function Next(cfg: Config, s: State, a: Action): (r: State) {
    match a
    case Begin(_, _, _) => Receives(s, a)
    case LoadKey => Receives(s, a)
    case LoadOrStoreKey => Receives(s, a)
    case LockList => Receives(s, a)
    case PushRecord => Receives(s, a)
    case UnlockList => Receives(s, a)
    case KeepRecordAlive(_) => Receives(s, a)
    case Scrapes(r) => if r < |s.entries| then s.(entries := s.entries[r := s.entries[r].(scrapped := true)]) else s
    case _ => if a.interval in s.procs then Sweeps(cfg, s, a, a.interval, s.procs[a.interval]) else s
  }

  function Receives(s: State, a: Action): (r: State) {
    match (a, s.receiver)
    case (Begin(c, k, i), Idle) =>
      s.(procs := if i in s.procs then s.procs else s.procs[i := Proc([], None, Asleep)], receiver := Begun(c, k, i))
    case (LoadKey, Begun(c, k, i)) =>
      s.(receiver := Looked(c, k, i, if (c, k) in s.mProc then Some(s.mProc[(c, k)]) else None))
    case (LoadOrStoreKey, Looked(c, k, i, None)) =>
      if (c, k) in s.mProc then s.(receiver := Stored(s.mProc[(c, k)], i))
      else s.(mProc := s.mProc[(c, k) := |s.entries|], entries := s.entries + [Entry(c, k, i, None, false)],
              receiver := Stored(|s.entries|, i))
    case (LockList, Stored(r, i)) =>
      if i in s.procs && s.procs[i].lock.None? then
        WithProc(s, i, s.procs[i].(lock := Some(ByReceiver))).(receiver := Locked(r, i))
      else s
    case (PushRecord, Locked(r, i)) =>
      if i in s.procs then WithProc(s, i, s.procs[i].(list := s.procs[i].list + [r])).(receiver := Pushed(r, i)) else s
    case (UnlockList, Pushed(r, i)) =>
      if i in s.procs then WithProc(s, i, s.procs[i].(lock := None)).(receiver := Known(r)) else s
    case (KeepRecordAlive(now), Known(r)) => KeepsAlive(s, r, now)
    case (KeepRecordAlive(now), Looked(_, _, _, Some(r))) => KeepsAlive(s, r, now)
    case _ => s
  }

  /** A closure runs under the lock of its record's time stamp. */
  predicate InDelete(s: State, r: nat) {
    && r < |s.entries| && s.entries[r].interval in s.procs
    && var p := s.procs[s.entries[r].interval];
       (p.sweeper.Loaded? || p.sweeper.SawScrapped?) && p.sweeper.pos < |p.list| && p.list[p.sweeper.pos] == r
  }

  function KeepsAlive(s: State, r: nat, now: int): (res: State) {
    if InDelete(s, r) then s
    else
      var entries := if r < |s.entries| then s.entries[r := s.entries[r].(lastArrival := Some(now))] else s.entries;
      s.(entries := entries, receiver := Idle)
  }

  /** The zero time is longer ago than any duration. */
  predicate ExpiredAt(cfg: Config, e: Entry, interval: int, now: int) {
    e.lastArrival.None? || now - e.lastArrival.value >= Expiry(cfg, interval)
  }

  function Sweeps(cfg: Config, s: State, a: Action, i: int, p: Proc): (r: State) {
    match (a, p.sweeper)
    case (SweepLock(_), Asleep) =>
      if p.lock.None? && Expiry(cfg, i) != 0 then WithProc(s, i, p.(lock := Some(BySweeper), sweeper := At(0))) else s
    case (SweepExpired(_, now), At(pos)) =>
      if pos < |p.list| && p.list[pos] < |s.entries| then
        var expired := ExpiredAt(cfg, s.entries[p.list[pos]], i, now);
        WithProc(s, i, p.(sweeper := if expired then Deleting(pos) else At(pos + 1)))
      else s
    case (SweepLoad(_), Deleting(pos)) =>
      if pos < |p.list| && p.list[pos] < |s.entries| then
        var ck := KeyAt(s, p.list[pos]);
        WithProc(s, i, p.(sweeper := if ck in s.mProc then Loaded(pos, s.mProc[ck]) else CacheMiss(pos)))
      else s
    case (SweepRead(_), Loaded(pos, r)) =>
      if r < |s.entries| then
        WithProc(s, i, p.(sweeper := if s.entries[r].scrapped then SawScrapped(pos) else At(pos + 1)))
      else s
    case (SweepRead(_), CacheMiss(pos)) => WithProc(s, i, p.(sweeper := At(pos + 1)))
    case (SweepDelete(_), SawScrapped(pos)) =>
      if pos < |p.list| && p.list[pos] < |s.entries| then
        WithProc(s, i, p.(sweeper := Deleted(pos))).(mProc := s.mProc - {KeyAt(s, p.list[pos])})
      else s
    case (SweepRemove(_), Deleted(pos)) =>
      if pos < |p.list| then WithProc(s, i, p.(list := p.list[..pos] + p.list[pos + 1..], sweeper := At(pos))) else s
    case (SweepUnlock(_), At(pos)) => if pos >= |p.list| then WithProc(s, i, p.(lock := None, sweeper := Asleep)) else s
    case _ => s
  }

  function Run(cfg: Config, actions: seq<Action>): (r: State) {
    if actions == [] then INIT else Next(cfg, Run(cfg, actions[..|actions| - 1]), actions[|actions| - 1])
  }

  // ---------- The invariant ----------

  /** The entry is in the cache, at the key its closure will look up. */
  ghost predicate Owns(s: State, r: nat) {
    r < |s.entries| && KeyAt(s, r) in s.mProc && s.mProc[KeyAt(s, r)] == r
  }

  /** Each listed record belongs to this list, and owns its key exactly when it is not past its own deletion. */
  ghost predicate ListedOk(s: State, i: int, p: Proc, pos: nat) {
    pos < |p.list| ==>
      && p.list[pos] < |s.entries| && s.entries[p.list[pos]].interval == i
      && (p.sweeper != Deleted(pos) <==> Owns(s, p.list[pos]))
  }

  ghost predicate SweeperOk(p: Proc) {
    && (p.lock == Some(BySweeper) <==> p.sweeper != Asleep)
    && match p.sweeper
       case Asleep => true
       case At(pos) => pos <= |p.list|
       case Loaded(pos, r) => pos < |p.list| && r == p.list[pos]
       case CacheMiss(_) => false
       case _ => p.sweeper.pos < |p.list|
  }

  ghost predicate Distinct(l: seq<nat>) {
    forall i, j | 0 <= i < j < |l| :: l[i] != l[j]
  }

  ghost predicate ProcOk(s: State, i: int) {
    i in s.procs ==>
      && Distinct(s.procs[i].list) && SweeperOk(s.procs[i])
      && forall pos :: ListedOk(s, i, s.procs[i], pos)
  }

  /** Stored, and not yet on the list that it is going to be put on. */
  ghost predicate Unlisted(s: State, r: nat, i: int) {
    Owns(s, r) && s.entries[r].interval == i && i in s.procs && r !in s.procs[i].list
  }

  ghost predicate ReceiverOk(s: State) {
    match s.receiver
    case Begun(_, _, i) => i in s.procs
    case Looked(c, k, i, found) => i in s.procs && (found.None? ==> (c, k) !in s.mProc)
    case Stored(r, i) => Unlisted(s, r, i)
    case Locked(r, i) => Unlisted(s, r, i) && s.procs[i].lock == Some(ByReceiver)
    case Pushed(_, i) => i in s.procs && s.procs[i].lock == Some(ByReceiver)
    case _ => true
  }

  ghost predicate MapOk(s: State) {
    forall ck | ck in s.mProc :: s.mProc[ck] < |s.entries| && KeyAt(s, s.mProc[ck]) == ck
  }

  ghost predicate Inv(s: State) {
    MapOk(s) && ReceiverOk(s) && forall i :: ProcOk(s, i)
  }

  /** Whoever owns a key is alone on it, and an owner on a list is on one list, once. */
  lemma OwnersApart(s: State, r: nat, q: nat)
    requires Owns(s, r) && Owns(s, q) && KeyAt(s, r) == KeyAt(s, q)
    ensures r == q
  {
  }

  lemma ListedOnceAt(s: State, i: int, pos: nat, j: int, at: nat)
    requires Inv(s) && i in s.procs && j in s.procs && pos < |s.procs[i].list| && at < |s.procs[j].list|
    requires s.procs[i].list[pos] == s.procs[j].list[at]
    ensures i == j && pos == at
  {
    hide Owns, ReceiverOk, MapOk, SweeperOk;
    assert ProcOk(s, i) && ProcOk(s, j);
    assert ListedOk(s, i, s.procs[i], pos) && ListedOk(s, j, s.procs[j], at);
  }

  /** Keys and map are as before. */
  ghost predicate SameKeys(s: State, s': State) {
    && s'.mProc == s.mProc && |s'.entries| == |s.entries|
    && forall r: nat | r < |s.entries| :: KeyAt(s', r) == KeyAt(s, r) && s'.entries[r].interval == s.entries[r].interval
  }

  lemma SameKeysSameOwners(s: State, s': State)
    requires SameKeys(s, s')
    ensures forall r :: Owns(s', r) == Owns(s, r)
    ensures MapOk(s) ==> MapOk(s')
  {
  }

  lemma StoreKeepsInv(s: State)
    requires Inv(s) && s.receiver.Looked? && s.receiver.found.None?
    ensures Inv(Receives(s, LoadOrStoreKey))
  {
    hide SweeperOk;
    var s', i := Receives(s, LoadOrStoreKey), s.receiver.interval;
    assert ProcOk(s, i);
    forall j ensures ProcOk(s', j) {
      assert ProcOk(s, j);
      forall pos: nat | j in s'.procs ensures ListedOk(s', j, s'.procs[j], pos) {
        assert ListedOk(s, j, s.procs[j], pos);
      }
    }
    forall pos: nat | pos < |s.procs[i].list| ensures s.procs[i].list[pos] != |s.entries| {
      assert ListedOk(s, i, s.procs[i], pos);
    }
  }

  lemma PushKeepsInv(s: State)
    requires Inv(s) && s.receiver.Locked?
    ensures Inv(Receives(s, PushRecord))
  {
    var s', i := Receives(s, PushRecord), s.receiver.interval;
    SameKeysSameOwners(s, s');
    hide Owns, MapOk;
    assert ProcOk(s, i);
    forall j ensures ProcOk(s', j) {
      assert ProcOk(s, j);
      forall pos: nat | j in s'.procs ensures ListedOk(s', j, s'.procs[j], pos) {
        assert ListedOk(s, j, s.procs[j], pos);
      }
    }
  }

  lemma LockingKeepsInv(s: State, a: Action)
    requires Inv(s) && (a.LockList? || a.UnlockList?)
    ensures Inv(Receives(s, a))
  {
    var s' := Receives(s, a);
    SameKeysSameOwners(s, s');
    hide Owns, Distinct, MapOk, SameKeys;
    forall j ensures ProcOk(s', j) {
      assert ProcOk(s, j);
      forall pos: nat | j in s'.procs ensures ListedOk(s', j, s'.procs[j], pos) {
        assert ListedOk(s, j, s.procs[j], pos);
      }
    }
  }

  lemma BeginOrLoadKeepsInv(s: State, a: Action)
    requires Inv(s) && (a.Begin? || a.LoadKey? || a.KeepRecordAlive?)
    ensures Inv(Receives(s, a))
  {
    var s' := Receives(s, a);
    SameKeysSameOwners(s, s');
    assert ReceiverOk(s');
    assert forall j | j in s.procs :: j in s'.procs && s'.procs[j] == s.procs[j];
    assert forall j | j in s'.procs && j !in s.procs :: s'.procs[j] == Proc([], None, Asleep);
    hide Receives, ReceiverOk, Owns, MapOk, SameKeys;
    forall j ensures ProcOk(s', j) {
      assert ProcOk(s, j);
      forall pos: nat | j in s'.procs ensures ListedOk(s', j, s'.procs[j], pos) {
        assert j in s.procs ==> ListedOk(s, j, s.procs[j], pos);
      }
    }
  }

  lemma ScrapeKeepsInv(cfg: Config, s: State, r: nat)
    requires Inv(s)
    ensures Inv(Next(cfg, s, Scrapes(r)))
  {
    var s' := Next(cfg, s, Scrapes(r));
    SameKeysSameOwners(s, s');
    hide Owns, Distinct, MapOk;
    forall i ensures ProcOk(s', i) {
      assert ProcOk(s, i);
      forall pos: nat | i in s'.procs ensures ListedOk(s', i, s'.procs[i], pos) {
        assert ListedOk(s, i, s.procs[i], pos);
      }
    }
  }

  /** The key that a closure deletes is its own: every other owner keeps its key. */
  lemma DeleteKeepsInv(cfg: Config, s: State, a: Action, i: int)
    requires Inv(s) && i in s.procs && a.SweepDelete? && s.procs[i].sweeper.SawScrapped?
    ensures Inv(Sweeps(cfg, s, a, i, s.procs[i]))
  {
    hide Distinct;
    var p, s', at := s.procs[i], Sweeps(cfg, s, a, i, s.procs[i]), s.procs[i].sweeper.pos;
    assert ProcOk(s, i) && ListedOk(s, i, p, at);
    var r := p.list[at];
    forall q: nat | q != r ensures Owns(s', q) == Owns(s, q) {
      if Owns(s, q) && KeyAt(s, q) == KeyAt(s, r) {
        OwnersApart(s, r, q);
      }
    }
    hide Owns;
    forall j ensures ProcOk(s', j) {
      assert ProcOk(s, j);
      forall pos: nat | j in s'.procs ensures ListedOk(s', j, s'.procs[j], pos) {
        assert ListedOk(s, j, s.procs[j], pos);
        if pos < |s.procs[j].list| && s.procs[j].list[pos] == r {
          ListedOnceAt(s, i, at, j, pos);
        }
      }
    }
  }

  lemma DistinctWithout(l: seq<nat>, at: nat)
    requires Distinct(l) && at < |l|
    ensures Distinct(l[..at] + l[at + 1..])
  {
    var l' := l[..at] + l[at + 1..];
    assert forall k | 0 <= k < |l'| :: l'[k] == l[if k < at then k else k + 1];
  }

  lemma RemoveKeepsInv(cfg: Config, s: State, a: Action, i: int)
    requires Inv(s) && i in s.procs && a.SweepRemove? && s.procs[i].sweeper.Deleted?
    ensures Inv(Sweeps(cfg, s, a, i, s.procs[i]))
  {
    var p, s', at := s.procs[i], Sweeps(cfg, s, a, i, s.procs[i]), s.procs[i].sweeper.pos;
    SameKeysSameOwners(s, s');
    hide Owns, MapOk;
    assert ProcOk(s, i);
    DistinctWithout(p.list, at);
    var p' := s'.procs[i];
    assert p'.list == p.list[..at] + p.list[at + 1..] && p'.sweeper == At(at) && p'.lock == p.lock;
    assert s'.procs == s.procs[i := p'] && s'.receiver == s.receiver && s'.entries == s.entries;
    hide Distinct, Sweeps, SameKeys;
    forall j ensures ProcOk(s', j) {
      assert ProcOk(s, j);
      forall pos: nat | j in s'.procs ensures ListedOk(s', j, s'.procs[j], pos) {
        assert ListedOk(s, j, s.procs[j], if j == i && pos >= at then pos + 1 else pos);
      }
    }
  }

  /** All other steps of a sweep only move its own position. */
  ghost predicate OnlyMoves(s: State, s': State, i: int)
    requires i in s.procs
  {
    && i in s'.procs && s'.procs == s.procs[i := s'.procs[i]]
    && s'.receiver == s.receiver && s'.mProc == s.mProc && s'.entries == s.entries
    && var (p, p') := (s.procs[i], s'.procs[i]);
       && p'.list == p.list && SweeperOk(p')
       && (p' == p || (!p.sweeper.Deleted? && !p'.sweeper.Deleted?))
       && (p.lock == Some(ByReceiver) ==> p'.lock == p.lock)
  }

  lemma OtherSweeperStepMoves(cfg: Config, s: State, a: Action, i: int)
    requires Inv(s) && i in s.procs && !a.SweepDelete? && !a.SweepRemove?
    ensures OnlyMoves(s, Sweeps(cfg, s, a, i, s.procs[i]), i)
  {
    var p := s.procs[i];
    assert ProcOk(s, i);
    if a.SweepLoad? && p.sweeper.Deleting? {
      assert ListedOk(s, i, p, p.sweeper.pos);
    }
    hide Expiry, Distinct, MapOk, ReceiverOk, ProcOk, ListedOk;
  }

  lemma MovingKeepsInv(s: State, s': State, i: int)
    requires Inv(s) && i in s.procs && OnlyMoves(s, s', i)
    ensures Inv(s')
  {
    SameKeysSameOwners(s, s');
    hide Distinct, SweeperOk, Owns, MapOk, SameKeys;
    forall j ensures ProcOk(s', j) {
      assert ProcOk(s, j);
      forall pos: nat | j in s'.procs ensures ListedOk(s', j, s'.procs[j], pos) {
        assert ListedOk(s, j, s.procs[j], pos);
      }
    }
  }

  lemma OtherSweeperStepKeepsInv(cfg: Config, s: State, a: Action, i: int)
    requires Inv(s) && i in s.procs && !a.SweepDelete? && !a.SweepRemove?
    ensures Inv(Sweeps(cfg, s, a, i, s.procs[i]))
  {
    hide Inv, Sweeps, OnlyMoves;
    OtherSweeperStepMoves(cfg, s, a, i);
    MovingKeepsInv(s, Sweeps(cfg, s, a, i, s.procs[i]), i);
  }

  lemma NextKeepsInv(cfg: Config, s: State, a: Action)
    requires Inv(s)
    ensures Inv(Next(cfg, s, a))
  {
    hide Inv;
    if a.Scrapes? {
      ScrapeKeepsInv(cfg, s, a.entry);
    } else if a.LoadOrStoreKey? && s.receiver.Looked? && s.receiver.found.None? {
      StoreKeepsInv(s);
    } else if a.PushRecord? && s.receiver.Locked? {
      PushKeepsInv(s);
    } else if a.LockList? || a.UnlockList? {
      LockingKeepsInv(s, a);
    } else if a.Begin? || a.LoadKey? || a.KeepRecordAlive? {
      BeginOrLoadKeepsInv(s, a);
    } else if !a.LoadOrStoreKey? && !a.PushRecord? && a.interval in s.procs {
      var p := s.procs[a.interval];
      if a.SweepDelete? && p.sweeper.SawScrapped? {
        DeleteKeepsInv(cfg, s, a, a.interval);
      } else if a.SweepRemove? && p.sweeper.Deleted? {
        RemoveKeepsInv(cfg, s, a, a.interval);
      } else if !a.SweepDelete? && !a.SweepRemove? {
        OtherSweeperStepKeepsInv(cfg, s, a, a.interval);
      }
    }
  }

  /** Every cached entry is on its list, or the receiver is about to put it there. */
  ghost predicate InCharge(s: State, r: nat) {
    || ((s.receiver.Stored? || s.receiver.Locked?) && s.receiver.entry == r)
    || (r < |s.entries| && s.entries[r].interval in s.procs && r in s.procs[s.entries[r].interval].list)
  }

  ghost predicate AllInCharge(s: State) {
    forall r: nat | Owns(s, r) :: InCharge(s, r)
  }

  /** Only the record that is past its deletion leaves the list. */
  lemma StaysInCharge(s: State, i: int, r: nat)
    requires Inv(s) && i in s.procs && s.procs[i].sweeper.Deleted? && s.procs[i].sweeper.pos < |s.procs[i].list|
    requires Owns(s, r) && r in s.procs[i].list
    ensures var (l, at) := (s.procs[i].list, s.procs[i].sweeper.pos); r in l[..at] + l[at + 1..]
  {
    var l, at := s.procs[i].list, s.procs[i].sweeper.pos;
    assert ProcOk(s, i) && ListedOk(s, i, s.procs[i], at);
    var k :| 0 <= k < |l| && l[k] == r;
    assert k != at;
    assert (l[..at] + l[at + 1..])[if k < at then k else k - 1] == r;
  }

  lemma ReceiverKeepsAllInCharge(s: State, a: Action)
    requires Inv(s) && AllInCharge(s)
    ensures AllInCharge(Receives(s, a))
  {
    hide SweeperOk, Distinct, ListedOk, MapOk;
    var s' := Receives(s, a);
    forall r: nat | Owns(s', r) ensures InCharge(s', r) {
      if Owns(s, r) {
        assert InCharge(s, r);
      }
    }
  }

  lemma SweeperKeepsAllInCharge(cfg: Config, s: State, a: Action, i: int)
    requires Inv(s) && AllInCharge(s) && i in s.procs
    ensures AllInCharge(Sweeps(cfg, s, a, i, s.procs[i]))
  {
    hide Expiry, Distinct, ListedOk, MapOk;
    var s' := Sweeps(cfg, s, a, i, s.procs[i]);
    forall r: nat | Owns(s', r) ensures InCharge(s', r) {
      assert Owns(s, r) && InCharge(s, r);
      assert ProcOk(s, i);
      if a.SweepRemove? && s.procs[i].sweeper.Deleted? && r in s.procs[i].list {
        StaysInCharge(s, i, r);
      }
    }
  }

  lemma NextKeepsAllInCharge(cfg: Config, s: State, a: Action)
    requires Inv(s) && AllInCharge(s)
    ensures AllInCharge(Next(cfg, s, a))
  {
    hide Receives, Sweeps, Inv;
    if a.Scrapes? {
      forall r: nat | Owns(Next(cfg, s, a), r) ensures InCharge(Next(cfg, s, a), r) {
        assert Owns(s, r) && InCharge(s, r);
      }
    } else if a.Begin? || a.LoadKey? || a.LoadOrStoreKey? || a.LockList? || a.PushRecord? || a.UnlockList?
        || a.KeepRecordAlive? {
      ReceiverKeepsAllInCharge(s, a);
    } else if a.interval in s.procs {
      SweeperKeepsAllInCharge(cfg, s, a, a.interval);
    }
  }

  lemma {:induction false} RunKeepsInv(cfg: Config, actions: seq<Action>)
    ensures Inv(Run(cfg, actions)) && AllInCharge(Run(cfg, actions))
  {
    if actions != [] {
      RunKeepsInv(cfg, actions[..|actions| - 1]);
      NextKeepsAllInCharge(cfg, Run(cfg, actions[..|actions| - 1]), actions[|actions| - 1]);
      NextKeepsInv(cfg, Run(cfg, actions[..|actions| - 1]), actions[|actions| - 1]);
    }
  }

  // ---------- What holds in every interleaving ----------

  /** There is a record at this position of this list, and it is not past its own deletion. */
  ghost predicate Registered(s: State, i: int, pos: nat) {
    i in s.procs && pos < |s.procs[i].list| && s.procs[i].sweeper != Deleted(pos)
  }

  lemma RegisteredFindsItsEntry(cfg: Config, actions: seq<Action>, i: int, pos: nat)
    requires Registered(Run(cfg, actions), i, pos)
    ensures var s := Run(cfg, actions); Owns(s, s.procs[i].list[pos])
  {
    RunKeepsInv(cfg, actions);
    var s := Run(cfg, actions);
    hide Run, Owns;
    assert ProcOk(s, i) && ListedOk(s, i, s.procs[i], pos);
  }

  /** At most one registered record for each key of each collector, over all lists. */
  lemma OneRecordPerKey(cfg: Config, actions: seq<Action>, i: int, pos: nat, j: int, at: nat)
    requires var s := Run(cfg, actions);
             && Registered(s, i, pos) && Registered(s, j, at)
             && s.procs[i].list[pos] < |s.entries| && s.procs[j].list[at] < |s.entries|
             && KeyAt(s, s.procs[i].list[pos]) == KeyAt(s, s.procs[j].list[at])
    ensures i == j && pos == at
  {
    RunKeepsInv(cfg, actions);
    var s := Run(cfg, actions);
    RegisteredFindsItsEntry(cfg, actions, i, pos);
    RegisteredFindsItsEntry(cfg, actions, j, at);
    hide Run;
    OwnersApart(s, s.procs[i].list[pos], s.procs[j].list[at]);
    ListedOnceAt(s, i, pos, j, at);
  }

  /** No entry leaks: each cached key has a registered record of its own entry, unless the
      receiver is just about to put it on its list. */
  lemma CachedIsRegistered(cfg: Config, actions: seq<Action>, ck: (nat, string))
    requires ck in Run(cfg, actions).mProc
    ensures var s := Run(cfg, actions);
            || ((s.receiver.Stored? || s.receiver.Locked?) && s.receiver.entry == s.mProc[ck])
            || exists i, pos: nat :: Registered(s, i, pos) && s.procs[i].list[pos] == s.mProc[ck]
  {
    RunKeepsInv(cfg, actions);
    var s := Run(cfg, actions);
    hide Run;
    var r := s.mProc[ck];
    assert Owns(s, r) && InCharge(s, r);
    if !((s.receiver.Stored? || s.receiver.Locked?) && s.receiver.entry == r) {
      var i := s.entries[r].interval;
      var pos: nat :| pos < |s.procs[i].list| && s.procs[i].list[pos] == r;
      assert ProcOk(s, i) && ListedOk(s, i, s.procs[i], pos);
      assert Registered(s, i, pos);
    }
  }

  /** The branch of the closure that reports a cache miss is never taken. */
  lemma CacheMissIsUnreachable(cfg: Config, actions: seq<Action>, i: int)
    requires i in Run(cfg, actions).procs
    ensures !Run(cfg, actions).procs[i].sweeper.CacheMiss?
  {
    RunKeepsInv(cfg, actions);
    hide Run;
    assert ProcOk(Run(cfg, actions), i);
  }
}
