/** What the expiry protocol gets done: a sweep that nothing interrupts removes exactly what is due,
    and from every state that an interleaving can reach, sweeps and receiving calls can end. */
module ExpiryProgress {
  import opened ExpiryProtocol
  import opened MetricCache
  import opened Wrappers

  /** The steps of the sweep of one interval while the clock shows now. */
  predicate OfSweep(a: Action, i: int, now: int) {
    || a == SweepLock(i) || a == SweepExpired(i, now) || a == SweepLoad(i) || a == SweepRead(i)
    || a == SweepDelete(i) || a == SweepRemove(i) || a == SweepUnlock(i)
  }

  function RunFrom(cfg: Config, s: State, steps: seq<Action>): (r: State) {
    if steps == [] then s else Next(cfg, RunFrom(cfg, s, steps[..|steps| - 1]), steps[|steps| - 1])
  }

  lemma OneStep(cfg: Config, s: State, steps: seq<Action>, a: Action)
    ensures RunFrom(cfg, s, steps + [a]) == Next(cfg, RunFrom(cfg, s, steps), a)
  {
    assert (steps + [a])[..|steps|] == steps;
  }

  lemma {:induction false} RunFromMore(cfg: Config, s: State, steps: seq<Action>, more: seq<Action>)
    ensures RunFrom(cfg, s, steps + more) == RunFrom(cfg, RunFrom(cfg, s, steps), more)
  {
    if more == [] {
      assert steps + more == steps;
    } else {
      var init := more[..|more| - 1];
      RunFromMore(cfg, s, steps, init);
      assert steps + more == steps + init + [more[|more| - 1]];
      OneStep(cfg, s, steps + init, more[|more| - 1]);
    }
  }

  lemma {:induction false} RunIsRunFrom(cfg: Config, actions: seq<Action>)
    ensures Run(cfg, actions) == RunFrom(cfg, INIT, actions)
  {
    if actions != [] {
      RunIsRunFrom(cfg, actions[..|actions| - 1]);
    }
  }

  lemma RunOn(cfg: Config, actions: seq<Action>, steps: seq<Action>)
    ensures Run(cfg, actions + steps) == RunFrom(cfg, Run(cfg, actions), steps)
  {
    RunIsRunFrom(cfg, actions);
    RunIsRunFrom(cfg, actions + steps);
    RunFromMore(cfg, INIT, actions, steps);
  }

  lemma {:induction false} RunFromKeepsInv(cfg: Config, s: State, steps: seq<Action>)
    requires Inv(s)
    ensures Inv(RunFrom(cfg, s, steps))
  {
    hide Inv, Next;
    if steps != [] {
      RunFromKeepsInv(cfg, s, steps[..|steps| - 1]);
      NextKeepsInv(cfg, RunFrom(cfg, s, steps[..|steps| - 1]), steps[|steps| - 1]);
    }
  }

  // ---------- A sweep that nothing interrupts ----------

  /** Never kept alive or not for the expiry time, and seen by a scrape. */
  predicate Due(cfg: Config, entries: seq<Entry>, i: int, now: int, r: nat) {
    && r < |entries| && entries[r].scrapped
    && (entries[r].lastArrival.Some? ==> now - entries[r].lastArrival.value >= Expiry(cfg, i))
  }

  function NotDue(cfg: Config, entries: seq<Entry>, i: int, now: int, l: seq<nat>): (kept: seq<nat>) {
    if l == [] then []
    else (if Due(cfg, entries, i, now, l[0]) then [] else [l[0]]) + NotDue(cfg, entries, i, now, l[1..])
  }

  function DueKeys(cfg: Config, entries: seq<Entry>, i: int, now: int, l: seq<nat>): (r: set<(nat, string)>) {
    set k | 0 <= k < |l| && Due(cfg, entries, i, now, l[k]) :: (entries[l[k]].collector, entries[l[k]].key)
  }

  /** After the visit of the record at a position. */
  function Visited(cfg: Config, s: State, i: int, now: int, pos: nat): (r: State)
    requires i in s.procs && pos < |s.procs[i].list|
  {
    var p := s.procs[i];
    var keys := DueKeys(cfg, s.entries, i, now, [p.list[pos]]);
    if Due(cfg, s.entries, i, now, p.list[pos]) then
      WithProc(s, i, p.(list := p.list[..pos] + p.list[pos + 1..])).(mProc := s.mProc - keys)
    else WithProc(s, i, p.(sweeper := At(pos + 1)))
  }

  /** The same state with the sweep elsewhere. */
  function Moved(s: State, i: int, w: Sweeper): (r: State)
    requires i in s.procs
  {
    WithProc(s, i, s.procs[i].(sweeper := w))
  }

  lemma MovedTwice(s: State, i: int, w: Sweeper, w': Sweeper)
    requires i in s.procs
    ensures Moved(Moved(s, i, w), i, w') == Moved(s, i, w')
  {
    assert s.procs[i := s.procs[i].(sweeper := w)][i := s.procs[i].(sweeper := w')]
        == s.procs[i := s.procs[i].(sweeper := w')];
  }

  lemma CheckStep(cfg: Config, s: State, i: int, now: int, pos: nat)
    requires i in s.procs && pos < |s.procs[i].list| && s.procs[i].list[pos] < |s.entries|
    requires s.procs[i].sweeper == At(pos)
    ensures Next(cfg, s, SweepExpired(i, now))
         == Moved(s, i, if ExpiredAt(cfg, s.entries[s.procs[i].list[pos]], i, now) then Deleting(pos) else At(pos + 1))
  {
    hide ExpiredAt;
  }

  lemma LoadStep(cfg: Config, s: State, i: int, pos: nat)
    requires i in s.procs && pos < |s.procs[i].list| && Owns(s, s.procs[i].list[pos])
    requires s.procs[i].sweeper == Deleting(pos)
    ensures Next(cfg, s, SweepLoad(i)) == Moved(s, i, Loaded(pos, s.procs[i].list[pos]))
  {
  }

  lemma ReadStep(cfg: Config, s: State, i: int, pos: nat, r: nat)
    requires i in s.procs && r < |s.entries| && s.procs[i].sweeper == Loaded(pos, r)
    ensures Next(cfg, s, SweepRead(i)) == Moved(s, i, if s.entries[r].scrapped then SawScrapped(pos) else At(pos + 1))
  {
  }

  lemma VisitSteps(cfg: Config, s: State, i: int, now: int, pos: nat)
    requires i in s.procs && pos < |s.procs[i].list| && Owns(s, s.procs[i].list[pos])
    ensures var r := s.procs[i].list[pos];
            && Next(cfg, Moved(s, i, At(pos)), SweepExpired(i, now))
               == Moved(s, i, if ExpiredAt(cfg, s.entries[r], i, now) then Deleting(pos) else At(pos + 1))
            && Next(cfg, Moved(s, i, Deleting(pos)), SweepLoad(i)) == Moved(s, i, Loaded(pos, r))
            && Next(cfg, Moved(s, i, Loaded(pos, r)), SweepRead(i))
               == Moved(s, i, if s.entries[r].scrapped then SawScrapped(pos) else At(pos + 1))
  {
    hide ExpiredAt, Next;
    var r := s.procs[i].list[pos];
    CheckStep(cfg, Moved(s, i, At(pos)), i, now, pos);
    LoadStep(cfg, Moved(s, i, Deleting(pos)), i, pos);
    ReadStep(cfg, Moved(s, i, Loaded(pos, r)), i, pos, r);
    MovedTwice(s, i, At(pos), if ExpiredAt(cfg, s.entries[r], i, now) then Deleting(pos) else At(pos + 1));
    MovedTwice(s, i, Deleting(pos), Loaded(pos, r));
    MovedTwice(s, i, Loaded(pos, r), if s.entries[r].scrapped then SawScrapped(pos) else At(pos + 1));
  }

  lemma DeletionSteps(cfg: Config, s: State, i: int, now: int, pos: nat)
    requires i in s.procs && s.procs[i].sweeper == At(pos) && pos < |s.procs[i].list|
    requires Due(cfg, s.entries, i, now, s.procs[i].list[pos])
    ensures var t := Next(cfg, Moved(s, i, SawScrapped(pos)), SweepDelete(i));
            Next(cfg, t, SweepRemove(i)) == Visited(cfg, s, i, now, pos)
  {
    var p, r := s.procs[i], s.procs[i].list[pos];
    assert DueKeys(cfg, s.entries, i, now, [r]) == {KeyAt(s, r)} by {
      assert [r][0] == r;
    }
    hide Due, DueKeys;
    var t := Next(cfg, Moved(s, i, SawScrapped(pos)), SweepDelete(i));
    assert t == Moved(s, i, Deleted(pos)).(mProc := s.mProc - {KeyAt(s, r)});
  }

  lemma VisitEnds(cfg: Config, s: State, i: int, now: int, pos: nat) returns (steps: seq<Action>)
    requires Inv(s) && i in s.procs && s.procs[i].sweeper == At(pos) && pos < |s.procs[i].list|
    ensures forall a <- steps :: OfSweep(a, i, now)
    ensures RunFrom(cfg, s, steps) == Visited(cfg, s, i, now, pos)
  {
    var p, r := s.procs[i], s.procs[i].list[pos];
    assert ProcOk(s, i) && ListedOk(s, i, p, pos);
    VisitSteps(cfg, s, i, now, pos);
    assert Moved(s, i, At(pos)) == s;
    var check, load, read := [SweepExpired(i, now)], [SweepLoad(i)], [SweepRead(i)];
    OneStep(cfg, s, [], SweepExpired(i, now));
    OneStep(cfg, s, check, SweepLoad(i));
    OneStep(cfg, s, check + load, SweepRead(i));
    OneStep(cfg, s, check + load + read, SweepDelete(i));
    OneStep(cfg, s, check + load + read + [SweepDelete(i)], SweepRemove(i));
    assert RunFrom(cfg, s, []) == s && [] + check == check;
    if Due(cfg, s.entries, i, now, r) {
      DeletionSteps(cfg, s, i, now, pos);
    }
    hide Inv, Next, RunFrom, Moved, Expiry;
    steps := check;
    if ExpiredAt(cfg, s.entries[r], i, now) {
      steps := if s.entries[r].scrapped then check + load + read + [SweepDelete(i)] + [SweepRemove(i)]
      else check + load + read;
    }
  }

  /** The state when the walk from a position has come to its end. */
  function WalkedFrom(cfg: Config, s: State, i: int, now: int, pos: nat): (r: State)
    requires i in s.procs && pos <= |s.procs[i].list|
  {
    var l := s.procs[i].list;
    s.(mProc := s.mProc - DueKeys(cfg, s.entries, i, now, l[pos..]),
       procs := s.procs[i := Proc(l[..pos] + NotDue(cfg, s.entries, i, now, l[pos..]), None, Asleep)])
  }

  lemma VisitedThenWalked(cfg: Config, s: State, i: int, now: int, pos: nat)
    requires i in s.procs && pos < |s.procs[i].list|
    ensures var t := Visited(cfg, s, i, now, pos);
            var next := if Due(cfg, s.entries, i, now, s.procs[i].list[pos]) then pos else pos + 1;
            && i in t.procs && next <= |t.procs[i].list|
            && WalkedFrom(cfg, t, i, now, next) == WalkedFrom(cfg, s, i, now, pos)
  {
    var l, t := s.procs[i].list, Visited(cfg, s, i, now, pos);
    assert l[pos..] == [l[pos]] + l[pos + 1..];
    assert DueKeys(cfg, s.entries, i, now, l[pos..])
        == DueKeys(cfg, s.entries, i, now, [l[pos]]) + DueKeys(cfg, s.entries, i, now, l[pos + 1..]) by {
      DueKeysOfFirst(cfg, s.entries, i, now, l[pos..]);
    }
    hide DueKeys;
    assert l[pos..][1..] == l[pos + 1..];
    var p' := WalkedFrom(cfg, s, i, now, pos).procs[i];
    assert t.procs[i := p'] == s.procs[i := p'];
    assert s.mProc - DueKeys(cfg, s.entries, i, now, [l[pos]]) - DueKeys(cfg, s.entries, i, now, l[pos + 1..])
        == s.mProc - DueKeys(cfg, s.entries, i, now, l[pos..]);
    if Due(cfg, s.entries, i, now, l[pos]) {
      assert t.procs[i].list[..pos] == l[..pos] && t.procs[i].list[pos..] == l[pos + 1..];
      var kept := NotDue(cfg, s.entries, i, now, l[pos + 1..]);
      assert NotDue(cfg, s.entries, i, now, l[pos..]) == [] + kept == kept;
    } else {
      assert l[..pos + 1] + NotDue(cfg, s.entries, i, now, l[pos + 1..])
          == l[..pos] + ([l[pos]] + NotDue(cfg, s.entries, i, now, l[pos + 1..]));
      NothingDue(cfg, s.entries, i, now, l[pos]);
    }
  }

  lemma NothingDue(cfg: Config, entries: seq<Entry>, i: int, now: int, r: nat)
    requires !Due(cfg, entries, i, now, r)
    ensures DueKeys(cfg, entries, i, now, [r]) == {}
  {
  }

  lemma DueKeysOfFirst(cfg: Config, entries: seq<Entry>, i: int, now: int, l: seq<nat>)
    requires l != []
    ensures DueKeys(cfg, entries, i, now, l)
         == DueKeys(cfg, entries, i, now, [l[0]]) + DueKeys(cfg, entries, i, now, l[1..])
  {
    var all, first, rest := DueKeys(cfg, entries, i, now, l), DueKeys(cfg, entries, i, now, [l[0]]),
        DueKeys(cfg, entries, i, now, l[1..]);
    forall ck ensures ck in all <==> ck in first + rest {
      if ck in all {
        var k :| 0 <= k < |l| && Due(cfg, entries, i, now, l[k]) && ck == (entries[l[k]].collector, entries[l[k]].key);
        assert k == 0 || l[1..][k - 1] == l[k];
        assert k == 0 ==> [l[0]][0] == l[k];
      }
      if ck in first {
        assert [l[0]][0] == l[0];
      }
      if ck in rest {
        var k :| 0 <= k < |l[1..]| && Due(cfg, entries, i, now, l[1..][k])
            && ck == (entries[l[1..][k]].collector, entries[l[1..][k]].key);
        assert l[1..][k] == l[k + 1];
      }
    }
  }

  lemma EndOfWalk(cfg: Config, s: State, i: int, now: int)
    requires i in s.procs && s.procs[i].sweeper == At(|s.procs[i].list|)
    ensures Next(cfg, s, SweepUnlock(i)) == WalkedFrom(cfg, s, i, now, |s.procs[i].list|)
  {
    var l := s.procs[i].list;
    assert l[|l|..] == [] && l[..|l|] + [] == l;
    assert s.mProc - DueKeys(cfg, s.entries, i, now, []) == s.mProc;
  }

  lemma {:induction false} WalkEnds(cfg: Config, s: State, i: int, now: int, pos: nat) returns (steps: seq<Action>)
    requires Inv(s) && i in s.procs && s.procs[i].sweeper == At(pos) && pos <= |s.procs[i].list|
    ensures forall a <- steps :: OfSweep(a, i, now)
    ensures RunFrom(cfg, s, steps) == WalkedFrom(cfg, s, i, now, pos)
    decreases |s.procs[i].list| - pos
  {
    var l := s.procs[i].list;
    if pos == |l| {
      steps := [SweepUnlock(i)];
      OneStep(cfg, s, [], SweepUnlock(i));
      assert RunFrom(cfg, s, []) == s && [] + steps == steps;
      EndOfWalk(cfg, s, i, now);
    } else {
      hide Inv, Next, RunFrom, OfSweep, Due, DueKeys, Visited, WalkedFrom;
      var visit := VisitEnds(cfg, s, i, now, pos);
      RunFromKeepsInv(cfg, s, visit);
      VisitedThenWalked(cfg, s, i, now, pos);
      var t := RunFrom(cfg, s, visit);
      var next := if Due(cfg, s.entries, i, now, l[pos]) then pos else pos + 1;
      var rest := WalkEnds(cfg, t, i, now, next);
      RunFromMore(cfg, s, visit, rest);
      steps := visit + rest;
    }
  }

  /** In any reachable state with the list free, the sweep can be done without interruption. It then
      takes out of list and cache what was due, and leaves all else as it was. */
  lemma SweepAlone(cfg: Config, actions: seq<Action>, i: int, now: int) returns (steps: seq<Action>)
    requires var s := Run(cfg, actions); i in s.procs && s.procs[i].lock.None? && Expiry(cfg, i) != 0
    ensures forall a <- steps :: OfSweep(a, i, now)
    ensures var (s, t) := (Run(cfg, actions), Run(cfg, actions + steps));
            && t.procs == s.procs[i := Proc(NotDue(cfg, s.entries, i, now, s.procs[i].list), None, Asleep)]
            && t.mProc == s.mProc - DueKeys(cfg, s.entries, i, now, s.procs[i].list)
            && t.entries == s.entries && t.receiver == s.receiver
  {
    RunKeepsInv(cfg, actions);
    var s := Run(cfg, actions);
    assert ProcOk(s, i);
    var locked, l := Next(cfg, s, SweepLock(i)), s.procs[i].list;
    assert locked == WithProc(s, i, Proc(l, Some(BySweeper), At(0)));
    NextKeepsInv(cfg, s, SweepLock(i));
    hide Inv, Run, Next, RunFrom, Expiry, NotDue, DueKeys, ProcOk;
    var walk := WalkEnds(cfg, locked, i, now, 0);
    steps := [SweepLock(i)] + walk;
    RunOn(cfg, actions, steps);
    RunFromMore(cfg, s, [SweepLock(i)], walk);
    OneStep(cfg, s, [], SweepLock(i));
    assert [] + [SweepLock(i)] == [SweepLock(i)] && RunFrom(cfg, s, []) == s by {
      NoSteps(cfg, s);
    }
    assert l[0..] == l && l[..0] + NotDue(cfg, s.entries, i, now, l) == NotDue(cfg, s.entries, i, now, l);
  }

  ghost predicate Unswept(s: State, i: int) {
    i in s.procs ==> s.procs[i].sweeper == Asleep && s.procs[i].lock != Some(BySweeper)
  }

  lemma UnsweptStep(cfg: Config, s: State, a: Action, i: int)
    requires Expiry(cfg, i) == 0 && Unswept(s, i)
    ensures Unswept(Next(cfg, s, a), i)
  {
    hide Expiry, ExpiredAt, InDelete;
  }

  /** A list with expiry time zero is never swept. */
  lemma {:induction false} ZeroIsNeverSwept(cfg: Config, actions: seq<Action>, i: int)
    requires Expiry(cfg, i) == 0
    ensures Unswept(Run(cfg, actions), i)
  {
    hide Next, Expiry;
    if actions != [] {
      ZeroIsNeverSwept(cfg, actions[..|actions| - 1], i);
      UnsweptStep(cfg, Run(cfg, actions[..|actions| - 1]), actions[|actions| - 1], i);
    }
  }

  lemma NoSteps(cfg: Config, s: State)
    ensures RunFrom(cfg, s, []) == s
  {
  }

  // ---------- Sweeps and calls can end ----------

  /** What a sweep of one interval never touches, and what it may only take away. */
  ghost predicate Shrinks(s: State, t: State, i: int) {
    && t.entries == s.entries && t.receiver == s.receiver && t.procs.Keys == s.procs.Keys
    && (forall j | j in s.procs && j != i :: t.procs[j] == s.procs[j])
    && (forall ck | ck in t.mProc :: ck in s.mProc && t.mProc[ck] == s.mProc[ck])
  }

  lemma StepShrinks(cfg: Config, s: State, a: Action, i: int, now: int)
    requires OfSweep(a, i, now)
    ensures Shrinks(s, Next(cfg, s, a), i)
  {
    hide Expiry, ExpiredAt;
  }

  lemma {:induction false} StepsShrink(cfg: Config, s: State, steps: seq<Action>, i: int, now: int)
    requires forall a <- steps :: OfSweep(a, i, now)
    ensures Shrinks(s, RunFrom(cfg, s, steps), i)
  {
    hide Next;
    if steps != [] {
      StepsShrink(cfg, s, steps[..|steps| - 1], i, now);
      StepShrinks(cfg, RunFrom(cfg, s, steps[..|steps| - 1]), steps[|steps| - 1], i, now);
    }
  }

  /** The step of a deletion that comes next, and how many there are. */
  function NextOfVisit(w: Sweeper, i: int): (r: Action) {
    match w
    case Deleting(_) => SweepLoad(i)
    case Loaded(_, _) => SweepRead(i)
    case SawScrapped(_) => SweepDelete(i)
    case _ => SweepRemove(i)
  }

  function StepsOfVisit(w: Sweeper): (r: nat) {
    match w
    case Deleting(_) => 4
    case Loaded(_, _) => 3
    case SawScrapped(_) => 2
    case Deleted(_) => 1
    case _ => 0
  }

  lemma VisitGoesOn(cfg: Config, s: State, i: int)
    requires Inv(s) && i in s.procs && StepsOfVisit(s.procs[i].sweeper) > 0
    ensures var t := Next(cfg, s, NextOfVisit(s.procs[i].sweeper, i));
            && i in t.procs && t.procs[i].sweeper != Asleep
            && StepsOfVisit(t.procs[i].sweeper) < StepsOfVisit(s.procs[i].sweeper)
  {
    var p := s.procs[i];
    assert ProcOk(s, i) && ListedOk(s, i, p, p.sweeper.pos);
    hide Expiry, Distinct, MapOk, ReceiverOk;
  }

  lemma {:induction false} SweepEnds(cfg: Config, s: State, i: int, now: int) returns (steps: seq<Action>)
    requires Inv(s) && i in s.procs
    ensures forall a <- steps :: OfSweep(a, i, now)
    ensures var t := RunFrom(cfg, s, steps);
            && Shrinks(s, t, i) && t.procs[i].sweeper == Asleep
            && t.procs[i].lock == if s.procs[i].sweeper == Asleep then s.procs[i].lock else None
    decreases StepsOfVisit(s.procs[i].sweeper)
  {
    var p := s.procs[i];
    assert ProcOk(s, i);
    NoSteps(cfg, s);
    hide Inv, Next, RunFrom, NotDue, DueKeys, ProcOk;
    if p.sweeper == Asleep {
      steps := [];
    } else if p.sweeper.At? {
      steps := WalkEnds(cfg, s, i, now, p.sweeper.pos);
      StepsShrink(cfg, s, steps, i, now);
    } else {
      var a := NextOfVisit(p.sweeper, i);
      VisitGoesOn(cfg, s, i);
      NextKeepsInv(cfg, s, a);
      var rest := SweepEnds(cfg, Next(cfg, s, a), i, now);
      steps := [a] + rest;
      RunFromMore(cfg, s, [a], rest);
      OneStep(cfg, s, [], a);
      assert [] + [a] == [a];
      StepsShrink(cfg, s, steps, i, now);
    }
  }

  lemma SweepCanEnd(cfg: Config, actions: seq<Action>, i: int, now: int) returns (steps: seq<Action>)
    requires i in Run(cfg, actions).procs && Run(cfg, actions).procs[i].sweeper != Asleep
    ensures forall a <- steps :: OfSweep(a, i, now)
    ensures var t := Run(cfg, actions + steps);
            i in t.procs && t.procs[i].sweeper == Asleep && t.procs[i].lock.None?
  {
    RunKeepsInv(cfg, actions);
    hide Inv, Run, RunFrom;
    steps := SweepEnds(cfg, Run(cfg, actions), i, now);
    RunOn(cfg, actions, steps);
  }

  /** The receiver holds the lock of a list only while it appends to that list. */
  ghost predicate ListLockOk(s: State) {
    forall i | i in s.procs && s.procs[i].lock == Some(ByReceiver) ::
      (s.receiver.Locked? || s.receiver.Pushed?) && s.receiver.interval == i
  }

  lemma NextKeepsListLock(cfg: Config, s: State, a: Action)
    requires ListLockOk(s)
    ensures ListLockOk(Next(cfg, s, a))
  {
    hide Expiry, ExpiredAt, InDelete;
  }

  lemma {:induction false} RunFromKeepsListLock(cfg: Config, s: State, steps: seq<Action>)
    requires ListLockOk(s)
    ensures ListLockOk(RunFrom(cfg, s, steps))
  {
    hide ListLockOk, Next;
    if steps != [] {
      RunFromKeepsListLock(cfg, s, steps[..|steps| - 1]);
      NextKeepsListLock(cfg, RunFrom(cfg, s, steps[..|steps| - 1]), steps[|steps| - 1]);
    }
  }

  /** Neither a new call nor a scrape; clocks show now. */
  predicate Goes(a: Action, now: int) {
    !a.Begin? && !a.Scrapes? && (a.KeepRecordAlive? || a.SweepExpired? ==> a.now == now)
  }

  /** The record that the receiver is about to keep alive. */
  function ToKeep(x: Receiver): (r: Option<nat>) {
    match x
    case Looked(_, _, _, found) => found
    case Known(entry) => Some(entry)
    case _ => None
  }

  /** The interval whose sweep may be in the receiver's way. */
  function InTheWay(s: State): (i: Option<int>) {
    if s.receiver.Stored? then Some(s.receiver.interval)
    else
      match ToKeep(s.receiver)
      case Some(r) => if r < |s.entries| then Some(s.entries[r].interval) else None
      case None => None
  }

  lemma WayClears(cfg: Config, s: State, now: int) returns (steps: seq<Action>)
    requires Inv(s) && ListLockOk(s)
    ensures forall a <- steps :: Goes(a, now)
    ensures var t := RunFrom(cfg, s, steps);
            && Inv(t) && ListLockOk(t) && t.receiver == s.receiver
            && (s.receiver.Stored? ==> s.receiver.interval in t.procs && t.procs[s.receiver.interval].lock.None?)
            && (ToKeep(s.receiver).Some? ==> !InDelete(t, ToKeep(s.receiver).value))
  {
    var i := InTheWay(s);
    NoSteps(cfg, s);
    assert s.receiver.Stored? ==> s.receiver.interval in s.procs;
    if i.Some? && i.value in s.procs {
      var p := s.procs[i.value];
      assert ProcOk(s, i.value);
      assert p.lock.None? || p.lock.value == ByReceiver || p.lock.value == BySweeper;
    }
    hide RunFrom, Inv;
    if i.Some? && i.value in s.procs {
      steps := SweepEnds(cfg, s, i.value, now);
      RunFromKeepsInv(cfg, s, steps);
      RunFromKeepsListLock(cfg, s, steps);
    } else {
      steps := [];
    }
  }

  function NextOfCall(x: Receiver, now: int): (a: Action) {
    match x
    case Begun(_, _, _) => LoadKey
    case Looked(_, _, _, None) => LoadOrStoreKey
    case Stored(_, _) => LockList
    case Locked(_, _) => PushRecord
    case Pushed(_, _) => UnlockList
    case _ => KeepRecordAlive(now)
  }

  function StepsOfCall(x: Receiver): (n: nat) {
    match x
    case Idle => 0
    case Begun(_, _, _) => 6
    case Looked(_, _, _, _) => 5
    case Stored(_, _) => 4
    case Locked(_, _) => 3
    case Pushed(_, _) => 2
    case Known(_) => 1
  }

  lemma CallGoesOn(cfg: Config, s: State, now: int)
    requires Inv(s) && s.receiver != Idle
    requires s.receiver.Stored? ==> s.receiver.interval in s.procs && s.procs[s.receiver.interval].lock.None?
    requires ToKeep(s.receiver).Some? ==> !InDelete(s, ToKeep(s.receiver).value)
    ensures StepsOfCall(Next(cfg, s, NextOfCall(s.receiver, now)).receiver) < StepsOfCall(s.receiver)
  {
    hide InDelete, MapOk, ProcOk, Owns;
  }

  lemma {:induction false} CallEnds(cfg: Config, s: State, now: int) returns (steps: seq<Action>)
    requires Inv(s) && ListLockOk(s)
    ensures forall a <- steps :: Goes(a, now)
    ensures RunFrom(cfg, s, steps).receiver == Idle
    decreases StepsOfCall(s.receiver)
  {
    hide Inv, ListLockOk, Next, RunFrom, InDelete;
    if s.receiver == Idle {
      steps := [];
      NoSteps(cfg, s);
    } else {
      var before := WayClears(cfg, s, now);
      var t, a := RunFrom(cfg, s, before), NextOfCall(s.receiver, now);
      CallGoesOn(cfg, t, now);
      NextKeepsInv(cfg, t, a);
      NextKeepsListLock(cfg, t, a);
      var rest := CallEnds(cfg, Next(cfg, t, a), now);
      OneStep(cfg, s, before, a);
      RunFromMore(cfg, s, before + [a], rest);
      steps := before + [a] + rest;
    }
  }

  lemma FirstListLock()
    ensures ListLockOk(INIT)
  {
  }

  lemma RunKeepsListLock(cfg: Config, actions: seq<Action>)
    ensures ListLockOk(Run(cfg, actions))
  {
    hide ListLockOk, Run, RunFrom;
    FirstListLock();
    RunIsRunFrom(cfg, actions);
    RunFromKeepsListLock(cfg, INIT, actions);
  }

  /** From every reachable state the call that is under way can come to its end. */
  lemma CallCanEnd(cfg: Config, actions: seq<Action>, now: int) returns (steps: seq<Action>)
    ensures forall a <- steps :: Goes(a, now)
    ensures Run(cfg, actions + steps).receiver == Idle
  {
    RunKeepsInv(cfg, actions);
    RunKeepsListLock(cfg, actions);
    hide Inv, ListLockOk, Run, RunFrom;
    steps := CallEnds(cfg, Run(cfg, actions), now);
    RunOn(cfg, actions, steps);
  }

  // ---------- A sample arrives ----------

  /** The call is over, and its key is cached with an entry that was refreshed at this time. */
  ghost predicate Arrived(t: State, c: nat, k: string, now: int) {
    && t.receiver == Idle && (c, k) in t.mProc && t.mProc[(c, k)] < |t.entries|
    && t.entries[t.mProc[(c, k)]].lastArrival == Some(now)
  }

  lemma KnownSteps(cfg: Config, s: State, c: nat, k: string, i: int, now: int)
    requires MapOk(s) && s.receiver == Begun(c, k, i) && (c, k) in s.mProc && !InDelete(s, s.mProc[(c, k)])
    ensures Arrived(Next(cfg, Next(cfg, s, LoadKey), KeepRecordAlive(now)), c, k, now)
  {
    var r := s.mProc[(c, k)];
    assert Next(cfg, s, LoadKey) == s.(receiver := Looked(c, k, i, Some(r)));
    assert !InDelete(s.(receiver := Looked(c, k, i, Some(r))), r);
    hide InDelete;
  }

  lemma KnownArrives(cfg: Config, s: State, c: nat, k: string, i: int, now: int)
    requires MapOk(s) && s.receiver == Begun(c, k, i) && (c, k) in s.mProc && !InDelete(s, s.mProc[(c, k)])
    ensures Arrived(RunFrom(cfg, s, [LoadKey] + [KeepRecordAlive(now)]), c, k, now)
  {
    KnownSteps(cfg, s, c, k, i, now);
    NoSteps(cfg, s);
    OneStep(cfg, s, [LoadKey], KeepRecordAlive(now));
    OneStep(cfg, s, [], LoadKey);
    assert [] + [LoadKey] == [LoadKey];
    hide RunFrom, Next, Arrived, MapOk, InDelete;
  }

  /** What the first steps for a new key lead to. */
  lemma NewIsListed(cfg: Config, s: State, c: nat, k: string, i: int) returns (t: State)
    requires s.receiver == Begun(c, k, i) && (c, k) !in s.mProc && i in s.procs && s.procs[i].lock.None?
    ensures t == RunFrom(cfg, s, [LoadKey] + [LoadOrStoreKey] + [LockList] + [PushRecord])
    ensures t.receiver == Pushed(|s.entries|, i) && t.mProc == s.mProc[(c, k) := |s.entries|]
    ensures t.entries == s.entries + [Entry(c, k, i, None, false)]
    ensures i in t.procs && t.procs[i] == Proc(s.procs[i].list + [|s.entries|], Some(ByReceiver), s.procs[i].sweeper)
  {
    var first := [LoadKey];
    OneStep(cfg, s, [], LoadKey);
    OneStep(cfg, s, first, LoadOrStoreKey);
    OneStep(cfg, s, first + [LoadOrStoreKey], LockList);
    OneStep(cfg, s, first + [LoadOrStoreKey] + [LockList], PushRecord);
    NoSteps(cfg, s);
    assert [] + first == first;
    hide RunFrom;
    t := RunFrom(cfg, s, [LoadKey] + [LoadOrStoreKey] + [LockList] + [PushRecord]);
  }

  lemma ListedArrives(cfg: Config, t: State, c: nat, k: string, i: int, now: int, r: nat)
    requires t.receiver == Pushed(r, i) && (c, k) in t.mProc && t.mProc[(c, k)] == r
    requires r < |t.entries| && t.entries[r].interval == i && i in t.procs && t.procs[i].sweeper == Asleep
    ensures Arrived(Next(cfg, Next(cfg, t, UnlockList), KeepRecordAlive(now)), c, k, now)
  {
  }

  lemma NewArrives(cfg: Config, s: State, c: nat, k: string, i: int, now: int) returns (steps: seq<Action>)
    requires s.receiver == Begun(c, k, i) && (c, k) !in s.mProc && i in s.procs
    requires s.procs[i].lock.None? && s.procs[i].sweeper == Asleep
    ensures forall a <- steps :: Goes(a, now)
    ensures Arrived(RunFrom(cfg, s, steps), c, k, now)
  {
    var t := NewIsListed(cfg, s, c, k, i);
    var before := [LoadKey] + [LoadOrStoreKey] + [LockList] + [PushRecord];
    OneStep(cfg, s, before, UnlockList);
    OneStep(cfg, s, before + [UnlockList], KeepRecordAlive(now));
    hide RunFrom, Next, Arrived;
    ListedArrives(cfg, t, c, k, i, now, |s.entries|);
    steps := before + [UnlockList] + [KeepRecordAlive(now)];
  }

  /** Once the sweep of this interval is done. */
  lemma AfterSweep(cfg: Config, s: State, i: int, now: int) returns (steps: seq<Action>)
    requires Inv(s) && ListLockOk(s) && i in s.procs && s.receiver.Begun?
    ensures forall a <- steps :: Goes(a, now)
    ensures var t := RunFrom(cfg, s, steps);
            && Inv(t) && ListLockOk(t) && Shrinks(s, t, i) && t.procs[i].sweeper == Asleep && t.procs[i].lock.None?
  {
    var p := s.procs[i];
    assert ProcOk(s, i);
    assert p.lock.None? || p.lock.value == ByReceiver || p.lock.value == BySweeper;
    hide RunFrom, Inv;
    steps := SweepEnds(cfg, s, i, now);
    RunFromKeepsInv(cfg, s, steps);
    RunFromKeepsListLock(cfg, s, steps);
  }

  lemma UnknownArrives(cfg: Config, s: State, c: nat, k: string, i: int, now: int) returns (steps: seq<Action>)
    requires Inv(s) && ListLockOk(s) && s.receiver == Begun(c, k, i) && (c, k) !in s.mProc && i in s.procs
    ensures forall a <- steps :: Goes(a, now)
    ensures Arrived(RunFrom(cfg, s, steps), c, k, now)
  {
    hide RunFrom, Inv, ListLockOk, Arrived;
    var before := AfterSweep(cfg, s, i, now);
    var rest := NewArrives(cfg, RunFrom(cfg, s, before), c, k, i, now);
    RunFromMore(cfg, s, before, rest);
    steps := before + rest;
  }

  lemma BegunArrives(cfg: Config, s: State, c: nat, k: string, i: int, now: int) returns (steps: seq<Action>)
    requires Inv(s) && ListLockOk(s) && s.receiver == Begun(c, k, i)
    ensures forall a <- steps :: Goes(a, now)
    ensures Arrived(RunFrom(cfg, s, steps), c, k, now)
  {
    assert i in s.procs && MapOk(s);
    hide RunFrom, ListLockOk, Arrived;
    var before, j := [], if (c, k) in s.mProc then s.entries[s.mProc[(c, k)]].interval else i;
    NoSteps(cfg, s);
    if j in s.procs {
      before := AfterSweep(cfg, s, j, now);
    }
    var t := RunFrom(cfg, s, before);
    var rest := [LoadKey] + [KeepRecordAlive(now)];
    if (c, k) in t.mProc {
      KnownArrives(cfg, t, c, k, i, now);
    } else {
      rest := UnknownArrives(cfg, t, c, k, i, now);
    }
    RunFromMore(cfg, s, before, rest);
    steps := before + rest;
  }

  /** Whatever sweeps are under way, a call that has begun can bring its sample into the cache. */
  lemma SampleCanArrive(cfg: Config, actions: seq<Action>, c: nat, k: string, i: int, now: int)
    returns (steps: seq<Action>)
    requires Run(cfg, actions).receiver == Begun(c, k, i)
    ensures forall a <- steps :: Goes(a, now)
    ensures var t := Run(cfg, actions + steps);
            && t.receiver == Idle && (c, k) in t.mProc && t.mProc[(c, k)] < |t.entries|
            && t.entries[t.mProc[(c, k)]].lastArrival == Some(now)
  {
    RunKeepsInv(cfg, actions);
    RunKeepsListLock(cfg, actions);
    hide Inv, ListLockOk, Run, RunFrom;
    steps := BegunArrives(cfg, Run(cfg, actions), c, k, i, now);
    RunOn(cfg, actions, steps);
  }
}
