/** The collector sweep against a receiving call, at the grain of single operations. The sweep
    holds the lock of its list but not the one that makes receiving calls exclude each other, so
    it may drop a collector that a call has just chosen. */
module CollectorRaces {
  import opened ExpiryProtocol
  import opened ExpiryRaces
  import opened MetricCache
  import opened Wrappers

  /** Where a receiving call is: before it has looked for its collector, while it creates and
      registers one, and when it has one; the update of the metric is a call of the protocol. */
  datatype Caller =
    | Free
    | Calling(labels: nat, key: string, interval: int)
    | Missing(labels: nat, key: string, interval: int)
    | Created(collector: nat, key: string, interval: int)
    | Listing(collector: nat, key: string, interval: int)
    | Listed(collector: nat, key: string, interval: int)
    | Chosen(collector: nat, key: string, interval: int)
    | Updating(collector: nat, key: string)

  /** Where the collector sweep is in its walk. */
  datatype Walk = Resting | Looking(pos: nat) | Dropping(pos: nat) | Dropped(pos: nat)

  /** The metric protocol with the collectors in use, the label count of every collector ever
      created, and the list of the collector process. */
  datatype World = World(
    core: State,
    collectors: map<nat, nat>,
    labelCounts: seq<nat>,
    list: seq<nat>,
    lock: Option<Owner>,
    walk: Walk,
    caller: Caller)

  const BEGINNING := World(INIT, map[], [], [], None, Resting, Free)

  datatype Move =
    | Call(labels: nat, key: string, interval: int)
    | LoadCollector
    | StoreCollector
    | LockCollectors
    | PushCollector
    | UnlockCollectors
    | StartUpdate
    | Core(action: Action)
    | CheckLock
    | CheckEmpty
    | Drop
    | RemoveNode
    | CheckUnlock

  predicate IsEmpty(s: State, id: nat) {
    forall ck <- s.mProc :: ck.0 != id
  }

  /** What one move does; a move that is not possible now changes nothing. */
  function Step(cfg: Config, w: World, m: Move): (r: World) {
    match m
    case Core(a) => if a.Begin? then w else WithCore(w, Next(cfg, w.core, a))
    case CheckLock => Walks(w, m)
    case CheckEmpty => Walks(w, m)
    case Drop => Walks(w, m)
    case RemoveNode => Walks(w, m)
    case CheckUnlock => Walks(w, m)
    case _ => Calls(cfg, w, m)
  }

  function WithCore(w: World, core: State): (r: World) {
    w.(core := core, caller := if w.caller.Updating? && core.receiver.Idle? then Free else w.caller)
  }

  function Calls(cfg: Config, w: World, m: Move): (r: World) {
    match (m, w.caller)
    case (Call(d, k, i), Free) => w.(caller := Calling(d, k, i))
    case (LoadCollector, Calling(d, k, i)) =>
      w.(caller := if d in w.collectors then Chosen(w.collectors[d], k, i) else Missing(d, k, i))
    case (StoreCollector, Missing(d, k, i)) =>
      if d in w.collectors then w.(caller := Created(w.collectors[d], k, i))
      else
        var id := |w.labelCounts|;
        w.(collectors := w.collectors[d := id], labelCounts := w.labelCounts + [d], caller := Created(id, k, i))
    case (LockCollectors, Created(id, k, i)) =>
      if w.lock.None? then w.(lock := Some(ByReceiver), caller := Listing(id, k, i)) else w
    case (PushCollector, Listing(id, k, i)) => w.(list := w.list + [id], caller := Listed(id, k, i))
    case (UnlockCollectors, Listed(id, k, i)) => w.(lock := None, caller := Chosen(id, k, i))
    case (StartUpdate, Chosen(id, k, i)) => w.(core := Next(cfg, w.core, Begin(id, k, i)), caller := Updating(id, k))
    case _ => w
  }

  /** A drop removes whatever collector is in use for the label count. */
  function Walks(w: World, m: Move): (r: World) {
    match (m, w.walk)
    case (CheckLock, Resting) => if w.lock.None? then w.(lock := Some(BySweeper), walk := Looking(0)) else w
    case (CheckEmpty, Looking(pos)) =>
      if pos < |w.list| then w.(walk := if IsEmpty(w.core, w.list[pos]) then Dropping(pos) else Looking(pos + 1)) else w
    case (Drop, Dropping(pos)) =>
      if pos < |w.list| && w.list[pos] < |w.labelCounts| then
        w.(collectors := w.collectors - {w.labelCounts[w.list[pos]]}, walk := Dropped(pos))
      else w
    case (RemoveNode, Dropped(pos)) =>
      if pos < |w.list| then w.(list := w.list[..pos] + w.list[pos + 1..], walk := Looking(pos)) else w
    case (CheckUnlock, Looking(pos)) => if pos >= |w.list| then w.(lock := None, walk := Resting) else w
    case _ => w
  }

  function Course(cfg: Config, moves: seq<Move>): (r: World) {
    if moves == [] then BEGINNING else Step(cfg, Course(cfg, moves[..|moves| - 1]), moves[|moves| - 1])
  }

  /** The world before move j. */
  function WorldAt(cfg: Config, moves: seq<Move>, j: nat): (r: World)
    requires j <= |moves|
  {
    Course(cfg, moves[..j])
  }

  lemma WorldAtNext(cfg: Config, moves: seq<Move>, j: nat)
    requires j < |moves|
    ensures WorldAt(cfg, moves, j + 1) == Step(cfg, WorldAt(cfg, moves, j), moves[j])
  {
    assert moves[..j + 1][..j] == moves[..j];
  }

  // ---------- The invariant ----------

  /** The collector is the one in use for its label count. */
  predicate InUse(w: World, id: nat) {
    id < |w.labelCounts| && w.labelCounts[id] in w.collectors && w.collectors[w.labelCounts[id]] == id
  }

  ghost predicate MapInv(w: World) {
    forall d | d in w.collectors :: w.collectors[d] < |w.labelCounts| && w.labelCounts[w.collectors[d]] == d
  }

  /** A listed collector is in use, unless it has just been dropped. */
  ghost predicate ListedInv(w: World, pos: nat) {
    pos < |w.list| ==> w.list[pos] < |w.labelCounts| && (w.walk != Dropped(pos) <==> InUse(w, w.list[pos]))
  }

  ghost predicate WalkInv(w: World) {
    && (w.lock == Some(BySweeper) <==> w.walk != Resting)
    && match w.walk
       case Resting => true
       case Looking(pos) => pos <= |w.list|
       case _ => w.walk.pos < |w.list|
  }

  /** The protocol is in the middle of an update of this key. */
  ghost predicate UpdateOf(s: State, id: nat, k: string) {
    match s.receiver
    case Idle => false
    case Begun(c, key, _) => (c, key) == (id, k)
    case Looked(c, key, _, found) =>
      (c, key) == (id, k) && (found.Some? ==> found.value < |s.entries| && KeyAt(s, found.value) == (id, k))
    case _ => s.receiver.entry < |s.entries| && KeyAt(s, s.receiver.entry) == (id, k)
  }

  ghost predicate CallerInv(w: World) {
    && (w.caller.Updating? ==> UpdateOf(w.core, w.caller.collector, w.caller.key))
    && (!w.caller.Updating? ==> w.core.receiver.Idle?)
    && match w.caller
       case Missing(d, _, _) => d !in w.collectors
       case Created(id, _, _) => InUse(w, id) && id !in w.list
       case Listing(id, _, _) => InUse(w, id) && id !in w.list && w.lock == Some(ByReceiver)
       case Listed(_, _, _) => w.lock == Some(ByReceiver)
       case _ => true
  }

  ghost predicate WorldInv(w: World) {
    && ExpiryProtocol.Inv(w.core) && MapInv(w) && WalkInv(w) && CallerInv(w) && Distinct(w.list)
    && forall pos :: ListedInv(w, pos)
  }

  lemma UpdateStep(cfg: Config, s: State, a: Action, id: nat, k: string)
    requires ExpiryProtocol.Inv(s) && !a.Begin?
    ensures UpdateOf(s, id, k) ==> Next(cfg, s, a).receiver.Idle? || UpdateOf(Next(cfg, s, a), id, k)
    ensures s.receiver.Idle? ==> Next(cfg, s, a).receiver.Idle?
  {
    hide Expiry, InDelete, ProcOk;
  }

  lemma StartKeepsInv(cfg: Config, w: World)
    requires WorldInv(w) && w.caller.Chosen?
    ensures WorldInv(Calls(cfg, w, StartUpdate))
  {
    var (id, k, i) := (w.caller.collector, w.caller.key, w.caller.interval);
    NextKeepsInv(cfg, w.core, Begin(id, k, i));
    assert UpdateOf(Next(cfg, w.core, Begin(id, k, i)), id, k);
    hide ExpiryProtocol.Inv, Next, UpdateOf;
    var w' := Calls(cfg, w, StartUpdate);
    forall pos: nat ensures ListedInv(w', pos) {
      assert ListedInv(w, pos);
    }
  }

  lemma OtherCallsKeepInv(cfg: Config, w: World, m: Move)
    requires WorldInv(w) && !m.StartUpdate?
    ensures WorldInv(Calls(cfg, w, m))
  {
    hide ExpiryProtocol.Inv, Next, UpdateOf;
    var w' := Calls(cfg, w, m);
    if m.PushCollector? && w.caller.Listing? {
      DistinctWith(w.list, w.caller.collector);
    }
    hide Distinct;
    forall pos: nat ensures ListedInv(w', pos) {
      assert ListedInv(w, pos);
    }
    forall pos: nat | pos < |w.list| ensures w.list[pos] != |w.labelCounts| {
      assert ListedInv(w, pos);
    }
  }

  lemma DistinctWith(l: seq<nat>, id: nat)
    requires Distinct(l) && id !in l
    ensures Distinct(l + [id])
  {
  }

  lemma CallsKeepInv(cfg: Config, w: World, m: Move)
    requires WorldInv(w)
    ensures WorldInv(Calls(cfg, w, m))
  {
    if m.StartUpdate? {
      if w.caller.Chosen? {
        StartKeepsInv(cfg, w);
      }
    } else {
      OtherCallsKeepInv(cfg, w, m);
    }
    hide WorldInv;
  }

  lemma DropKeepsInv(w: World)
    requires WorldInv(w) && w.walk.Dropping?
    ensures WorldInv(Walks(w, Drop))
  {
    hide ExpiryProtocol.Inv, UpdateOf;
    var w', at := Walks(w, Drop), w.walk.pos;
    assert ListedInv(w, at);
    forall pos: nat ensures ListedInv(w', pos) {
      assert ListedInv(w, pos);
    }
  }

  lemma SameInUse(w: World, w': World)
    requires w'.collectors == w.collectors && w'.labelCounts == w.labelCounts
    ensures forall id :: InUse(w', id) == InUse(w, id)
  {
  }

  lemma RemoveNodeKeepsInv(w: World)
    requires WorldInv(w) && w.walk.Dropped?
    ensures WorldInv(Walks(w, RemoveNode))
  {
    var w', at := Walks(w, RemoveNode), w.walk.pos;
    DistinctWithout(w.list, at);
    SameInUse(w, w');
    assert forall id | id in w'.list :: id in w.list;
    hide ExpiryProtocol.Inv, UpdateOf, InUse, Distinct;
    forall pos: nat ensures ListedInv(w', pos) {
      assert ListedInv(w, if pos >= at then pos + 1 else pos);
    }
  }

  lemma OtherWalkKeepsInv(w: World, m: Move)
    requires WorldInv(w) && !m.Drop? && !m.RemoveNode?
    ensures WorldInv(Walks(w, m))
  {
    var w' := Walks(w, m);
    SameInUse(w, w');
    hide ExpiryProtocol.Inv, UpdateOf, InUse, Distinct, IsEmpty;
    forall pos: nat ensures ListedInv(w', pos) {
      assert ListedInv(w, pos);
    }
  }

  lemma WalksKeepInv(w: World, m: Move)
    requires WorldInv(w)
    ensures WorldInv(Walks(w, m))
  {
    hide WorldInv;
    if m.Drop? && w.walk.Dropping? {
      DropKeepsInv(w);
    } else if m.RemoveNode? && w.walk.Dropped? {
      RemoveNodeKeepsInv(w);
    } else if !m.Drop? && !m.RemoveNode? {
      OtherWalkKeepsInv(w, m);
    }
  }

  lemma StepKeepsInv(cfg: Config, w: World, m: Move)
    requires WorldInv(w)
    ensures WorldInv(Step(cfg, w, m))
  {
    match m
    case Core(a) =>
      if !a.Begin? {
        NextKeepsInv(cfg, w.core, a);
        if w.caller.Updating? {
          UpdateStep(cfg, w.core, a, w.caller.collector, w.caller.key);
        } else {
          UpdateStep(cfg, w.core, a, 0, "");
        }
        hide Next, ExpiryProtocol.Inv, UpdateOf;
        var w' := Step(cfg, w, m);
        forall pos: nat ensures ListedInv(w', pos) {
          assert ListedInv(w, pos);
        }
      }
    case _ =>
      CallsKeepInv(cfg, w, m);
      WalksKeepInv(w, m);
  }

  lemma {:induction false} WorldAtInv(cfg: Config, moves: seq<Move>, j: nat)
    requires j <= |moves|
    ensures WorldInv(WorldAt(cfg, moves, j))
  {
    if j > 0 {
      WorldAtInv(cfg, moves, j - 1);
      WorldAtNext(cfg, moves, j - 1);
      StepKeepsInv(cfg, WorldAt(cfg, moves, j - 1), moves[j - 1]);
    }
  }

  // ---------- A drop and the calls it overlaps ----------

  /** The entry in the hands of the receiver. */
  function Held(r: Receiver): (res: Option<nat>) {
    match r
    case Idle => None
    case Begun(_, _, _) => None
    case Looked(_, _, _, found) => found
    case _ => Some(r.entry)
  }

  /** A call has this collector for this key, and the entry it has found, if any, is still cached. */
  ghost predicate Uses(w: World, id: nat, k: string) {
    match w.caller
    case Created(c, key, _) => (c, key) == (id, k)
    case Listing(c, key, _) => (c, key) == (id, k)
    case Listed(c, key, _) => (c, key) == (id, k)
    case Chosen(c, key, _) => (c, key) == (id, k)
    case Updating(c, key) =>
      (c, key) == (id, k) && (Held(w.core.receiver).Some? ==> Owns(w.core, Held(w.core.receiver).value))
    case _ => false
  }

  /** The collector has an entry, or a call is about to leave one in it. */
  ghost predicate Feeds(w: World, id: nat, k: string) {
    Uses(w, id, k) || (id, k) in w.core.mProc
  }

  ghost predicate IsDropping(w: World, id: nat) {
    w.walk.Dropping? && w.walk.pos < |w.list| && w.list[w.walk.pos] == id
  }

  /** This move is the check that finds the collector empty. */
  ghost predicate FindsEmpty(w: World, m: Move, id: nat) {
    m.CheckEmpty? && w.walk.Looking? && w.walk.pos < |w.list| && w.list[w.walk.pos] == id && IsEmpty(w.core, id)
  }

  /** Move d drops the collector that move `check` has found empty. */
  ghost predicate DropVisit(cfg: Config, moves: seq<Move>, id: nat, check: nat, d: nat) {
    && check < d < |moves| && moves[d] == Drop
    && FindsEmpty(WorldAt(cfg, moves, check), moves[check], id)
    && forall j | check < j <= d :: IsDropping(WorldAt(cfg, moves, j), id)
  }

  lemma DroppingSince(cfg: Config, w: World, m: Move, id: nat)
    requires WorldInv(w) && IsDropping(Step(cfg, w, m), id)
    ensures IsDropping(w, id) || FindsEmpty(w, m, id)
  {
    hide Next, ExpiryProtocol.Inv, IsEmpty;
  }

  lemma NothingDroppingAtFirst(cfg: Config, moves: seq<Move>, id: nat)
    ensures !IsDropping(WorldAt(cfg, moves, 0), id)
  {
  }

  lemma {:induction false} CheckOf(cfg: Config, moves: seq<Move>, id: nat, n: nat) returns (check: nat)
    requires n <= |moves| && IsDropping(WorldAt(cfg, moves, n), id)
    ensures check < n && FindsEmpty(WorldAt(cfg, moves, check), moves[check], id)
    ensures forall j | check < j <= n :: IsDropping(WorldAt(cfg, moves, j), id)
    decreases n
  {
    hide WorldAt, Step, WorldInv, IsDropping, FindsEmpty, Course, Next;
    NothingDroppingAtFirst(cfg, moves, id);
    WorldAtNext(cfg, moves, n - 1);
    WorldAtInv(cfg, moves, n - 1);
    DroppingSince(cfg, WorldAt(cfg, moves, n - 1), moves[n - 1], id);
    if IsDropping(WorldAt(cfg, moves, n - 1), id) {
      check := CheckOf(cfg, moves, id, n - 1);
    } else {
      check := n - 1;
    }
  }

  /** Every drop has a check before it, and takes out of use the very collector of that check. */
  lemma DropsWhatItChecked(cfg: Config, moves: seq<Move>, d: nat) returns (id: nat, check: nat)
    requires d < |moves| && moves[d] == Drop && WorldAt(cfg, moves, d).walk.Dropping?
    ensures DropVisit(cfg, moves, id, check, d)
    ensures InUse(WorldAt(cfg, moves, d), id) && !InUse(WorldAt(cfg, moves, d + 1), id)
    ensures var (w, w') := (WorldAt(cfg, moves, d), WorldAt(cfg, moves, d + 1));
            forall other | other != id :: InUse(w', other) == InUse(w, other)
  {
    WorldAtInv(cfg, moves, d);
    WorldAtNext(cfg, moves, d);
    var w := WorldAt(cfg, moves, d);
    assert ListedInv(w, w.walk.pos);
    id := w.list[w.walk.pos];
    hide WorldAt;
    check := CheckOf(cfg, moves, id, d);
  }

  lemma OutOfUseStep(cfg: Config, w: World, m: Move, id: nat)
    requires id < |w.labelCounts| && !InUse(w, id)
    ensures id < |Step(cfg, w, m).labelCounts| && !InUse(Step(cfg, w, m), id)
  {
    hide Next, IsEmpty;
  }

  /** A collector that is out of use stays out of use. */
  lemma {:induction false} DroppedForGood(cfg: Config, moves: seq<Move>, id: nat, j: nat, n: nat)
    requires j <= n <= |moves|
    requires id < |WorldAt(cfg, moves, j).labelCounts| && !InUse(WorldAt(cfg, moves, j), id)
    ensures id < |WorldAt(cfg, moves, n).labelCounts| && !InUse(WorldAt(cfg, moves, n), id)
    decreases n
  {
    if j < n {
      hide WorldAt, Step, InUse;
      DroppedForGood(cfg, moves, id, j, n - 1);
      WorldAtNext(cfg, moves, n - 1);
      OutOfUseStep(cfg, WorldAt(cfg, moves, n - 1), moves[n - 1], id);
    }
  }

  ghost predicate IsCached(w: World, ck: (nat, string)) {
    ck in w.core.mProc
  }

  lemma FeedsStep(cfg: Config, w: World, m: Move, id: nat, k: string)
    requires WorldInv(w) && Feeds(w, id, k)
    requires (id, k) in w.core.mProc ==> (id, k) in Step(cfg, w, m).core.mProc
    ensures Feeds(Step(cfg, w, m), id, k)
  {
    hide Expiry, InDelete, ProcOk;
  }

  lemma FedBy(cfg: Config, w: World, m: Move, id: nat, k: string)
    requires WorldInv(w) && !IsCached(w, (id, k)) && IsCached(Step(cfg, w, m), (id, k))
    ensures Uses(Step(cfg, w, m), id, k)
  {
    hide Expiry, InDelete, ProcOk;
  }

  /** No metric sweep takes this key out of the cache between two moves. */
  ghost predicate Kept(cfg: Config, moves: seq<Move>, ck: (nat, string), from: nat, n: nat)
    requires n <= |moves|
  {
    forall j: nat | from <= j < n :: StaysAt(cfg, moves, ck, j)
  }

  ghost predicate StaysAt(cfg: Config, moves: seq<Move>, ck: (nat, string), j: nat) {
    j < |moves| && ck in WorldAt(cfg, moves, j).core.mProc ==> ck in WorldAt(cfg, moves, j + 1).core.mProc
  }

  lemma {:induction false} FeedsUntil(cfg: Config, moves: seq<Move>, id: nat, k: string, j: nat, n: nat)
    requires j <= n <= |moves| && Feeds(WorldAt(cfg, moves, j), id, k) && Kept(cfg, moves, (id, k), j, n)
    ensures Feeds(WorldAt(cfg, moves, n), id, k)
    decreases n
  {
    if j < n {
      hide WorldAt, Step, Feeds, WorldInv;
      assert Kept(cfg, moves, (id, k), j, n - 1) && StaysAt(cfg, moves, (id, k), n - 1);
      hide Kept;
      FeedsUntil(cfg, moves, id, k, j, n - 1);
      WorldAtNext(cfg, moves, n - 1);
      WorldAtInv(cfg, moves, n - 1);
      FeedsStep(cfg, WorldAt(cfg, moves, n - 1), moves[n - 1], id, k);
    }
  }

  lemma KeptAtOnce(cfg: Config, moves: seq<Move>, ck: (nat, string), n: nat)
    requires n <= |moves|
    ensures Kept(cfg, moves, ck, n, n)
  {
  }

  lemma KeptLonger(cfg: Config, moves: seq<Move>, ck: (nat, string), j: nat, n: nat)
    requires j < n <= |moves| && Kept(cfg, moves, ck, j, n - 1) && IsCached(WorldAt(cfg, moves, n), ck)
    ensures Kept(cfg, moves, ck, j, n)
  {
    hide WorldAt;
  }

  /** A key that is new in the cache was put there by a call, and has been kept since. */
  lemma {:induction false} FedSince(cfg: Config, moves: seq<Move>, id: nat, k: string, from: nat, n: nat)
    returns (j: nat)
    requires from <= n <= |moves|
    requires !IsCached(WorldAt(cfg, moves, from), (id, k)) && IsCached(WorldAt(cfg, moves, n), (id, k))
    ensures from < j <= n && Uses(WorldAt(cfg, moves, j), id, k) && Kept(cfg, moves, (id, k), j, n)
    decreases n
  {
    hide WorldAt, Course, Step, Next, Uses, WorldInv, Kept, IsCached;
    assert from < n;
    if IsCached(WorldAt(cfg, moves, n - 1), (id, k)) {
      j := FedSince(cfg, moves, id, k, from, n - 1);
      KeptLonger(cfg, moves, (id, k), j, n);
    } else {
      WorldAtNext(cfg, moves, n - 1);
      WorldAtInv(cfg, moves, n - 1);
      FedBy(cfg, WorldAt(cfg, moves, n - 1), moves[n - 1], id, k);
      j := n;
      assert Kept(cfg, moves, (id, k), n, n) by { KeptAtOnce(cfg, moves, (id, k), n); }
    }
  }

  ghost predicate Overlaps(cfg: Config, moves: seq<Move>, id: nat, k: string, check: nat, d: nat, j: nat)
    requires d <= |moves|
  {
    check <= j <= d && Uses(WorldAt(cfg, moves, j), id, k) && Kept(cfg, moves, (id, k), j, d)
  }

  /** Exactly when a drop orphans an entry, that is, when it takes a collector out of use that
      has an entry or gets one from a call under way: if and only if, at some moment from the
      check to the drop, a call has the collector, and the key of that call is not swept away
      again before the drop. */
  lemma OrphanIff(cfg: Config, moves: seq<Move>, id: nat, check: nat, d: nat)
    requires DropVisit(cfg, moves, id, check, d)
    ensures (exists k :: Feeds(WorldAt(cfg, moves, d), id, k)) <==>
            exists k, j: nat :: Overlaps(cfg, moves, id, k, check, d, j)
  {
    hide WorldAt, Uses, Kept;
    if k :| Feeds(WorldAt(cfg, moves, d), id, k) {
      if Uses(WorldAt(cfg, moves, d), id, k) {
        KeptAtOnce(cfg, moves, (id, k), d);
        assert Overlaps(cfg, moves, id, k, check, d, d);
      } else {
        assert (id, k) !in WorldAt(cfg, moves, check).core.mProc;
        var j := FedSince(cfg, moves, id, k, check, d);
        assert Overlaps(cfg, moves, id, k, check, d, j);
      }
    }
    if k, j: nat :| Overlaps(cfg, moves, id, k, check, d, j) {
      FeedsUntil(cfg, moves, id, k, j, d);
    }
  }

  /** What the metric protocol proves of its runs holds here too. */
  lemma {:induction false} CoreIsRun(cfg: Config, moves: seq<Move>) returns (actions: seq<Action>)
    ensures Course(cfg, moves).core == Run(cfg, actions)
  {
    actions := [];
    if moves != [] {
      var w, m := Course(cfg, moves[..|moves| - 1]), moves[|moves| - 1];
      actions := CoreIsRun(cfg, moves[..|moves| - 1]);
      var more := match (m, w.caller)
        case (Core(a), _) => if a.Begin? then [] else [a]
        case (StartUpdate, Chosen(id, k, i)) => [Begin(id, k, i)]
        case _ => [];
      assert more == [] ==> actions + more == actions;
      assert more != [] ==> (actions + more)[..|actions|] == actions;
      hide Next;
      actions := actions + more;
    }
  }

  // ---------- The race ----------

  /** No sweep of metrics and no scrape. */
  ghost predicate Quiet(moves: seq<Move>) {
    forall m <- moves :: m.Core? ==> !m.action.SweepLock? && !m.action.Scrapes?
  }

  lemma OneMove(cfg: Config, moves: seq<Move>, m: Move) returns (longer: seq<Move>)
    ensures longer == moves + [m] && Course(cfg, longer) == Step(cfg, Course(cfg, moves), m)
    ensures Quiet(moves) && Quiet([m]) ==> Quiet(longer)
  {
    longer := moves + [m];
    assert longer[..|moves|] == moves;
  }

  /** A world whose one collector is for one label. */
  function OneCollector(core: State, inUse: bool, list: seq<nat>, lock: Option<Owner>, walk: Walk,
      caller: Caller): (r: World)
  {
    World(core, if inUse then map[1 := 0] else map[], [1], list, lock, walk, caller)
  }

  lemma CreatedCollector(cfg: Config, interval: int) returns (moves: seq<Move>)
    ensures Quiet(moves)
    ensures Course(cfg, moves) == OneCollector(INIT, true, [], None, Resting, Created(0, "up", interval))
  {
    assert Course(cfg, []) == BEGINNING;
    hide Course, Next, Walks, WithCore;
    moves := OneMove(cfg, [], Call(1, "up", interval));
    assert Course(cfg, moves) == BEGINNING.(caller := Calling(1, "up", interval));
    moves := OneMove(cfg, moves, LoadCollector);
    assert Course(cfg, moves) == BEGINNING.(caller := Missing(1, "up", interval));
    moves := OneMove(cfg, moves, StoreCollector);
    var none: seq<nat> := [];
    assert none + [1] == [1];
  }

  lemma NewCollector(cfg: Config, interval: int) returns (moves: seq<Move>)
    ensures Quiet(moves)
    ensures Course(cfg, moves) == OneCollector(INIT, true, [0], None, Resting, Chosen(0, "up", interval))
  {
    hide Course, Next, Walks, WithCore;
    moves := CreatedCollector(cfg, interval);
    moves := OneMove(cfg, moves, LockCollectors);
    assert Course(cfg, moves) == OneCollector(INIT, true, [], Some(ByReceiver), Resting, Listing(0, "up", interval));
    moves := OneMove(cfg, moves, PushCollector);
    var none: seq<nat> := [];
    assert none + [0] == [0];
    assert Course(cfg, moves) == OneCollector(INIT, true, [0], Some(ByReceiver), Resting, Listed(0, "up", interval));
    moves := OneMove(cfg, moves, UnlockCollectors);
  }

  /** The new collector is still empty when the sweep comes by. */
  lemma CheckedCollector(cfg: Config, interval: int) returns (moves: seq<Move>)
    ensures Quiet(moves)
    ensures Course(cfg, moves)
            == OneCollector(INIT, true, [0], Some(BySweeper), Dropping(0), Chosen(0, "up", interval))
  {
    hide Course, Next, Calls, WithCore;
    var chosen := Chosen(0, "up", interval);
    moves := NewCollector(cfg, interval);
    moves := OneMove(cfg, moves, CheckLock);
    assert Course(cfg, moves) == OneCollector(INIT, true, [0], Some(BySweeper), Looking(0), chosen);
    moves := OneMove(cfg, moves, CheckEmpty);
  }

  lemma DroppedCollector(cfg: Config, interval: int) returns (moves: seq<Move>, d: nat)
    ensures Quiet(moves)
    ensures d < |moves| && moves[d] == Drop && IsDropping(WorldAt(cfg, moves, d), 0)
    ensures Course(cfg, moves) == OneCollector(INIT, false, [], None, Resting, Chosen(0, "up", interval))
  {
    hide Course, Next, Calls, WithCore;
    var chosen := Chosen(0, "up", interval);
    var before := CheckedCollector(cfg, interval);
    d := |before|;
    moves := OneMove(cfg, before, Drop);
    assert Course(cfg, moves) == OneCollector(INIT, false, [0], Some(BySweeper), Dropped(0), chosen);
    moves := OneMove(cfg, moves, RemoveNode);
    assert Course(cfg, moves) == OneCollector(INIT, false, [], Some(BySweeper), Looking(0), chosen);
    moves := OneMove(cfg, moves, CheckUnlock);
    assert moves[..d] == before && moves[d] == Drop;
  }

  /** The call goes on with the collector it has chosen. */
  lemma StoredInDropped(cfg: Config, interval: int, before: seq<Move>) returns (moves: seq<Move>)
    requires Course(cfg, before) == OneCollector(INIT, false, [], None, Resting, Chosen(0, "up", interval))
    ensures Course(cfg, moves)
            == OneCollector(OneEntry(interval, None, false, true, Proc([], None, Asleep), Stored(0, interval)),
                 false, [], None, Resting, Updating(0, "up"))
    ensures before <= moves && (Quiet(before) ==> Quiet(moves))
  {
    hide Course, Sweeps, Walks;
    moves := OneMove(cfg, before, StartUpdate);
    moves := OneMove(cfg, moves, Core(LoadKey));
    moves := OneMove(cfg, moves, Core(LoadOrStoreKey));
  }

  lemma PushedInDropped(cfg: Config, interval: int, before: seq<Move>) returns (moves: seq<Move>)
    requires Course(cfg, before)
             == OneCollector(OneEntry(interval, None, false, true, Proc([], None, Asleep), Stored(0, interval)),
                  false, [], None, Resting, Updating(0, "up"))
    ensures Course(cfg, moves)
            == OneCollector(
                 OneEntry(interval, None, false, true, Proc([0], Some(ByReceiver), Asleep), Pushed(0, interval)),
                 false, [], None, Resting, Updating(0, "up"))
    ensures before <= moves && (Quiet(before) ==> Quiet(moves))
  {
    hide Course, Sweeps, Calls, Walks;
    var caller := Updating(0, "up");
    moves := OneMove(cfg, before, Core(LockList));
    var core := OneEntry(interval, None, false, true, Proc([], Some(ByReceiver), Asleep), Locked(0, interval));
    assert Course(cfg, moves) == OneCollector(core, false, [], None, Resting, caller);
    moves := OneMove(cfg, moves, Core(PushRecord));
    var none: seq<nat> := [];
    assert none + [0] == [0];
  }

  lemma UpdatedInDropped(cfg: Config, interval: int, now: int, before: seq<Move>) returns (moves: seq<Move>)
    requires Course(cfg, before)
             == OneCollector(OneEntry(interval, None, false, true, Proc([], None, Asleep), Stored(0, interval)),
                  false, [], None, Resting, Updating(0, "up"))
    ensures Course(cfg, moves)
            == OneCollector(OneEntry(interval, Some(now), false, true, Proc([0], None, Asleep), Idle),
                 false, [], None, Resting, Free)
    ensures before <= moves && (Quiet(before) ==> Quiet(moves))
  {
    hide Course, Sweeps, Calls, Walks;
    moves := PushedInDropped(cfg, interval, before);
    moves := OneMove(cfg, moves, Core(UnlockList));
    var core := OneEntry(interval, None, false, true, Proc([0], None, Asleep), Known(0));
    assert Course(cfg, moves) == OneCollector(core, false, [], None, Resting, Updating(0, "up"));
    moves := OneMove(cfg, moves, Core(KeepRecordAlive(now)));
  }

  /** A collector sweep between the choice of a collector and the update: the sample is stored,
      registered and kept alive in a collector that is out of use. No metric sweep has been near
      it; and where no scrape sees it, none ever removes it. */
  lemma SampleCanBeOrphaned(cfg: Config, interval: int, now: int) returns (moves: seq<Move>, check: nat, d: nat)
    ensures DropVisit(cfg, moves, 0, check, d)
    ensures Quiet(moves)
    ensures Course(cfg, moves)
            == OneCollector(OneEntry(interval, Some(now), false, true, Proc([0], None, Asleep), Idle),
                 false, [], None, Resting, Free)
  {
    hide Course;
    var before;
    before, d := DroppedCollector(cfg, interval);
    moves := StoredInDropped(cfg, interval, before);
    moves := UpdatedInDropped(cfg, interval, now, moves);
    assert moves[..d] == before[..d] && moves[d] == before[d];
    check := CheckOf(cfg, moves, 0, d);
  }
}
