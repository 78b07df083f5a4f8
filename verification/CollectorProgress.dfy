/** What the collector sweep gets done: when nothing interrupts it, it takes out of use exactly the
    collectors without entries, and it can end from every state of every interleaving. */
module CollectorProgress {
  import opened CollectorRaces
  import opened ExpiryProtocol
  import opened MetricCache
  import opened Wrappers

  predicate OfCheck(m: Move) {
    m in {CheckLock, CheckEmpty, Drop, RemoveNode, CheckUnlock}
  }

  /** The moves, and then some of the collector sweep and of nothing else. */
  ghost predicate Continues(moves: seq<Move>, longer: seq<Move>) {
    moves <= longer && forall k | |moves| <= k < |longer| :: OfCheck(longer[k])
  }

  lemma OneCheck(cfg: Config, moves: seq<Move>, m: Move) returns (longer: seq<Move>)
    requires OfCheck(m)
    ensures Continues(moves, longer) && Course(cfg, longer) == Walks(Course(cfg, moves), m)
  {
    longer := OneMove(cfg, moves, m);
    assert CollectorRaces.Step(cfg, Course(cfg, moves), m) == Walks(Course(cfg, moves), m);
  }

  lemma CourseInv(cfg: Config, moves: seq<Move>)
    ensures WorldInv(Course(cfg, moves))
  {
    WorldAtInv(cfg, moves, |moves|);
    assert moves[..|moves|] == moves;
  }

  /** Some key of this collector is in the cache. */
  predicate HasEntry(s: State, id: nat) {
    exists ck <- s.mProc :: ck.0 == id
  }

  lemma EmptyIff(s: State, id: nat)
    ensures IsEmpty(s, id) <==> !HasEntry(s, id)
  {
  }

  function WithEntries(s: State, l: seq<nat>): (r: seq<nat>) {
    if l == [] then [] else (if HasEntry(s, l[0]) then [l[0]] else []) + WithEntries(s, l[1..])
  }

  /** The label counts of the listed collectors that have no entry. */
  function EmptyCounts(w: World, l: seq<nat>): (r: set<nat>) {
    set k | 0 <= k < |l| && !HasEntry(w.core, l[k]) && l[k] < |w.labelCounts| :: w.labelCounts[l[k]]
  }

  lemma DropSteps(w: World, pos: nat)
    requires w.walk == Looking(pos) && pos < |w.list| && w.list[pos] < |w.labelCounts|
    ensures HasEntry(w.core, w.list[pos]) ==> Walks(w, CheckEmpty) == w.(walk := Looking(pos + 1))
    ensures !HasEntry(w.core, w.list[pos]) ==>
              Walks(Walks(Walks(w, CheckEmpty), Drop), RemoveNode)
              == w.(list := w.list[..pos] + w.list[pos + 1..],
                    collectors := w.collectors - {w.labelCounts[w.list[pos]]})
  {
    EmptyIff(w.core, w.list[pos]);
    hide IsEmpty, HasEntry;
  }

  lemma OneVisit(cfg: Config, moves: seq<Move>, pos: nat) returns (longer: seq<Move>)
    requires var w := Course(cfg, moves);
             w.walk == Looking(pos) && pos < |w.list| && w.list[pos] < |w.labelCounts|
    ensures Continues(moves, longer)
    ensures var (w, w') := (Course(cfg, moves), Course(cfg, longer));
            w' == if HasEntry(w.core, w.list[pos])
                  then w.(walk := Looking(pos + 1))
                  else w.(list := w.list[..pos] + w.list[pos + 1..],
                          collectors := w.collectors - {w.labelCounts[w.list[pos]]})
  {
    DropSteps(Course(cfg, moves), pos);
    hide Course, HasEntry, Walks;
    longer := OneCheck(cfg, moves, CheckEmpty);
    if !HasEntry(Course(cfg, moves).core, Course(cfg, moves).list[pos]) {
      longer := OneCheck(cfg, longer, Drop);
      longer := OneCheck(cfg, longer, RemoveNode);
    }
  }

  lemma EmptyCountsOfFirst(w: World, l: seq<nat>)
    requires l != [] && l[0] < |w.labelCounts|
    ensures EmptyCounts(w, l)
         == (if HasEntry(w.core, l[0]) then {} else {w.labelCounts[l[0]]}) + EmptyCounts(w, l[1..])
  {
    hide HasEntry;
    assert forall k | 0 < k < |l| :: l[k] == l[1..][k - 1];
  }

  /** The world when the walk from a position has come to its end. */
  function CheckedFrom(w: World, pos: nat): (r: World)
    requires pos <= |w.list|
  {
    w.(collectors := w.collectors - EmptyCounts(w, w.list[pos..]),
       list := w.list[..pos] + WithEntries(w.core, w.list[pos..]), lock := None, walk := Resting)
  }

  lemma VisitedThenChecked(w: World, w': World, pos: nat)
    requires pos < |w.list| && w.list[pos] < |w.labelCounts|
    requires w' == if HasEntry(w.core, w.list[pos])
                   then w.(walk := Looking(pos + 1))
                   else w.(list := w.list[..pos] + w.list[pos + 1..],
                           collectors := w.collectors - {w.labelCounts[w.list[pos]]})
    ensures var next := if HasEntry(w.core, w.list[pos]) then pos + 1 else pos;
            next <= |w'.list| && CheckedFrom(w', next) == CheckedFrom(w, pos)
  {
    var l := w.list;
    EmptyCountsOfFirst(w, l[pos..]);
    assert l[pos..][1..] == l[pos + 1..];
    hide HasEntry, EmptyCounts;
    var kept := WithEntries(w.core, l[pos + 1..]);
    assert EmptyCounts(w', l[pos + 1..]) == EmptyCounts(w, l[pos + 1..]) by {
      SameEmptyCounts(w, w', l[pos + 1..]);
    }
    if !HasEntry(w.core, l[pos]) {
      assert w'.list[..pos] == l[..pos] && w'.list[pos..] == l[pos + 1..];
      assert WithEntries(w.core, l[pos..]) == [] + kept == kept;
    } else {
      assert l[..pos + 1] + kept == l[..pos] + ([l[pos]] + kept);
    }
  }

  lemma SameEmptyCounts(w: World, w': World, l: seq<nat>)
    requires w'.core == w.core && w'.labelCounts == w.labelCounts
    ensures EmptyCounts(w', l) == EmptyCounts(w, l)
  {
  }

  lemma EndOfChecks(w: World)
    requires w.walk == Looking(|w.list|)
    ensures Walks(w, CheckUnlock) == CheckedFrom(w, |w.list|)
  {
    assert w.list[|w.list|..] == [] && w.list[..|w.list|] + [] == w.list;
    assert w.collectors - EmptyCounts(w, []) == w.collectors;
  }

  lemma {:induction false} ChecksEnd(cfg: Config, moves: seq<Move>, pos: nat) returns (longer: seq<Move>)
    requires Course(cfg, moves).walk == Looking(pos) && pos <= |Course(cfg, moves).list|
    ensures Continues(moves, longer) && Course(cfg, longer) == CheckedFrom(Course(cfg, moves), pos)
    decreases |Course(cfg, moves).list| - pos
  {
    CourseInv(cfg, moves);
    var w := Course(cfg, moves);
    if pos == |w.list| {
      EndOfChecks(w);
      longer := OneCheck(cfg, moves, CheckUnlock);
    } else {
      assert ListedInv(w, pos);
      hide Course, WorldInv, HasEntry, CheckedFrom;
      var visited := OneVisit(cfg, moves, pos);
      VisitedThenChecked(w, Course(cfg, visited), pos);
      longer := ChecksEnd(cfg, visited, if HasEntry(w.core, w.list[pos]) then pos + 1 else pos);
    }
  }

  /** In any reachable state with its list free, the collector sweep can be done without interruption.
      It then takes out of use the collectors without entries, with their records, and no others. */
  lemma CheckAlone(cfg: Config, moves: seq<Move>) returns (longer: seq<Move>)
    requires Course(cfg, moves).lock.None?
    ensures Continues(moves, longer)
    ensures var (w, w') := (Course(cfg, moves), Course(cfg, longer));
            && w'.list == WithEntries(w.core, w.list)
            && w'.collectors == w.collectors - EmptyCounts(w, w.list)
            && w'.lock.None? && w'.walk == Resting && w'.core == w.core && w'.caller == w.caller
  {
    CourseInv(cfg, moves);
    var w := Course(cfg, moves);
    hide Course, HasEntry, EmptyCounts, WithEntries;
    longer := OneCheck(cfg, moves, CheckLock);
    SameEmptyCounts(w, Course(cfg, longer), w.list);
    longer := ChecksEnd(cfg, longer, 0);
    assert w.list[0..] == w.list && w.list[..0] + WithEntries(w.core, w.list) == WithEntries(w.core, w.list);
  }

  lemma WalkGoesOn(w: World)
    requires w.walk != Resting && w.walk.pos < |w.list| && w.list[w.walk.pos] < |w.labelCounts|
    ensures w.walk.Dropping? ==> Walks(w, Drop).walk == Dropped(w.walk.pos) && Walks(w, Drop).list == w.list
    ensures w.walk.Dropped? ==> Walks(w, RemoveNode).walk == Looking(w.walk.pos)
                                && |Walks(w, RemoveNode).list| == |w.list| - 1
    ensures w.walk.Dropping? ==> var w' := Walks(Walks(w, Drop), RemoveNode);
                                 w'.walk == Looking(w.walk.pos) && |w'.list| == |w.list| - 1
  {
  }

  /** A drop that is under way comes to its end. */
  lemma DropEnds(cfg: Config, moves: seq<Move>) returns (longer: seq<Move>)
    requires Course(cfg, moves).walk != Resting
    ensures Continues(moves, longer)
    ensures var w := Course(cfg, longer); w.walk.Looking? && w.walk.pos <= |w.list|
  {
    CourseInv(cfg, moves);
    var w := Course(cfg, moves);
    assert ListedInv(w, w.walk.pos);
    if !w.walk.Looking? {
      WalkGoesOn(w);
    }
    hide Course, WorldInv, ListedInv, Walks;
    longer := moves;
    if w.walk.Dropping? {
      longer := OneCheck(cfg, longer, Drop);
    }
    if !w.walk.Looking? {
      longer := OneCheck(cfg, longer, RemoveNode);
    }
  }

  lemma CheckCanEnd(cfg: Config, moves: seq<Move>) returns (longer: seq<Move>)
    requires Course(cfg, moves).walk != Resting
    ensures Continues(moves, longer)
    ensures Course(cfg, longer).walk == Resting && Course(cfg, longer).lock.None?
  {
    hide Course, EmptyCounts, WithEntries;
    longer := DropEnds(cfg, moves);
    longer := ChecksEnd(cfg, longer, Course(cfg, longer).walk.pos);
  }
}
