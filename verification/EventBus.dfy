/** The event bus as a protocol: publishers and subscribers meet at a read-write lock, every
    delivery is a goroutine of its own, and one wait group counts those of all blocking
    publishers. Each action on the lock, the counter or a goroutine is one step. */
module EventBus {
  /** Where a publisher is: starting deliveries; at the call of `Wait`; asleep in it; let go, but
      not running yet; out of it, still with the read lock. */
  datatype Progress = Spawning(next: nat) | Waiting | Asleep | Woken | Released | Returned

  /** A call of Publish or PublishBlocking, with the number of subscribers at its read lock
      and, for the record, the calls that had returned by then. */
  datatype Call = Call(blocking: bool, present: nat, after: set<nat>, progress: Progress)

  datatype Phase = Running | Handled | Finished

  /** A delivery is known by the call and the position of its subscriber. */
  type Delivery = (nat, nat)

  datatype Bus = Bus(
    subscribers: nat,
    calls: seq<Call>,
    deliveries: map<Delivery, Phase>,
    counter: int,
    log: seq<Delivery>,   // the events handled, in order
    crashed: bool)        // the wait group has found itself misused

  datatype Step =
    | Subscribe
    | Begin(blocking: bool)
    | Spawn(c: nat)
    | EndSpawn(c: nat)
    | Handle(d: Delivery)
    | Finish(d: Delivery)
    | Wait(c: nat)
    | WakeAll
    | Wake(c: nat)
    | Return(c: nat)

  const START := Bus(0, [], map[], 0, [], false)

  predicate Active(s: Bus, c: nat) {
    c < |s.calls| && !s.calls[c].progress.Returned?
  }

  predicate IsAsleep(s: Bus, c: nat) {
    c < |s.calls| && s.calls[c].progress.Asleep?
  }

  predicate HasWaiters(s: Bus) {
    exists c: nat | c < |s.calls| :: IsAsleep(s, c)
  }

  /** Subscribing takes the write lock, so no call may hold the read lock. The delivery that
      brings the counter to zero lets the waiters go in a step of its own, `WakeAll`. */
  predicate Enabled(s: Bus, step: Step) {
    && !s.crashed
    && match step
       case Subscribe => forall c | 0 <= c < |s.calls| :: !Active(s, c)
       case Begin(_) => true
       case Spawn(c) => c < |s.calls| && s.calls[c].progress.Spawning? && s.calls[c].progress.next < s.subscribers
       case EndSpawn(c) => c < |s.calls| && s.calls[c].progress.Spawning? && s.calls[c].progress.next >= s.subscribers
       case Handle(d) => d in s.deliveries && s.deliveries[d].Running?
       case Finish(d) => d in s.deliveries && s.deliveries[d].Handled? && d.0 < |s.calls|
       case Wait(c) => c < |s.calls| && s.calls[c].progress.Waiting?
       case WakeAll => s.counter == 0 && HasWaiters(s)
       case Wake(c) => c < |s.calls| && s.calls[c].progress.Woken?
       case Return(c) => c < |s.calls| && s.calls[c].progress.Released?
  }

  function Move(s: Bus, c: nat, p: Progress): (r: Bus)
    requires c < |s.calls|
  {
    s.(calls := s.calls[c := s.calls[c].(progress := p)])
  }

  function ReturnedCalls(calls: seq<Call>): (r: set<nat>) {
    set c: nat | c < |calls| && calls[c].progress.Returned?
  }

  function WokenCalls(calls: seq<Call>): (r: seq<Call>)
    ensures |r| == |calls|
  {
    seq(|calls|, c requires 0 <= c < |calls| =>
      if calls[c].progress.Asleep? then calls[c].(progress := Woken) else calls[c])
  }

  /** A step; one that is not possible changes nothing. The wait group checks its use twice:
      whoever raises the counter from zero must not meet waiters that are not let go yet, and
      a waiter that comes to itself must find neither a count nor other waiters. */
  function Next(s: Bus, step: Step): (r: Bus) {
    if !Enabled(s, step) then s
    else
      match step
      case Subscribe => s.(subscribers := s.subscribers + 1)
      case Begin(blocking) =>
        s.(calls := s.calls + [Call(blocking, s.subscribers, ReturnedCalls(s.calls), Spawning(0))])
      case Spawn(c) =>
        var next := s.calls[c].progress.next;
        if s.calls[c].blocking && s.counter == 0 && HasWaiters(s) then s.(crashed := true)
        else Move(s, c, Spawning(next + 1)).(
          deliveries := s.deliveries[(c, next) := Running],
          counter := s.counter + if s.calls[c].blocking then 1 else 0)
      case EndSpawn(c) => Move(s, c, if s.calls[c].blocking then Waiting else Returned)
      case Handle(d) => s.(deliveries := s.deliveries[d := Handled], log := s.log + [d])
      case Finish(d) =>
        s.(deliveries := s.deliveries[d := Finished], counter := s.counter - if s.calls[d.0].blocking then 1 else 0)
      case Wait(c) => Move(s, c, if s.counter == 0 then Released else Asleep)
      case WakeAll => s.(calls := WokenCalls(s.calls))
      case Wake(c) => if s.counter == 0 && !HasWaiters(s) then Move(s, c, Released) else s.(crashed := true)
      case Return(c) => Move(s, c, Returned)
  }

  function Run(steps: seq<Step>): (r: Bus) {
    if steps == [] then START else Next(Run(steps[..|steps| - 1]), steps[|steps| - 1])
  }

  // ---------- Invariants ----------

  /** How many deliveries a call has started. */
  function Started(call: Call): (r: nat) {
    if call.progress.Spawning? then call.progress.next else call.present
  }

  /** The deliveries the counter stands for. */
  ghost function Unfinished(s: Bus): (r: set<Delivery>) {
    set d | d in s.deliveries && !s.deliveries[d].Finished? && Counted(s, d)
  }

  predicate Counted(s: Bus, d: Delivery) {
    d.0 < |s.calls| && s.calls[d.0].blocking
  }

  ghost predicate CallInv(s: Bus, c: nat)
    requires c < |s.calls|
  {
    var call := s.calls[c];
    && (Active(s, c) ==> call.present == s.subscribers)
    && Started(call) <= call.present
    && (forall j: nat :: (c, j) in s.deliveries <==> j < Started(call))
    && (call.blocking && (call.progress.Woken? || call.progress.Released? || call.progress.Returned?) ==>
          forall j: nat | j < call.present :: s.deliveries[(c, j)].Finished?)
    && (!call.blocking ==> call.progress.Spawning? || call.progress.Returned?)
    && (forall a <- call.after :: a < |s.calls| && s.calls[a].progress.Returned?)
  }

  ghost predicate LogInv(s: Bus, d: Delivery) {
    multiset(s.log)[d] == if d in s.deliveries && !s.deliveries[d].Running? then 1 else 0
  }

  /** Two entries of the log for one subscriber, the first of a blocking call that had
      returned before the other began. */
  ghost predicate InOrder(s: Bus, p: nat, q: nat)
    requires p < |s.log| && q < |s.log|
  {
    var (a, i) := s.log[p];
    var (b, j) := s.log[q];
    i == j && a < |s.calls| && b < |s.calls| && s.calls[a].blocking && a in s.calls[b].after ==> p < q
  }

  ghost predicate Inv(s: Bus) {
    && (forall c | 0 <= c < |s.calls| :: CallInv(s, c))
    && (forall d <- s.deliveries :: d.0 < |s.calls|)
    && s.counter == |Unfinished(s)|
    && (forall d :: LogInv(s, d))
    && (forall p, q | 0 <= p < |s.log| && 0 <= q < |s.log| :: InOrder(s, p, q))
  }

  lemma ReleasedMeansFinished(s: Bus, c: nat)
    requires c < |s.calls| && CallInv(s, c) && s.counter == |Unfinished(s)|
    requires s.calls[c].blocking && s.counter == 0 && (s.calls[c].progress.Waiting? || s.calls[c].progress.Asleep?)
    ensures forall j: nat | j < s.calls[c].present :: s.deliveries[(c, j)].Finished?
  {
    assert Unfinished(s) == {};
    forall j: nat | j < s.calls[c].present ensures s.deliveries[(c, j)].Finished? {
      assert (c, j) in s.deliveries;
      assert (c, j) !in Unfinished(s);
    }
  }

  lemma OneCallKept(s: Bus, step: Step, c: nat)
    requires Inv(s) && c < |s.calls| && Enabled(s, step)
    ensures CallInv(Next(s, step), c)
  {
    hide LogInv, InOrder, Unfinished;
    assert CallInv(s, c);
    match step
    case Subscribe =>
      assert !Active(s, c);
    case Wait(_) =>
      if c == step.c && s.calls[c].blocking && s.counter == 0 {
        ReleasedMeansFinished(s, c);
      }
    case WakeAll =>
      if IsAsleep(s, c) && s.calls[c].blocking {
        ReleasedMeansFinished(s, c);
      }
    case _ =>
  }

  lemma NextKeepsCalls(s: Bus, step: Step)
    requires Inv(s)
    ensures var s' := Next(s, step);
            && (forall c | 0 <= c < |s'.calls| :: CallInv(s', c))
            && (forall d <- s'.deliveries :: d.0 < |s'.calls|)
  {
    var s' := Next(s, step);
    if Enabled(s, step) {
      forall c | 0 <= c < |s'.calls| ensures CallInv(s', c) {
        if c < |s.calls| {
          OneCallKept(s, step, c);
        }
      }
    }
  }

  /** The effect of one changed delivery on the set behind the counter. */
  lemma UnfinishedUpdate(s: Bus, s': Bus, d: Delivery, phase: Phase)
    requires s'.deliveries == s.deliveries[d := phase]
    requires forall x :: Counted(s', x) <==> Counted(s, x)
    ensures phase.Finished? || !Counted(s, d) ==> Unfinished(s') == Unfinished(s) - {d}
    ensures !phase.Finished? && Counted(s, d) ==> Unfinished(s') == Unfinished(s) + {d}
  {
    hide Counted;
  }

  lemma SpawnKeepsCounter(s: Bus, c: nat)
    requires Inv(s) && Enabled(s, Spawn(c))
    ensures Next(s, Spawn(c)).counter == |Unfinished(Next(s, Spawn(c)))|
  {
    hide LogInv, InOrder;
    assert CallInv(s, c);
    var d := (c, s.calls[c].progress.next);
    assert d !in s.deliveries;
    assert d !in Unfinished(s);
    assert Unfinished(s.(crashed := true)) == Unfinished(s);
    hide Unfinished, CallInv;
    if !Next(s, Spawn(c)).crashed {
      UnfinishedUpdate(s, Next(s, Spawn(c)), d, Running);
    }
  }

  lemma FinishKeepsCounter(s: Bus, d: Delivery)
    requires Inv(s) && Enabled(s, Finish(d))
    ensures Next(s, Finish(d)).counter == |Unfinished(Next(s, Finish(d)))|
  {
    hide LogInv, InOrder, CallInv;
    assert d in Unfinished(s) <==> Counted(s, d);
    hide Unfinished;
    UnfinishedUpdate(s, Next(s, Finish(d)), d, Finished);
  }

  lemma OthersKeepCounter(s: Bus, step: Step)
    requires Inv(s) && !step.Spawn? && !step.Finish?
    ensures Unfinished(Next(s, step)) == Unfinished(s)
  {
    hide CallInv, LogInv, InOrder;
  }

  lemma NextKeepsCounter(s: Bus, step: Step)
    requires Inv(s)
    ensures Next(s, step).counter == |Unfinished(Next(s, step))|
  {
    if Enabled(s, step) {
      match step
      case Spawn(c) => SpawnKeepsCounter(s, c);
      case Finish(d) => FinishKeepsCounter(s, d);
      case _ => OthersKeepCounter(s, step);
    }
  }

  lemma NextKeepsLog(s: Bus, step: Step)
    requires Inv(s)
    ensures forall d :: LogInv(Next(s, step), d)
  {
    var s' := Next(s, step);
    forall d ensures LogInv(s', d) {
      assert LogInv(s, d);
      if step.Spawn? && Enabled(s, step) {
        assert CallInv(s, step.c);
      }
    }
  }

  lemma NextKeepsOrder(s: Bus, step: Step)
    requires Inv(s)
    ensures var s' := Next(s, step);
            forall p, q | 0 <= p < |s'.log| && 0 <= q < |s'.log| :: InOrder(s', p, q)
  {
    hide Unfinished, HasWaiters, Active;
    var s' := Next(s, step);
    forall p, q | 0 <= p < |s'.log| && 0 <= q < |s'.log| ensures InOrder(s', p, q) {
      var (a, i) := s'.log[p];
      var (b, j) := s'.log[q];
      if p < |s.log| && q < |s.log| {
        assert InOrder(s, p, q);
        assert LogInv(s, s.log[p]) && LogInv(s, s.log[q]);
        assert s.log[p] in s.deliveries && s.log[q] in s.deliveries;
      } else if p == |s.log| && b < |s'.calls| && a < |s'.calls| {
        assert CallInv(s, a) && CallInv(s, b);
      }
    }
  }

  lemma NextKeepsInv(s: Bus, step: Step)
    requires Inv(s)
    ensures Inv(Next(s, step))
  {
    NextKeepsCalls(s, step);
    NextKeepsCounter(s, step);
    NextKeepsLog(s, step);
    NextKeepsOrder(s, step);
    hide CallInv, LogInv, InOrder, Unfinished, Next;
  }

  lemma {:induction false} RunKeepsInv(steps: seq<Step>)
    ensures Inv(Run(steps))
  {
    if steps == [] {
      assert Unfinished(START) == {};
    } else {
      RunKeepsInv(steps[..|steps| - 1]);
      NextKeepsInv(Run(steps[..|steps| - 1]), steps[|steps| - 1]);
    }
  }

  // ---------- What publishers may rely on ----------

  /** In every interleaving the wait group's counter is the number of unfinished deliveries
      of blocking calls, so it never becomes negative. */
  lemma CounterIsUnfinished(steps: seq<Step>)
    ensures Run(steps).counter == |Unfinished(Run(steps))| >= 0
  {
    RunKeepsInv(steps);
  }

  /** When PublishBlocking returns, every subscriber present at its read lock has handled the
      event exactly once; nobody ever handles an event twice, and subscribers that came later
      never handle it. */
  lemma HandledOnReturn(steps: seq<Step>, c: nat, j: nat)
    requires c < |Run(steps).calls|
    ensures var s := Run(steps);
            var call := s.calls[c];
            && multiset(s.log)[(c, j)] <= 1
            && (j >= call.present ==> multiset(s.log)[(c, j)] == 0)
            && (call.blocking && call.progress.Returned? && j < call.present ==> multiset(s.log)[(c, j)] == 1)
  {
    RunKeepsInv(steps);
    assert CallInv(Run(steps), c) && LogInv(Run(steps), (c, j));
  }

  /** The call was made and has returned in this run. */
  predicate ReturnedBy(steps: seq<Step>, a: nat) {
    a < |Run(steps).calls| && Run(steps).calls[a].progress.Returned?
  }

  lemma RunLast(steps: seq<Step>)
    requires steps != []
    ensures Run(steps) == Next(Run(steps[..|steps| - 1]), steps[|steps| - 1])
  {
  }

  /** A call that has returned is over for good, and every call made later is known to be later. */
  lemma {:induction false} ReturnedStays(steps: seq<Step>, n: nat, a: nat)
    requires n <= |steps| && ReturnedBy(steps[..n], a)
    ensures ReturnedBy(steps, a) && Run(steps).calls[a] == Run(steps[..n]).calls[a]
    ensures |Run(steps[..n]).calls| <= |Run(steps).calls|
    ensures forall b: nat | |Run(steps[..n]).calls| <= b < |Run(steps).calls| :: a in Run(steps).calls[b].after
  {
    hide Run;
    if n == |steps| {
      assert steps[..n] == steps;
    } else {
      assert steps[..|steps| - 1][..n] == steps[..n];
      ReturnedStays(steps[..|steps| - 1], n, a);
      RunLast(steps);
    }
  }

  /** Two calls one after the other: call a is blocking and has returned before the n-th step,
      call b is made later. Every subscriber of call a handles its event before that of call b. */
  lemma SequentialCallsInOrder(steps: seq<Step>, n: nat, a: nat, b: nat, j: nat)
    requires n <= |steps| && ReturnedBy(steps[..n], a) && Run(steps[..n]).calls[a].blocking
    requires |Run(steps[..n]).calls| <= b < |Run(steps).calls| && j < Run(steps[..n]).calls[a].present
    ensures var s := Run(steps);
            exists p: nat :: p < |s.log| && s.log[p] == (a, j) &&
              forall q | 0 <= q < |s.log| && s.log[q] == (b, j) :: p < q
  {
    var s := Run(steps);
    RunKeepsInv(steps);
    ReturnedStays(steps, n, a);
    assert CallInv(s, a) && CallInv(s, b) && LogInv(s, (a, j));
    assert (a, j) in multiset(s.log);
    var p :| 0 <= p < |s.log| && s.log[p] == (a, j);
    forall q | 0 <= q < |s.log| && s.log[q] == (b, j) ensures p < q {
      assert InOrder(s, p, q);
    }
  }

  // ---------- Misuse of the wait group ----------

  predicate IsWoken(s: Bus, c: nat) {
    c < |s.calls| && s.calls[c].progress.Woken?
  }

  /** The program has crashed, or does so as soon as some waiter comes to itself. */
  ghost predicate Doomed(s: Bus) {
    s.crashed || exists c: nat :: Next(s, Wake(c)).crashed
  }

  /** The counter has reached zero for this call, which is not out of `Wait` yet. */
  predicate LetGo(s: Bus, c: nat) {
    IsWoken(s, c) || (IsAsleep(s, c) && s.counter == 0)
  }

  predicate Blocks(s: Bus, c: nat) {
    c < |s.calls| && s.calls[c].blocking
  }

  /** A blocking call starts a delivery while another call is on its way out of `Wait`. */
  ghost predicate Overtakes(s: Bus, step: Step) {
    step.Spawn? && Next(s, step) != s && Blocks(s, step.c) && exists c: nat :: LetGo(s, c)
  }

  lemma DoomedMeans(s: Bus)
    ensures Doomed(s) <==> s.crashed || ((s.counter != 0 || HasWaiters(s)) && exists c: nat :: IsWoken(s, c))
  {
    if !s.crashed && (s.counter != 0 || HasWaiters(s)) {
      if c: nat :| IsWoken(s, c) {
        assert Next(s, Wake(c)).crashed;
      }
      if c: nat :| Next(s, Wake(c)).crashed {
        assert IsWoken(s, c);
      }
    }
  }

  /** Waiters at a zero counter are there only until they are let go. */
  lemma NoNewWaiters(s: Bus, step: Step)
    requires s.counter == 0 && !HasWaiters(s)
    ensures !HasWaiters(Next(s, step))
  {
    var s' := Next(s, step);
    forall c: nat | c < |s'.calls| ensures !IsAsleep(s', c) {
      assert !IsAsleep(s, c);
    }
  }

  lemma WakeAllLeavesNone(s: Bus)
    requires Enabled(s, WakeAll)
    ensures !HasWaiters(Next(s, WakeAll)) && Next(s, WakeAll).counter == 0
  {
  }

  lemma DoomedSince(s: Bus, step: Step)
    requires Inv(s) && Doomed(Next(s, step))
    ensures Doomed(s) || Overtakes(s, step)
  {
    var s' := Next(s, step);
    DoomedMeans(s);
    DoomedMeans(s');
    hide Inv, CallInv, LogInv, InOrder, Doomed;
    if step == WakeAll && Enabled(s, step) {
      WakeAllLeavesNone(s);
    } else if s.counter == 0 && !HasWaiters(s) {
      NoNewWaiters(s, step);
      if step.Finish? && Enabled(s, step) && s.calls[step.d.0].blocking {
        CountedIsUnfinished(s, step.d);
      }
    }
    if !s.crashed && !Doomed(s) {
      if s'.crashed {
        assert step.Wake? ==> IsWoken(s, step.c);
        var c: nat :| c < |s.calls| && IsAsleep(s, c);
        assert LetGo(s, c);
      } else {
        var c: nat :| IsWoken(s', c);
        assert step != WakeAll ==> IsWoken(s, c);
        assert IsWoken(s, c) ==> LetGo(s, c);
      }
    }
  }

  lemma CountedIsUnfinished(s: Bus, d: Delivery)
    requires Inv(s) && Enabled(s, Finish(d)) && s.calls[d.0].blocking
    ensures s.counter > 0
  {
    assert d in Unfinished(s);
  }

  ghost predicate DoomedAt(steps: seq<Step>, n: nat) {
    n <= |steps| && Doomed(Run(steps[..n]))
  }

  ghost predicate OvertakesAt(steps: seq<Step>, n: nat) {
    n < |steps| && Overtakes(Run(steps[..n]), steps[n])
  }

  lemma {:induction false} DoomNeedsOvertaking(steps: seq<Step>, n: nat)
    requires DoomedAt(steps, n)
    ensures exists m: nat :: OvertakesAt(steps, m)
  {
    assert n > 0 by { DoomedMeans(START); }
    var before := steps[..n - 1];
    RunKeepsInv(before);
    RunLast(steps[..n]);
    assert steps[..n][..n - 1] == before;
    hide Run, Doomed, Overtakes, Inv, Next;
    DoomedSince(Run(before), steps[n - 1]);
    if Doomed(Run(before)) {
      DoomNeedsOvertaking(steps, n - 1);
    } else {
      assert OvertakesAt(steps, n - 1);
    }
  }

  lemma OvertakingDooms(s: Bus, step: Step)
    requires Inv(s) && Overtakes(s, step)
    ensures Doomed(Next(s, step))
  {
    var s' := Next(s, step);
    DoomedMeans(s');
    hide Inv, CallInv, LogInv, InOrder, Doomed;
    var c: nat :| LetGo(s, c);
    if !s'.crashed {
      assert s'.counter == s.counter + 1 > 0 by { CounterIsNatural(s); }
      assert IsWoken(s', c);
    }
  }

  lemma CounterIsNatural(s: Bus)
    requires Inv(s)
    ensures s.counter >= 0
  {
  }

  /** Exactly when publishers that share the wait group misuse it: a run gets to a state where
      the program has crashed, or crashes as soon as a waiter comes to itself, if and only if
      some blocking call starts a delivery while another one is on its way out of `Wait`. */
  lemma MisuseIff(steps: seq<Step>)
    ensures (exists n: nat :: DoomedAt(steps, n)) <==> exists n: nat :: OvertakesAt(steps, n)
  {
    if n: nat :| DoomedAt(steps, n) {
      DoomNeedsOvertaking(steps, n);
    }
    if n: nat :| OvertakesAt(steps, n) {
      RunKeepsInv(steps[..n]);
      OvertakingDooms(Run(steps[..n]), steps[n]);
      RunLast(steps[..n + 1]);
      assert steps[..n + 1][..n] == steps[..n];
      assert DoomedAt(steps, n + 1);
    }
  }

  lemma OneMore(steps: seq<Step>, step: Step) returns (longer: seq<Step>)
    ensures longer == steps + [step] && Run(longer) == Next(Run(steps), step)
  {
    longer := steps + [step];
    assert longer[..|steps|] == steps;
  }

  lemma WaitingCall() returns (steps: seq<Step>)
    ensures Run(steps) == Bus(1, [Call(true, 1, {}, Waiting)], map[(0, 0) := Running], 1, [], false)
  {
    assert Run([]) == START;
    hide Run;
    steps := OneMore([], Subscribe);
    steps := OneMore(steps, Begin(true));
    var none: seq<Call> := [];
    assert ReturnedCalls(none) == {} && none + [Call(true, 1, {}, Spawning(0))] == [Call(true, 1, {}, Spawning(0))];
    assert Run(steps) == Bus(1, [Call(true, 1, {}, Spawning(0))], map[], 0, [], false);
    steps := OneMore(steps, Spawn(0));
    steps := OneMore(steps, EndSpawn(0));
  }

  lemma WokenCall() returns (steps: seq<Step>)
    ensures Run(steps) == Bus(1, [Call(true, 1, {}, Woken)], map[(0, 0) := Finished], 0, [(0, 0)], false)
  {
    hide Run;
    steps := WaitingCall();
    steps := OneMore(steps, Wait(0));
    assert Run(steps) == Bus(1, [Call(true, 1, {}, Asleep)], map[(0, 0) := Running], 1, [], false);
    steps := OneMore(steps, Handle((0, 0)));
    steps := OneMore(steps, Finish((0, 0)));
    assert Run(steps) == Bus(1, [Call(true, 1, {}, Asleep)], map[(0, 0) := Finished], 0, [(0, 0)], false);
    assert IsAsleep(Run(steps), 0);
    steps := OneMore(steps, WakeAll);
    assert WokenCalls([Call(true, 1, {}, Asleep)]) == [Call(true, 1, {}, Woken)];
  }

  /** One subscriber and two publishers that overlap are enough for a crash: the second one starts
      its delivery after the first one was let go and before it runs. */
  lemma CrashHappens() returns (steps: seq<Step>)
    ensures Run(steps).crashed
  {
    hide Run;
    steps := WokenCall();
    steps := OneMore(steps, Begin(true));
    steps := OneMore(steps, Spawn(1));
    assert IsWoken(Run(steps), 0) && Run(steps).counter == 1;
    steps := OneMore(steps, Wake(0));
  }

  /** A publisher need not wait to begin: its call sees the subscribers of that moment, and has
      started no delivery yet. */
  lemma PublishingBegins(steps: seq<Step>, blocking: bool)
    requires !Run(steps).crashed
    ensures var (s, s') := (Run(steps), Run(steps + [Begin(blocking)]));
            && |s'.calls| == |s.calls| + 1 && s'.calls[..|s.calls|] == s.calls
            && var call := s'.calls[|s.calls|];
               && call.blocking == blocking && call.present == s.subscribers && call.progress == Spawning(0)
               && forall j: nat :: (|s.calls|, j) !in s'.deliveries
  {
    var longer := OneMore(steps, Begin(blocking));
    RunKeepsInv(longer);
    assert CallInv(Run(longer), |Run(steps).calls|);
    hide Run;
  }

  // ---------- Every call can return ----------

  function RunFrom(s: Bus, steps: seq<Step>): (r: Bus)
    decreases |steps|
  {
    if steps == [] then s else RunFrom(Next(s, steps[0]), steps[1..])
  }

  lemma {:induction false} RunAppend(steps: seq<Step>, more: seq<Step>)
    ensures Run(steps + more) == RunFrom(Run(steps), more)
    decreases |more|
  {
    if more == [] {
      assert steps + more == steps;
    } else {
      var longer := OneMore(steps, more[0]);
      assert longer + more[1..] == steps + more;
      RunAppend(longer, more[1..]);
    }
  }

  lemma {:induction false} RunFromAppend(s: Bus, a: seq<Step>, b: seq<Step>)
    ensures RunFrom(s, a + b) == RunFrom(RunFrom(s, a), b)
    decreases |a|
  {
    if a == [] {
      assert a + b == b;
    } else {
      assert (a + b)[0] == a[0] && (a + b)[1..] == a[1..] + b;
      RunFromAppend(Next(s, a[0]), a[1..], b);
    }
  }

  lemma RunFromOne(s: Bus, step: Step)
    ensures RunFrom(s, [step]) == Next(s, step)
  {
    assert [step][1..] == [];
  }

  /** Nobody is on the way out of `Wait`. */
  ghost predicate Calm(s: Bus) {
    !s.crashed && forall c: nat :: !LetGo(s, c)
  }

  /** All calls but one are as they were. */
  ghost predicate OthersAsTheyWere(s: Bus, s': Bus, c: nat) {
    |s'.calls| == |s.calls| && s'.subscribers == s.subscribers
    && forall a: nat | a < |s.calls| && (a != c || s.calls[a].progress.Returned?) :: s'.calls[a] == s.calls[a]
  }

  /** Every delivery that counts can come to its end. */
  lemma {:induction false} FinishAll(s: Bus) returns (more: seq<Step>)
    requires Inv(s) && !s.crashed
    ensures var s' := RunFrom(s, more);
            Inv(s') && !s'.crashed && s'.counter == 0 && s'.calls == s.calls && s'.subscribers == s.subscribers
    decreases s.counter
  {
    more := [];
    if s.counter != 0 {
      assert Unfinished(s) != {};
      var d :| d in Unfinished(s);
      hide HasWaiters, Active, IsAsleep;
      var handle := if s.deliveries[d].Running? then [Handle(d)] else [];
      var s1 := RunFrom(s, handle);
      RunFromOne(s, Handle(d));
      NextKeepsInv(s, Handle(d));
      NextKeepsInv(s1, Finish(d));
      RunFromOne(s1, Finish(d));
      var s2 := Next(s1, Finish(d));
      assert s2.counter == s.counter - 1 && s2.calls == s.calls && !s2.crashed;
      hide Inv, Next, RunFrom;
      var rest := FinishAll(s2);
      RunFromAppend(s, handle, [Finish(d)]);
      RunFromAppend(s, handle + [Finish(d)], rest);
      more := handle + [Finish(d)] + rest;
    }
  }

  /** A call can start all its deliveries. */
  lemma {:induction false} SpawnAll(s: Bus, c: nat) returns (more: seq<Step>)
    requires Inv(s) && c < |s.calls| && s.calls[c].progress.Spawning? && !s.crashed
    requires s.calls[c].blocking ==> Calm(s)
    ensures forall step <- more :: step == Spawn(c) || step == EndSpawn(c)
    ensures var s' := RunFrom(s, more);
            && Inv(s') && !s'.crashed && OthersAsTheyWere(s, s', c)
            && s'.calls[c].blocking == s.calls[c].blocking
            && (Calm(s) ==> Calm(s')) && (s.calls[c].blocking ==> s'.calls[c].progress.Waiting?)
            && (!s.calls[c].blocking ==> s'.calls[c].progress.Returned?)
    decreases s.subscribers - s.calls[c].progress.next
  {
    var next := s.calls[c].progress.next;
    var step := if next < s.subscribers then Spawn(c) else EndSpawn(c);
    var s1 := Next(s, step);
    NextKeepsInv(s, step);
    RunFromOne(s, step);
    StartIsCalm(s, c, step);
    more := [step];
    if next < s.subscribers {
      hide Inv, Next, RunFrom, Calm;
      var rest := SpawnAll(s1, c);
      RunFromAppend(s, [step], rest);
      more := [step] + rest;
    }
  }

  lemma CalmHasNoWindow(s: Bus)
    requires Calm(s)
    ensures s.counter == 0 ==> !HasWaiters(s)
  {
    assert forall a: nat | a < |s.calls| :: IsAsleep(s, a) && s.counter == 0 ==> LetGo(s, a);
  }

  lemma StartIsCalm(s: Bus, c: nat, step: Step)
    requires Inv(s) && c < |s.calls| && s.calls[c].progress.Spawning? && !s.crashed
    requires s.calls[c].blocking ==> Calm(s)
    requires step == if s.calls[c].progress.next < s.subscribers then Spawn(c) else EndSpawn(c)
    ensures var s1 := Next(s, step);
            && !s1.crashed && OthersAsTheyWere(s, s1, c) && s1.calls[c].blocking == s.calls[c].blocking
            && (Calm(s) ==> Calm(s1))
            && s1.calls[c].progress == match step
                 case Spawn(_) => Spawning(s.calls[c].progress.next + 1)
                 case _ => if s.calls[c].blocking then Waiting else Returned
  {
    var s1 := Next(s, step);
    CounterIsNatural(s);
    hide Inv;
    if Calm(s) {
      CalmHasNoWindow(s);
      forall a: nat ensures !LetGo(s1, a) {
        assert !LetGo(s, a);
      }
    }
  }

  ghost function WokenSet(s: Bus): (r: set<nat>) {
    set c: nat | c < |s.calls| && IsWoken(s, c)
  }

  /** Some more progress for calls that wait, and none for the others. */
  ghost predicate OnlyWakes(s: Bus, s': Bus) {
    |s'.calls| == |s.calls| && s'.subscribers == s.subscribers
    && forall c: nat | c < |s.calls| :: Wakes(s.calls[c], s'.calls[c])
  }

  ghost predicate Wakes(call: Call, call': Call) {
    && call'.blocking == call.blocking
    && match call.progress
       case Asleep => call'.progress.Asleep? || call'.progress.Released?
       case Woken => call'.progress.Released?
       case _ => call' == call
  }

  /** With a zero counter and no sleepers, those who were let go come to themselves one by one. */
  lemma {:induction false} WakeEach(s: Bus) returns (more: seq<Step>)
    requires Inv(s) && !s.crashed && s.counter == 0 && !HasWaiters(s)
    ensures var s' := RunFrom(s, more);
            Inv(s') && Calm(s') && OnlyWakes(s, s') && s'.counter == 0 && !HasWaiters(s')
    decreases |WokenSet(s)|
  {
    if c: nat :| IsWoken(s, c) {
      var s1 := Next(s, Wake(c));
      NextKeepsInv(s, Wake(c));
      NoNewWaiters(s, Wake(c));
      RunFromOne(s, Wake(c));
      assert WokenSet(s1) == WokenSet(s) - {c} && c in WokenSet(s);
      hide Inv, RunFrom;
      var rest := WakeEach(s1);
      RunFromAppend(s, [Wake(c)], rest);
      more := [Wake(c)] + rest;
    } else {
      more := [];
      NobodyLetGo(s);
      NobodyWakes(s);
    }
  }

  lemma NobodyWakes(s: Bus)
    requires forall c: nat :: !IsWoken(s, c)
    ensures OnlyWakes(s, s)
  {
    forall c: nat | c < |s.calls| ensures Wakes(s.calls[c], s.calls[c]) {
      assert !IsWoken(s, c);
    }
  }

  lemma NobodyLetGo(s: Bus)
    requires !s.crashed && !HasWaiters(s) && forall c: nat :: !IsWoken(s, c)
    ensures Calm(s)
  {
    forall c: nat ensures !LetGo(s, c) {
      assert IsAsleep(s, c) ==> c < |s.calls|;
    }
  }

  /** Those who sleep at a zero counter are let go and come to themselves. */
  lemma WakeSleepers(s: Bus) returns (more: seq<Step>)
    requires Inv(s) && !s.crashed && s.counter == 0 && (HasWaiters(s) ==> forall c: nat :: !IsWoken(s, c))
    ensures var s' := RunFrom(s, more);
            Inv(s') && Calm(s') && OnlyWakes(s, s') && s'.counter == 0 && !HasWaiters(s')
    ensures forall c: nat | c < |s.calls| && s.calls[c].progress.Asleep? :: RunFrom(s, more).calls[c].progress.Released?
  {
    if HasWaiters(s) {
      var s1 := Next(s, WakeAll);
      NextKeepsInv(s, WakeAll);
      WakeAllLeavesNone(s);
      RunFromOne(s, WakeAll);
      hide Inv, RunFrom;
      var rest := WakeEach(s1);
      RunFromAppend(s, [WakeAll], rest);
      more := [WakeAll] + rest;
      forall c: nat | c < |s.calls| ensures Wakes(s.calls[c], RunFrom(s, more).calls[c]) {
        assert Wakes(s1.calls[c], RunFrom(s1, rest).calls[c]);
      }
    } else {
      more := WakeEach(s);
      forall c: nat | c < |s.calls| ensures !s.calls[c].progress.Asleep? {
        assert !IsAsleep(s, c);
      }
    }
  }

  /** Where nobody is doomed, everybody on the way out of `Wait` can come out of it. */
  lemma CalmDown(s: Bus) returns (more: seq<Step>)
    requires Inv(s) && !Doomed(s)
    ensures var s' := RunFrom(s, more);
            Inv(s') && Calm(s') && OnlyWakes(s, s')
  {
    DoomedMeans(s);
    hide Doomed, Inv, RunFrom;
    if s.counter == 0 {
      more := WakeSleepers(s);
    } else {
      more := [];
      assert forall c: nat :: !LetGo(s, c);
      NobodyWakes(s);
      NothingMore(s);
    }
  }

  lemma NothingMore(s: Bus)
    ensures RunFrom(s, []) == s
  {
  }

  /** A call that has started its deliveries can return. */
  lemma ReturnWaiting(s: Bus, c: nat) returns (more: seq<Step>)
    requires Inv(s) && Calm(s) && c < |s.calls| && s.calls[c].blocking && !s.calls[c].progress.Spawning?
    ensures var s' := RunFrom(s, more);
            && Inv(s') && Calm(s') && |s'.calls| == |s.calls| && s'.calls[c].progress.Returned?
            && forall a: nat | a < |s.calls| && s.calls[a].progress.Returned? :: s'.calls[a] == s.calls[a]
  {
    hide Inv, RunFrom, Next, Calm;
    more := [];
    NothingMore(s);
    CalmMeans(s);
    assert !IsWoken(s, c);
    var s' := s;
    if s.calls[c].progress.Waiting? || s.calls[c].progress.Asleep? {
      var finish := FinishAll(s);
      var s1 := RunFrom(s, finish);
      assert forall a: nat :: IsWoken(s1, a) == IsWoken(s, a);
      var wake := WakeSleepers(s1);
      s' := RunFrom(s1, wake);
      RunFromAppend(s, finish, wake);
      more := finish + wake;
      assert Wakes(s.calls[c], s'.calls[c]);
    }
    var through := ComeThrough(s', c);
    RunFromAppend(s, more, through);
    more := more + through;
  }

  lemma CalmMeans(s: Bus)
    requires Calm(s)
    ensures !s.crashed && forall c: nat :: !IsWoken(s, c)
  {
    forall c: nat ensures !IsWoken(s, c) {
      assert !LetGo(s, c);
    }
  }

  /** The last steps: into `Wait`, which lets the call through, and out of the call. */
  lemma ComeThrough(s: Bus, c: nat) returns (more: seq<Step>)
    requires Inv(s) && Calm(s) && c < |s.calls|
    requires var p := s.calls[c].progress; p.Released? || p.Returned? || (p.Waiting? && s.counter == 0)
    ensures var s' := RunFrom(s, more);
            && Inv(s') && Calm(s') && |s'.calls| == |s.calls| && s'.calls[c].progress.Returned?
            && forall a: nat | a < |s.calls| && s.calls[a].progress.Returned? :: s'.calls[a] == s.calls[a]
  {
    more := [];
    var s1 := s;
    if s.calls[c].progress.Waiting? {
      more := [Wait(c)];
      NextKeepsInv(s, Wait(c));
      RunFromOne(s, Wait(c));
      s1 := Next(s, Wait(c));
      SameCalm(s, s1);
    }
    if s1.calls[c].progress.Released? {
      NextKeepsInv(s1, Return(c));
      RunFromOne(s1, Return(c));
      SameCalm(s1, Next(s1, Return(c)));
      RunFromAppend(s, more, [Return(c)]);
      more := more + [Return(c)];
    }
  }

  lemma SameCalm(s: Bus, s': Bus)
    requires Calm(s) && s'.crashed == s.crashed && s'.counter == s.counter
    requires forall c: nat | LetGo(s', c) :: LetGo(s, c)
    ensures Calm(s')
  {
  }

  /** In a state that is not doomed, any call can return. */
  lemma ReturnOne(s: Bus, c: nat) returns (more: seq<Step>)
    requires Inv(s) && !Doomed(s) && c < |s.calls|
    ensures var s' := RunFrom(s, more);
            && Inv(s') && !Doomed(s') && |s'.calls| == |s.calls| && s'.calls[c].progress.Returned?
            && forall a: nat | a < |s.calls| && s.calls[a].progress.Returned? :: s'.calls[a] == s.calls[a]
  {
    hide Inv, RunFrom, Next, Doomed;
    more := CalmDown(s);
    var s1 := RunFrom(s, more);
    assert forall a: nat | a < |s.calls| :: Wakes(s.calls[a], s1.calls[a]);
    if s1.calls[c].progress.Spawning? {
      CalmMeans(s1);
      var spawn := SpawnAll(s1, c);
      RunFromAppend(s, more, spawn);
      more := more + spawn;
      s1 := RunFrom(s1, spawn);
    }
    NonBlockingIs(s1, c);
    if !s1.calls[c].progress.Returned? {
      var wait := ReturnWaiting(s1, c);
      RunFromAppend(s, more, wait);
      more := more + wait;
      s1 := RunFrom(s1, wait);
    }
    CalmIsNotDoomed(s1);
  }

  lemma NonBlockingIs(s: Bus, c: nat)
    requires Inv(s) && c < |s.calls|
    ensures !s.calls[c].blocking ==> s.calls[c].progress.Spawning? || s.calls[c].progress.Returned?
  {
    assert CallInv(s, c);
  }

  lemma CalmIsNotDoomed(s: Bus)
    requires Calm(s)
    ensures !Doomed(s)
  {
    CalmMeans(s);
    DoomedMeans(s);
  }

  /** No call hangs for ever. Whatever the run has been, it can go on so that a given call
      returns, or the wait group crashes the program; and it can without a crash if no blocking
      call has started a delivery while another one was on its way out of `Wait`. */
  lemma EveryCallCanReturn(steps: seq<Step>, c: nat) returns (more: seq<Step>)
    requires c < |Run(steps).calls|
    ensures ReturnedBy(steps + more, c) || Run(steps + more).crashed
    ensures (forall n: nat :: !OvertakesAt(steps, n)) ==> !Run(steps + more).crashed
  {
    var s := Run(steps);
    RunKeepsInv(steps);
    assert steps[..|steps|] == steps;
    if Doomed(s) {
      assert DoomedAt(steps, |steps|);
      MisuseIff(steps);
      if s.crashed {
        more := [];
        assert steps + [] == steps;
      } else {
        var a: nat :| Next(s, Wake(a)).crashed;
        more := [Wake(a)];
        RunAppend(steps, more);
        RunFromOne(s, Wake(a));
      }
    } else {
      more := ReturnOne(s, c);
      RunAppend(steps, more);
    }
    hide Run, OvertakesAt;
  }

  /** A call of Publish waits for nobody: it returns after steps of its own. */
  lemma PublishReturns(steps: seq<Step>, c: nat) returns (more: seq<Step>)
    requires c < |Run(steps).calls| && !Run(steps).calls[c].blocking && !Run(steps).crashed
    ensures forall step <- more :: step == Spawn(c) || step == EndSpawn(c)
    ensures ReturnedBy(steps + more, c)
  {
    RunKeepsInv(steps);
    assert CallInv(Run(steps), c);
    if Run(steps).calls[c].progress.Spawning? {
      more := SpawnAll(Run(steps), c);
      RunAppend(steps, more);
    } else {
      more := [];
      assert steps + [] == steps;
    }
  }

  /** What a call has published when it returns reaches every subscriber of its time, once: either
      it has been handled, or handling it is the one step still to be done. */
  lemma EventReaches(steps: seq<Step>, c: nat, j: nat) returns (more: seq<Step>)
    requires ReturnedBy(steps, c) && j < Run(steps).calls[c].present && !Run(steps).crashed
    ensures more == [] || more == [Handle((c, j))]
    ensures multiset(Run(steps + more).log)[(c, j)] == 1
    ensures more != [] ==> Run(steps + more).log == Run(steps).log + [(c, j)]
  {
    RunKeepsInv(steps);
    assert CallInv(Run(steps), c) && LogInv(Run(steps), (c, j));
    assert (c, j) in Run(steps).deliveries;
    if Run(steps).deliveries[(c, j)].Running? {
      var longer := OneMore(steps, Handle((c, j)));
      more := [Handle((c, j))];
    } else {
      more := [];
      assert steps + [] == steps;
    }
  }

  lemma {:induction false} ReturnAll(s: Bus, n: nat) returns (more: seq<Step>)
    requires Inv(s) && !Doomed(s) && n <= |s.calls|
    requires forall c: nat | c < n :: s.calls[c].progress.Returned?
    ensures var s' := RunFrom(s, more);
            !Doomed(s') && forall c: nat | c < |s'.calls| :: s'.calls[c].progress.Returned?
    decreases |s.calls| - n
  {
    hide Inv, RunFrom, Doomed;
    if n == |s.calls| {
      more := [];
      NothingMore(s);
    } else {
      var first := ReturnOne(s, n);
      var rest := ReturnAll(RunFrom(s, first), n + 1);
      RunFromAppend(s, first, rest);
      more := first + rest;
    }
  }

  /** Subscribing does not hang either: if the wait group has not been misused, the run can go on
      so that all calls have returned, and then a subscriber is added. */
  lemma SubscribingIsPossible(steps: seq<Step>) returns (more: seq<Step>)
    requires forall n: nat :: !OvertakesAt(steps, n)
    ensures forall c: nat | c < |Run(steps + more).calls| :: ReturnedBy(steps + more, c)
    ensures Run(steps + more + [Subscribe]).subscribers == Run(steps + more).subscribers + 1
  {
    var s := Run(steps);
    RunKeepsInv(steps);
    MisuseIff(steps);
    assert steps[..|steps|] == steps;
    assert !DoomedAt(steps, |steps|);
    more := ReturnAll(s, 0);
    RunAppend(steps, more);
    var longer := OneMore(steps + more, Subscribe);
  }
}
