/** Many TCP connections at once: each runs its own receive loop, one iteration of the frame
    loop at a time, and the mutex makes each delivery with its count a single step. */
module Connections {
  import opened Framing

  /** One connection: the reads it has seen, the bytes of its buffer from position pos on,
      and whether its frame loop is running (otherwise it waits in a read). */
  datatype Connection = Connection(received: seq<seq<Byte>>, rest: seq<Byte>, pos: nat, scanning: bool, open: bool)

  /** All connections and what they share: the delivery log, tagged with the connection,
      and the message counter. */
  datatype Server = Server(conns: map<nat, Connection>, log: seq<(nat, Frame)>, msgCount: nat, crashed: bool)

  datatype Step = Accept(c: nat) | Read(c: nat, chunk: seq<Byte>) | Iterate(c: nat) | Close(c: nat)

  const START := Server(map[], [], 0, false)

  predicate Enabled(s: Server, step: Step) {
    !s.crashed &&
    match step
    case Accept(c) => c !in s.conns
    case Read(c, chunk) => c in s.conns && s.conns[c].open && !s.conns[c].scanning && chunk != []
    case Iterate(c) => c in s.conns && s.conns[c].scanning
    case Close(c) => c in s.conns && !s.conns[c].scanning
  }

  /** A step; one that is not possible changes nothing. */
  function Next(s: Server, step: Step): (r: Server) {
    if !Enabled(s, step) then s
    else
      match step
      case Accept(c) => s.(conns := s.conns[c := Connection([], [], 0, false, true)])
      case Read(c, chunk) =>
        var conn := s.conns[c];
        var received, rest := conn.received + [chunk], conn.rest + chunk;
        s.(conns := s.conns[c := conn.(received := received, rest := rest, pos := 0, scanning := true)])
      case Iterate(c) =>
        var conn := s.conns[c];
        if Stops(conn.rest, conn.pos) then
          s.(conns := s.conns[c := conn.(scanning := false)])
        else if HeaderOf(conn.rest) < 0 then
          s.(crashed := true)
        else
          var end := HEADER_SIZE + HeaderOf(conn.rest);
          Server(
            s.conns[c := conn.(rest := conn.rest[end..], pos := conn.pos + end)],
            s.log + [(c, conn.rest[HEADER_SIZE..end])],
            s.msgCount + 1,
            false)
      case Close(c) => s.(conns := s.conns[c := s.conns[c].(open := false)])
  }

  function Run(steps: seq<Step>): (r: Server) {
    if steps == [] then START else Next(Run(steps[..|steps| - 1]), steps[|steps| - 1])
  }

  /** The part of the log that belongs to one connection. */
  function LogOf(log: seq<(nat, Frame)>, c: nat): (r: seq<Frame>) {
    if log == [] then []
    else
      var last := log[|log| - 1];
      LogOf(log[..|log| - 1], c) + (if last.0 == c then [last.1] else [])
  }

  /** What the connection's frame loop has still to do with its buffer. */
  function ToCome(conn: Connection): (r: Outcome) {
    if conn.scanning then Parse(conn.rest, conn.pos) else Kept([], conn.rest)
  }

  ghost predicate Tracks(s: Server, c: nat)
    requires c in s.conns
  {
    After(LogOf(s.log, c), ToCome(s.conns[c])) == ReceiveAll(s.conns[c].received)
  }

  ghost predicate Inv(s: Server) {
    && s.msgCount == |s.log|
    && (forall c | c in s.conns :: Tracks(s, c))
    && (forall c | c !in s.conns :: LogOf(s.log, c) == [])
    && (s.crashed ==> exists c | c in s.conns :: ReceiveAll(s.conns[c].received).Panicked?)
  }

  lemma LogOfSnoc(log: seq<(nat, Frame)>, entry: (nat, Frame), c: nat)
    ensures LogOf(log + [entry], c) == if entry.0 == c then LogOf(log, c) + [entry.1] else LogOf(log, c)
  {
    assert (log + [entry])[..|log|] == log;
  }

  lemma ReadKeepsTrack(s: Server, c: nat, chunk: seq<Byte>)
    requires Inv(s) && Enabled(s, Read(c, chunk))
    ensures Tracks(Next(s, Read(c, chunk)), c)
  {
    var conn := s.conns[c];
    hide Parse, LogOf;
    assert (conn.received + [chunk])[..|conn.received|] == conn.received;
    assert LogOf(s.log, c) + [] == LogOf(s.log, c);
  }

  lemma OneIteration(log: seq<(nat, Frame)>, c: nat, rest: seq<Byte>, pos: nat)
    ensures var o := After(LogOf(log, c), Parse(rest, pos));
            && (Stops(rest, pos) ==> o == After(LogOf(log, c), Kept([], rest)))
            && (!Stops(rest, pos) && HeaderOf(rest) < 0 ==> o.Panicked?)
            && (!Stops(rest, pos) && HeaderOf(rest) >= 0 ==>
                  var end := HEADER_SIZE + HeaderOf(rest);
                  o == After(LogOf(log + [(c, rest[HEADER_SIZE..end])], c), Parse(rest[end..], pos + end)))
  {
    ParseStep(rest, pos);
    AfterParts(LogOf(log, c), Parse(rest, pos));
    hide Parse, After, DecodeLength;
    if !Stops(rest, pos) && HeaderOf(rest) >= 0 {
      var end := HEADER_SIZE + HeaderOf(rest);
      LogOfSnoc(log, (c, rest[HEADER_SIZE..end]), c);
      AfterAssoc(LogOf(log, c), [rest[HEADER_SIZE..end]], Parse(rest[end..], pos + end));
    }
  }

  lemma IterateKeepsTrack(s: Server, c: nat)
    requires Inv(s) && Enabled(s, Iterate(c))
    ensures Tracks(Next(s, Iterate(c)), c)
    ensures Next(s, Iterate(c)).crashed ==> ReceiveAll(s.conns[c].received).Panicked?
  {
    hide Parse, After, DecodeLength, ReceiveAll, LogOf;
    assert Tracks(s, c);
    OneIteration(s.log, c, s.conns[c].rest, s.conns[c].pos);
  }

  /** A step leaves the other connections and their part of the log alone. */
  lemma OthersUntouched(s: Server, step: Step, c: nat)
    requires c != step.c
    ensures var s' := Next(s, step);
            && (c in s.conns <==> c in s'.conns)
            && (c in s.conns ==> s'.conns[c] == s.conns[c])
            && LogOf(s'.log, c) == LogOf(s.log, c)
  {
    hide LogOf, DecodeLength;
    var s' := Next(s, step);
    if s'.log != s.log {
      LogOfSnoc(s.log, s'.log[|s.log|], c);
    }
  }

  lemma OwnStep(s: Server, step: Step)
    requires Inv(s) && Enabled(s, step)
    ensures step.c in Next(s, step).conns && Tracks(Next(s, step), step.c)
    ensures Next(s, step).crashed ==> ReceiveAll(Next(s, step).conns[step.c].received).Panicked?
  {
    match step
    case Accept(c) =>
      assert LogOf(s.log, c) == [];
    case Read(c, chunk) =>
      ReadKeepsTrack(s, c, chunk);
    case Iterate(c) =>
      IterateKeepsTrack(s, c);
    case Close(c) =>
      assert Tracks(s, c);
  }

  lemma NextCounts(s: Server, step: Step)
    ensures !Enabled(s, step) ==> Next(s, step) == s
    ensures s.msgCount == |s.log| ==> Next(s, step).msgCount == |Next(s, step).log|
  {
    hide Enabled, Stops, HeaderOf;
  }

  lemma NextKeepsInv(s: Server, step: Step)
    requires Inv(s)
    ensures Inv(Next(s, step))
  {
    hide Next, Enabled, LogOf, ReceiveAll, ToCome, After, Parse;
    var s' := Next(s, step);
    NextCounts(s, step);
    if Enabled(s, step) {
      OwnStep(s, step);
      forall c ensures c in s'.conns ==> Tracks(s', c)
               ensures c !in s'.conns ==> LogOf(s'.log, c) == []
      {
        if c != step.c {
          OthersUntouched(s, step, c);
          assert c in s.conns ==> Tracks(s, c);
        }
      }
    }
  }

  lemma {:induction false} RunKeepsInv(steps: seq<Step>)
    ensures Inv(Run(steps))
  {
    if steps != [] {
      RunKeepsInv(steps[..|steps| - 1]);
      NextKeepsInv(Run(steps[..|steps| - 1]), steps[|steps| - 1]);
    }
  }

  /** In every interleaving the counter is the number of deliveries, and the log of one
      connection is a prefix of the frames its own stream parses to, all of them in order as
      soon as its loop waits for the next read. A crash has a stream that causes it. */
  lemma LogPerConnection(steps: seq<Step>, c: nat)
    ensures var s := Run(steps);
            && s.msgCount == |s.log|
            && (c in s.conns ==> LogOf(s.log, c) <= ReceiveAll(s.conns[c].received).frames)
            && (c in s.conns && !s.conns[c].scanning ==>
                  ReceiveAll(s.conns[c].received) == Kept(LogOf(s.log, c), s.conns[c].rest))
            && (s.crashed ==> exists d | d in s.conns :: ReceiveAll(s.conns[d].received).Panicked?)
  {
    RunKeepsInv(steps);
    var s := Run(steps);
    if c in s.conns {
      assert Tracks(s, c);
      AfterParts(LogOf(s.log, c), ToCome(s.conns[c]));
      assert LogOf(s.log, c) + [] == LogOf(s.log, c);
    }
  }

  /** The server crashes only because of a connection whose bytes so far have a negative header
      with a frame that ends inside them. */
  lemma CrashNeedsNegative(steps: seq<Step>)
    requires Run(steps).crashed
    ensures exists c | c in Run(steps).conns :: Crashing(Concat(Run(steps).conns[c].received), 0)
  {
    RunKeepsInv(steps);
    var s := Run(steps);
    var c :| c in s.conns && ReceiveAll(s.conns[c].received).Panicked?;
    ReceivedNonEmpty(steps, c);
    hide Run, ReceiveAll, Crashing;
    assert IsSplitOf(s.conns[c].received, Concat(s.conns[c].received));
    SomeSplitCrashesIff(Concat(s.conns[c].received));
  }

  lemma {:induction false} ReceivedNonEmpty(steps: seq<Step>, c: nat)
    requires c in Run(steps).conns
    ensures forall chunk <- Run(steps).conns[c].received :: chunk != []
  {
    if steps != [] {
      var init := steps[..|steps| - 1];
      if c in Run(init).conns {
        ReceivedNonEmpty(init, c);
      }
    }
  }

  /** Whatever the other connections do, messages sent over one arrive in its log as sent. */
  lemma MessagesPerConnection(steps: seq<Step>, c: nat, ms: seq<Frame>)
    requires c in Run(steps).conns && !Run(steps).conns[c].scanning
    requires IsSplitOf(Run(steps).conns[c].received, Wire(ms, []))
    ensures LogOf(Run(steps).log, c) == Delivered(ms).frames
  {
    LogPerConnection(steps, c);
    RoundTrip(ms, Run(steps).conns[c].received);
  }

  lemma RunOneMore(steps: seq<Step>, step: Step)
    ensures Run(steps + [step]) == Next(Run(steps), step)
  {
    assert (steps + [step])[..|steps|] == steps;
  }

  /** A connection that is new is accepted, open and empty, and the others stay as they are. */
  lemma AcceptOpens(steps: seq<Step>, c: nat)
    requires !Run(steps).crashed && c !in Run(steps).conns
    ensures var s' := Run(steps + [Accept(c)]);
            && s'.conns == Run(steps).conns[c := Connection([], [], 0, false, true)]
            && s'.log == Run(steps).log && !s'.crashed
  {
    RunOneMore(steps, Accept(c));
  }

  /** The frame loop of a connection comes to its end, in steps of its own. */
  lemma {:induction false} ScanEnds(steps: seq<Step>, c: nat) returns (more: seq<Step>)
    requires c in Run(steps).conns && !Run(steps).crashed
    ensures forall step <- more :: step == Iterate(c)
    ensures var s' := Run(steps + more);
            && c in s'.conns && s'.conns[c].received == Run(steps).conns[c].received
            && (s'.crashed || (!s'.conns[c].scanning && s'.conns[c].open == Run(steps).conns[c].open))
    decreases |Run(steps).conns[c].rest|, Run(steps).conns[c].scanning
  {
    more := [];
    assert steps + [] == steps;
    if Run(steps).conns[c].scanning {
      RunOneMore(steps, Iterate(c));
      hide Run, HeaderOf;
      more := [Iterate(c)];
      var s' := Run(steps + more);
      if !s'.crashed && s'.conns[c].scanning {
        var rest := ScanEnds(steps + more, c);
        assert steps + more + rest == steps + (more + rest);
        more := more + rest;
      }
    }
  }

  /** What comes over a connection is taken in and parsed to the end: a read of an open connection
      that waits for one, and then its frame loop, leave exactly the frames of all its reads in
      its log and their residue for the next read, unless the parser crashes on them. */
  lemma ReadIsParsed(steps: seq<Step>, c: nat, chunk: seq<Byte>) returns (more: seq<Step>)
    requires !Run(steps).crashed && c in Run(steps).conns && chunk != []
    requires Run(steps).conns[c].open && !Run(steps).conns[c].scanning
    ensures forall step <- more :: step == Iterate(c)
    ensures var s' := Run(steps + [Read(c, chunk)] + more);
            && c in s'.conns && s'.conns[c].received == Run(steps).conns[c].received + [chunk]
            && (s'.crashed || ReceiveAll(s'.conns[c].received) == Kept(LogOf(s'.log, c), s'.conns[c].rest))
            && (!s'.crashed ==> s'.conns[c].open && !s'.conns[c].scanning)
  {
    RunOneMore(steps, Read(c, chunk));
    hide Run, ReceiveAll, LogOf;
    more := ScanEnds(steps + [Read(c, chunk)], c);
    LogPerConnection(steps + [Read(c, chunk)] + more, c);
  }

  /** A connection can be closed whenever its frame loop is not running. */
  lemma CloseEnds(steps: seq<Step>, c: nat)
    requires !Run(steps).crashed && c in Run(steps).conns && !Run(steps).conns[c].scanning
    ensures var (s, s') := (Run(steps), Run(steps + [Close(c)]));
            && c in s'.conns && s'.conns[c] == s.conns[c].(open := false)
            && s'.log == s.log && (forall d | d in s.conns && d != c :: d in s'.conns && s'.conns[d] == s.conns[d])
  {
    RunOneMore(steps, Close(c));
    hide Run;
  }

  predicate Closed(s: Server, c: nat) {
    c in s.conns && !s.conns[c].open && !s.conns[c].scanning
  }

  lemma ClosedStep(s: Server, step: Step, c: nat)
    requires Closed(s, c)
    ensures var s' := Next(s, step);
            c in s'.conns && s'.conns[c] == s.conns[c] && LogOf(s'.log, c) == LogOf(s.log, c)
  {
    hide HeaderOf, Stops, LogOf;
    if step.c != c {
      OthersUntouched(s, step, c);
    }
  }

  /** After that nothing more is read from it or delivered for it. */
  lemma {:induction false} ClosedForGood(steps: seq<Step>, more: seq<Step>, c: nat)
    requires Closed(Run(steps), c)
    ensures var (s, s') := (Run(steps), Run(steps + more));
            c in s'.conns && s'.conns[c] == s.conns[c] && LogOf(s'.log, c) == LogOf(s.log, c)
    decreases |more|
  {
    hide Next, LogOf;
    if more == [] {
      assert steps + more == steps;
    } else {
      var init, step := more[..|more| - 1], more[|more| - 1];
      ClosedForGood(steps, init, c);
      RunOneMore(steps + init, step);
      assert steps + more == steps + init + [step];
      ClosedStep(Run(steps + init), step, c);
    }
  }
}
