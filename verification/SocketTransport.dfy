/** The socket transport plugin: `ReceiveData` reads a connection until it ends and hands
    over datagrams, or the frames `WriteTCPMsg` finds in a TCP stream. */
module SocketTransport {
  import opened Framing
  import opened Int64
  import opened Datagrams

  /** The remote end: what it has sent and was not read yet, datagram by datagram, or in
      the segments a stream arrives in. When nothing is left, reading fails. */
  class Conn {
    var pending: seq<seq<Byte>>

    /** Reads at most buf.Length bytes. A datagram loses what does not fit, a stream keeps it. */
    method Read(t: SocketType, buf: array<Byte>) returns (n: int, ok: bool)
      modifies this, buf
      ensures ok == (old(pending) != [])
      ensures !ok ==> n == 0 && pending == []
      ensures ok ==>
                && n == Min(|old(pending)[0]|, buf.Length)
                && buf[..n] == old(pending)[0][..n]
                && pending == if t == Tcp && n < |old(pending)[0]|
                              then [old(pending)[0][n..]] + old(pending)[1..]
                              else old(pending)[1..]
    {
      n, ok := 0, pending != [];
      if ok {
        var head := pending[0];
        n := Min(|head|, buf.Length);
        forall i | 0 <= i < n { buf[i] := head[i]; }
        pending := if t == Tcp && n < |head| then [head[n..]] + pending[1..] else pending[1..];
      }
    }
  }

  /** The reads of a stream that arrives in these segments, up to the one that ends it. */
  function Reads(pending: seq<seq<Byte>>, capacity: nat): (r: seq<seq<Byte>>)
    decreases |pending|, if pending == [] then 0 else |pending[0]|
  {
    if pending == [] || capacity == 0 || pending[0] == [] then []
    else if |pending[0]| <= capacity then [pending[0]] + Reads(pending[1..], capacity)
    else [pending[0][..capacity]] + Reads([pending[0][capacity..]] + pending[1..], capacity)
  }

  /** The datagrams before the first empty one, which a reader takes for the end. */
  function NonEmptyPrefix(ds: seq<Datagram>): (r: seq<Datagram>) {
    if ds == [] || ds[0] == [] then [] else [ds[0]] + NonEmptyPrefix(ds[1..])
  }

  /** The datagrams that a reader with a buffer of the given size takes. */
  function Live(ds: seq<Datagram>, capacity: nat): (r: seq<Datagram>) {
    if capacity == 0 then [] else NonEmptyPrefix(ds)
  }

  /** A stream reader in mid-run: what it will have delivered is what the whole run delivers. */
  ghost predicate StreamState(start: seq<seq<Byte>>, pending: seq<seq<Byte>>, initial: nat, capacity: nat, o: Outcome) {
    && o.Kept? && capacity == initial
    && Size(pending) + |o.residue| <= MAX_INT64 - HEADER_SIZE
    && Resume(o, Reads(pending, initial)) == ReceiveAll(Reads(start, initial))
  }

  /** A datagram reader in mid-run. */
  ghost predicate DatagramState(start: seq<Datagram>, pending: seq<Datagram>, initial: nat, capacity: nat, max: nat,
      got: seq<Datagram>)
  {
    && (initial == 0 <==> capacity == 0)
    && Deliveries(Live(start, initial), initial, max) == got + Deliveries(Live(pending, initial), capacity, max)
  }

  lemma InitialStates(pending: seq<seq<Byte>>, initial: nat, max: nat)
    ensures Size(pending) <= MAX_INT64 - HEADER_SIZE ==> StreamState(pending, pending, initial, initial, Kept([], []))
    ensures DatagramState(pending, pending, initial, initial, max, [])
  {
    hide Live, Deliveries, Reads, ReceiveAll, Resume;
    ResumeFromStart(Reads(pending, initial));
    assert [] + Deliveries(Live(pending, initial), initial, max) == Deliveries(Live(pending, initial), initial, max);
  }

  predicate Ended(pending: seq<seq<Byte>>, capacity: nat) {
    pending == [] || pending[0] == [] || capacity == 0
  }

  lemma StreamEnds(start: seq<seq<Byte>>, pending: seq<seq<Byte>>, capacity: nat, o: Outcome)
    requires StreamState(start, pending, capacity, capacity, o) && Ended(pending, capacity)
    ensures ReceiveAll(Reads(start, capacity)) == o
  {
  }

  lemma DatagramsEnd(start: seq<Datagram>, pending: seq<Datagram>, initial: nat, capacity: nat, max: nat,
      got: seq<Datagram>)
    requires DatagramState(start, pending, initial, capacity, max, got) && Ended(pending, capacity)
    ensures Deliveries(Live(start, initial), initial, max) == got
  {
    assert got + [] == got;
  }

  /** What a read leaves pending on a stream. */
  function AfterRead(pending: seq<seq<Byte>>, n: nat): (r: seq<seq<Byte>>)
    requires pending != [] && n <= |pending[0]|
  {
    if n < |pending[0]| then [pending[0][n..]] + pending[1..] else pending[1..]
  }

  lemma ReadsStep(pending: seq<seq<Byte>>, capacity: nat)
    requires pending != [] && pending[0] != [] && capacity > 0
    ensures var n := Min(|pending[0]|, capacity);
            && Reads(pending, capacity) == [pending[0][..n]] + Reads(AfterRead(pending, n), capacity)
            && Size(AfterRead(pending, n)) + n == Size(pending)
  {
    assert pending[0][..|pending[0]|] == pending[0];
    assert ([pending[0][Min(|pending[0]|, capacity)..]] + pending[1..])[1..] == pending[1..];
  }

  /** One read of a stream, on the side of the specification. */
  lemma StreamStep(start: seq<seq<Byte>>, pending: seq<seq<Byte>>, capacity: nat, o: Outcome)
    requires StreamState(start, pending, capacity, capacity, o)
    requires pending != [] && pending[0] != [] && capacity > 0
    ensures var n := Min(|pending[0]|, capacity);
            var p := Parse(o.residue + pending[0][..n], 0);
            && |o.residue| + n <= MAX_INT64 - HEADER_SIZE
            && (p.Panicked? ==> ReceiveAll(Reads(start, capacity)) == Panicked(o.frames + p.frames))
            && (p.Kept? && |p.residue| <= |o.residue| + n ==>
                 StreamState(start, AfterRead(pending, n), capacity, capacity, Kept(o.frames + p.frames, p.residue)))
  {
    hide Parse;
    ReadsStep(pending, capacity);
    var n := Min(|pending[0]|, capacity);
    hide Reads, ReceiveAll;
    var rest := Reads(AfterRead(pending, n), capacity);
    assert ([pending[0][..n]] + rest)[1..] == rest;
    var o' := After(o.frames, Parse(o.residue + pending[0][..n], 0));
    assert Resume(o, [pending[0][..n]] + rest) == Resume(o', rest);
    assert o'.Panicked? ==> Resume(o', rest) == o';
  }

  /** The reads of a datagram socket, one datagram on. */
  lemma DatagramStep(start: seq<Datagram>, ds: seq<Datagram>, initial: nat, capacity: nat, max: nat, got: seq<Datagram>)
    requires DatagramState(start, ds, initial, capacity, max, got)
    requires ds != [] && ds[0] != [] && initial > 0
    ensures var n := Min(|ds[0]|, capacity);
            DatagramState(start, ds[1..], initial, Grown(capacity, max, n), max, got + [ds[0][..n]])
  {
    assert Live(ds, initial)[1..] == Live(ds[1..], initial);
    var n := Min(|ds[0]|, capacity);
    Assoc(got, [ds[0][..n]], Deliveries(Live(ds[1..], initial), Grown(capacity, max, n), max));
  }

  lemma {:induction false} ConcatFirst(c: seq<Byte>, chunks: seq<seq<Byte>>)
    ensures Concat([c] + chunks) == c + Concat(chunks)
  {
    if chunks == [] {
      assert [c] + chunks == [c] && [c][..0] == [];
    } else {
      var init, t := chunks[..|chunks| - 1], chunks[|chunks| - 1];
      assert ([c] + chunks)[..|chunks|] == [c] + init;
      ConcatFirst(c, init);
      Assoc(c, Concat(init), t);
    }
  }

  lemma {:induction false} ReadsConcat(pending: seq<seq<Byte>>, capacity: nat)
    requires capacity > 0 && forall c <- pending :: c != []
    ensures Concat(Reads(pending, capacity)) == Concat(pending)
    decreases Size(pending)
  {
    hide Concat;
    if pending != [] {
      assert pending[0] in pending;
      var n := Min(|pending[0]|, capacity);
      var rest := AfterRead(pending, n);
      ReadsStep(pending, capacity);
      assert forall c <- pending[1..] :: c in pending;
      ReadsConcat(rest, capacity);
      ConcatFirst(pending[0][..n], Reads(rest, capacity));
      ConcatFirst(pending[0], pending[1..]);
      assert [pending[0]] + pending[1..] == pending;
      if n < |pending[0]| {
        ConcatFirst(pending[0][n..], pending[1..]);
        Assoc(pending[0][..n], pending[0][n..], Concat(pending[1..]));
      }
      assert pending[0][..n] + pending[0][n..] == pending[0];
    }
  }

  lemma {:induction false} ReadsNonEmpty(pending: seq<seq<Byte>>, capacity: nat)
    ensures forall c <- Reads(pending, capacity) :: c != []
    decreases Size(pending)
  {
    if pending != [] && capacity > 0 && pending[0] != [] {
      ReadsStep(pending, capacity);
      ReadsNonEmpty(AfterRead(pending, Min(|pending[0]|, capacity)), capacity);
    }
  }

  /** What a TCP receiver delivers depends neither on how the network cut the stream nor on
      the size of the read buffer; messages that were sent arrive as they were sent. */
  lemma StreamReception(pending: seq<seq<Byte>>, capacity: nat, ms: seq<Frame>)
    requires capacity > 0 && forall c <- pending :: c != []
    ensures !PositionDependent(Concat(pending)) ==> ReceiveAll(Reads(pending, capacity)) == Parse(Concat(pending), 0)
    ensures Concat(pending) == Wire(ms, []) ==> ReceiveAll(Reads(pending, capacity)) == Delivered(ms)
  {
    hide Parse, ReceiveAll, Reads, Concat;
    ReadsConcat(pending, capacity);
    ReadsNonEmpty(pending, capacity);
    if !PositionDependent(Concat(pending)) {
      SplitInvariance(Reads(pending, capacity));
    }
    if Concat(pending) == Wire(ms, []) {
      RoundTrip(ms, Reads(pending, capacity));
    }
  }

  /** What a datagram receiver takes: everything up to the first empty datagram, and each one as
      far as the capacity of the moment reaches. */
  lemma DatagramReception(ds: seq<Datagram>, rest: seq<Datagram>, capacity: nat, max: nat, i: nat)
    requires capacity > 0 && (forall d <- ds :: d != []) && (rest == [] || rest[0] == []) && i < |ds|
    ensures var got := Deliveries(Live(ds + rest, capacity), capacity, max);
            && |got| == |ds|
            && got[i] == ds[i][..Min(|ds[i]|, CapacityAfter(ds[..i], capacity, max))]
  {
    LiveIs(ds, rest);
    DeliveryIsPrefix(ds, capacity, max, i);
    hide Deliveries;
  }

  lemma {:induction false} LiveIs(ds: seq<Datagram>, rest: seq<Datagram>)
    requires (forall d <- ds :: d != []) && (rest == [] || rest[0] == [])
    ensures NonEmptyPrefix(ds + rest) == ds
  {
    if ds != [] {
      assert ds[0] in ds && (ds + rest)[1..] == ds[1..] + rest;
      assert forall d <- ds[1..] :: d in ds;
      LiveIs(ds[1..], rest);
    }
  }

  lemma NoReads(pending: seq<seq<Byte>>, capacity: nat)
    requires Ended(pending, capacity)
    ensures Reads(pending, capacity) == []
  {
  }

  /** A read that brings nothing ends the stream, whatever is behind it. */
  lemma {:induction false} StreamEndsAtEmptyRead(segments: seq<seq<Byte>>, rest: seq<seq<Byte>>, capacity: nat)
    requires (forall c <- segments :: c != []) && (rest == [] || rest[0] == [])
    ensures Reads(segments + rest, capacity) == Reads(segments, capacity)
    decreases Size(segments)
  {
    hide Reads, Size;
    if segments != [] && capacity > 0 {
      assert segments[0] in segments;
      var n := Min(|segments[0]|, capacity);
      ReadsStep(segments, capacity);
      ReadsStep(segments + rest, capacity);
      assert (segments + rest)[1..] == segments[1..] + rest;
      assert AfterRead(segments + rest, n) == AfterRead(segments, n) + rest;
      assert forall c <- segments[1..] :: c in segments;
      StreamEndsAtEmptyRead(AfterRead(segments, n), rest, capacity);
    } else {
      assert segments == [] ==> segments + rest == rest;
      NoReads(segments, capacity);
      NoReads(segments + rest, capacity);
    }
  }

  /** A stream crashes its receiver only if it would do so in one piece, and always if the frame
      of its first negative header does not end in front of that header. */
  lemma StreamCrash(pending: seq<seq<Byte>>, capacity: nat)
    requires capacity > 0 && forall c <- pending :: c != []
    ensures var s := Concat(pending);
            && (ReceiveAll(Reads(pending, capacity)).Panicked? ==> Crashing(s, 0))
            && (FirstNegative(s).At? && FirstNegative(s).length >= -HEADER_SIZE ==>
                  ReceiveAll(Reads(pending, capacity)).Panicked?)
  {
    hide Parse, ReceiveAll, Reads, Concat, FirstNegative;
    ReadsConcat(pending, capacity);
    ReadsNonEmpty(pending, capacity);
    assert IsSplitOf(Reads(pending, capacity), Concat(pending));
    SomeSplitCrashesIff(Concat(pending));
    EverySplitCrashesIff(Concat(pending));
  }

  lemma SliceOfPrefix(a: array<Byte>, n: nat, from: nat, to: nat)
    requires from <= to <= n <= a.Length
    ensures a[..n][from..to] == a[from..to]
  {
  }

  datatype ParseResult = Parsed(pos: int) | SeekFailed(pos: int) | ReadFailed(pos: int) | SliceOutOfRange

  class Socket {
    const socketType: SocketType
    var delivered: seq<Frame>   // the arguments of the calls of the write function
    var msgCount: int
    var done: bool              // a value was sent on the done channel

    constructor (t: SocketType)
      ensures socketType == t && delivered == [] && msgCount == 0 && !done
    {
      socketType, delivered, msgCount, done := t, [], 0, false;
    }

    /** Seek to pos and read an int64; the two library calls fail as bytes.Reader does. */
    static function SeekAndRead(buf: seq<Byte>, pos: int): (r: ParseResult)
      ensures r.Parsed? <==> 0 <= pos <= |buf| - HEADER_SIZE
    {
      if pos < 0 then SeekFailed(pos)
      else if pos + HEADER_SIZE > |buf| then ReadFailed(pos)
      else Parsed(DecodeLength(buf[pos..pos + HEADER_SIZE]))
    }

    method Write(m: Frame)
      modifies this`delivered, this`msgCount
      ensures delivered == old(delivered) + [m] && msgCount == old(msgCount) + 1
    {
      delivered := delivered + [m];
      msgCount := msgCount + 1;
    }

    /** Cuts the frames out of msgBuffer[..n], computing in int64. The buffer fits in memory,
        which is far below the largest int64. */
    method WriteTCPMsg(msgBuffer: array<Byte>, n: int) returns (r: ParseResult)
      requires 0 <= n <= msgBuffer.Length && n <= MAX_INT64 - HEADER_SIZE
      modifies this`delivered, this`msgCount
      ensures var o := Parse(msgBuffer[..n], 0);
              && delivered == old(delivered) + o.frames
              && msgCount == old(msgCount) + |o.frames|
              && (o.Kept? ==> r == Parsed(n - |o.residue|))
              && (o.Kept? ==> |o.residue| <= n && o.residue == msgBuffer[n - |o.residue|..n])
              && (o.Panicked? ==> r == SliceOutOfRange)
    {
      hide Parse, After, DecodeLength, Wrap64;
      var pos := 0;
      ghost var buf, fs: seq<Frame> := msgBuffer[..n], [];
      AfterNothing(Parse(buf, 0));
      assert buf[0..] == buf;
      while Wrap64(pos + HEADER_SIZE) < n
        invariant 0 <= pos <= n
        invariant delivered == old(delivered) + fs && msgCount == old(msgCount) + |fs|
        invariant Parse(buf, 0) == After(fs, Parse(buf[pos..], pos))
        decreases n - pos
      {
        ParseStep(buf[pos..], pos);
        AfterParts(fs, Parse(buf[pos..], pos));
        var header := SeekAndRead(msgBuffer[..n], pos);
        if !header.Parsed? {
          return header;
        }
        var length := header.pos;
        SliceOfRest(buf, pos, 0, HEADER_SIZE);
        WrappedGuard(pos, length, n);
        var end := Wrap64(Wrap64(pos + HEADER_SIZE) + length);
        if end > n || end < 0 {
          break;
        }
        if end < pos + HEADER_SIZE {
          return SliceOutOfRange;
        }
        Write(msgBuffer[pos + HEADER_SIZE..end]);
        SliceOfRest(buf, pos, HEADER_SIZE, HEADER_SIZE + length);
        SliceOfPrefix(msgBuffer, n, pos + HEADER_SIZE, end);
        AfterAssoc(fs, [msgBuffer[pos + HEADER_SIZE..end]], Parse(buf[end..], end));
        fs := fs + [msgBuffer[pos + HEADER_SIZE..end]];
        pos := end;
      }
      ParseStep(buf[pos..], pos);
      AfterParts(fs, Parse(buf[pos..], pos));
      return Parsed(pos);
    }

    /** The residue of earlier reads with the new bytes behind it; without a residue the
        read buffer itself. */
    static method Combine(remainingMsg: array<Byte>, msgBuffer: array<Byte>, n: int) returns (data: array<Byte>)
      requires 0 <= n <= msgBuffer.Length
      ensures data.Length >= remainingMsg.Length + n
      ensures data[..remainingMsg.Length + n] == remainingMsg[..] + msgBuffer[..n]
      ensures data == msgBuffer || fresh(data)
    {
      data := msgBuffer;
      if remainingMsg.Length > 0 {
        data := new Byte[remainingMsg.Length + n];
        forall i | 0 <= i < remainingMsg.Length { data[i] := remainingMsg[i]; }
        forall i | 0 <= i < n { data[remainingMsg.Length + i] := msgBuffer[i]; }
      }
    }

    /** The bytes data[from..to] in a slice of their own. */
    static method CopyOf(data: array<Byte>, from: int, to: int) returns (copy: array<Byte>)
      requires 0 <= from <= to <= data.Length
      ensures fresh(copy) && copy[..] == data[from..to]
    {
      copy := new Byte[to - from];
      forall i | 0 <= i < copy.Length { copy[i] := data[from + i]; }
    }

    /** The frames of a stream buffer are delivered, and what follows them is kept. */
    method ParseStream(data: array<Byte>, totalSize: int) returns (remainingMsg: array<Byte>, panicked: bool)
      requires 0 <= totalSize <= data.Length && totalSize <= MAX_INT64 - HEADER_SIZE
      modifies this`delivered, this`msgCount
      ensures fresh(remainingMsg)
      ensures var o := Parse(data[..totalSize], 0);
              && delivered == old(delivered) + o.frames
              && msgCount == old(msgCount) + |o.frames|
              && panicked == o.Panicked?
              && (o.Kept? ==> remainingMsg[..] == o.residue && |o.residue| <= totalSize)
    {
      hide Parse;
      var r := WriteTCPMsg(data, totalSize);
      panicked := !r.Parsed?;
      remainingMsg := CopyOf(data, if panicked then totalSize else r.pos, totalSize);
    }

    /** A read that filled the buffer of a datagram socket makes it grow, up to the limit. */
    static method GrowBuffer(currentBuffSize: nat, maxBuffSize: nat, n: nat) returns (newSize: nat)
      ensures newSize == Grown(currentBuffSize, maxBuffSize, n)
    {
      newSize := currentBuffSize;
      if n == currentBuffSize && currentBuffSize < maxBuffSize {
        newSize := currentBuffSize * 2;
        if newSize > maxBuffSize {
          newSize := maxBuffSize;
        }
      }
    }

    /** Hands over what a read and the residue of earlier ones have brought: the frames of a
        stream, or one datagram. */
    method Deliver(data: array<Byte>, totalSize: int) returns (remainingMsg: array<Byte>, panicked: bool)
      requires 0 <= totalSize <= data.Length && totalSize <= MAX_INT64
      requires socketType == Tcp ==> totalSize <= MAX_INT64 - HEADER_SIZE
      modifies this`delivered, this`msgCount
      ensures fresh(remainingMsg)
      ensures socketType == Tcp ==>
                var o := Parse(data[..totalSize], 0);
                && delivered == old(delivered) + o.frames
                && msgCount == old(msgCount) + |o.frames|
                && panicked == o.Panicked?
                && (o.Kept? ==> remainingMsg[..] == o.residue && |o.residue| <= totalSize)
      ensures socketType != Tcp ==>
                && delivered == old(delivered) + [data[..totalSize]]
                && msgCount == old(msgCount) + 1
                && !panicked && remainingMsg.Length == 0
    {
      hide Parse;
      if socketType == Tcp {
        remainingMsg, panicked := ParseStream(data, totalSize);
      } else {
        Write(data[..totalSize]);
        remainingMsg, panicked := new Byte[0], false;
      }
    }

    /** Reads the connection until a read fails or returns nothing. A crash of the TCP parser
        ends the program; `panicked` reports it. */
    method ReceiveData(initialBuffSize: int, pc: Conn) returns (panicked: bool)
      requires 0 <= initialBuffSize <= MAX_INT64
      requires socketType == Tcp ==> Size(pc.pending) <= MAX_INT64 - HEADER_SIZE
      modifies this, pc
      ensures socketType == Tcp ==>
                var o := ReceiveAll(Reads(old(pc.pending), initialBuffSize));
                && panicked == o.Panicked?
                && delivered == old(delivered) + o.frames
                && msgCount == old(msgCount) + |o.frames|
                && done == old(done)
      ensures socketType != Tcp ==>
                var got := Deliveries(Live(old(pc.pending), initialBuffSize), initialBuffSize,
                    MaxBufferSize(socketType));
                && !panicked && done
                && delivered == old(delivered) + got
                && msgCount == old(msgCount) + |got|
    {
      hide Parse, After, Reads, Resume, ReceiveAll, Size, Live, Deliveries, StreamState, DatagramState;
      var currentBuffSize := initialBuffSize;
      var maxBuffSize := MaxBufferSize(socketType);
      var msgBuffer := new Byte[currentBuffSize];
      var remainingMsg := new Byte[0];
      ghost var got: seq<Frame> := [];
      ghost var pending := pc.pending;
      panicked := false;
      InitialStates(pending, initialBuffSize, maxBuffSize);
      assert remainingMsg[..] == [];
      while true
        invariant fresh(msgBuffer) && fresh(remainingMsg) && msgBuffer != remainingMsg
        invariant msgBuffer.Length == currentBuffSize <= MAX_INT64
        invariant !panicked && done == old(done)
        invariant delivered == old(delivered) + got && msgCount == old(msgCount) + |got|
        invariant socketType == Tcp ==> currentBuffSize == initialBuffSize
        invariant socketType != Tcp ==> (initialBuffSize == 0 <==> currentBuffSize == 0)
        invariant socketType == Tcp ==> StreamState(pending, pc.pending, initialBuffSize, currentBuffSize,
            Kept(got, remainingMsg[..]))
        invariant socketType != Tcp ==>
                    && remainingMsg.Length == 0
                    && DatagramState(pending, pc.pending, initialBuffSize, currentBuffSize, maxBuffSize, got)
        decreases |pc.pending|, if pc.pending == [] then 0 else |pc.pending[0]|
      {
        ghost var before, residue, capacity := pc.pending, remainingMsg[..], currentBuffSize;
        var n, ok := pc.Read(socketType, msgBuffer);
        if !ok || n < 1 {
          if socketType != Tcp {
            DatagramsEnd(pending, before, initialBuffSize, capacity, maxBuffSize, got);
            done := true;
          } else {
            StreamEnds(pending, before, initialBuffSize, Kept(got, residue));
          }
          return;
        }
        ghost var chunk := before[0][..n];
        var data := Combine(remainingMsg, msgBuffer, n);
        var totalSize := remainingMsg.Length + n;
        assert data[..totalSize] == residue + chunk;
        if n == currentBuffSize && socketType != Tcp {
          currentBuffSize := GrowBuffer(currentBuffSize, maxBuffSize, n);
          msgBuffer := new Byte[currentBuffSize];
        }
        if socketType == Tcp {
          StreamStep(pending, before, initialBuffSize, Kept(got, residue));
        } else {
          DatagramStep(pending, before, initialBuffSize, capacity, maxBuffSize, got);
          assert residue + chunk == chunk;
        }
        remainingMsg, panicked := Deliver(data, totalSize);
        ghost var taken := if socketType == Tcp then Parse(residue + chunk, 0).frames else [chunk];
        Assoc(old(delivered), got, taken);
        got := got + taken;
        if panicked {
          return;
        }
      }
    }
  }
}
