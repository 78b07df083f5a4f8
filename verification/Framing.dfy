/** The byte framing of the TCP socket transport: every message travels behind an
    8-byte little-endian length. `Parse` is one pass over a buffer, `ReceiveAll` is a
    connection that reads a stream in pieces and carries the unparsed tail forward. */
module Framing {
  import opened Int64

  type Byte = x: int | 0 <= x < 256

  const HEADER_SIZE := 8
  /** A message: no Go slice is longer than an int64 can count. */
  type Frame = m: seq<Byte> | |m| <= MAX_INT64

  // ---------- The length header ----------

  /** Four bytes as an unsigned number, least significant byte first. */
  function Word(b: seq<Byte>): (u: nat)
    requires |b| == 4
    ensures u < 0x1_0000_0000
  {
    b[0] as int + 0x100 * b[1] as int + 0x1_0000 * b[2] as int + 0x100_0000 * b[3] as int
  }

  function WordBytes(u: nat): (b: seq<Byte>)
    requires u < 0x1_0000_0000
    ensures |b| == 4
  {
    [u % 0x100, u / 0x100 % 0x100, u / 0x1_0000 % 0x100, u / 0x100_0000]
  }

  function Unsigned(b: seq<Byte>): (u: nat)
    requires |b| == HEADER_SIZE
    ensures u < TWO_TO_64
  {
    Word(b[..4]) + 0x1_0000_0000 * Word(b[4..])
  }

  function UnsignedBytes(u: nat): (b: seq<Byte>)
    requires u < TWO_TO_64
    ensures |b| == HEADER_SIZE
  {
    WordBytes(u % 0x1_0000_0000) + WordBytes(u / 0x1_0000_0000)
  }

  /** What `binary.Read` of an int64 makes of 8 bytes. */
  function DecodeLength(b: seq<Byte>): (len: int)
    requires |b| == HEADER_SIZE
    ensures MIN_INT64 <= len <= MAX_INT64
  {
    Wrap64(Unsigned(b))
  }

  /** The two's complement of an int64 as 8 bytes. */
  function EncodeLength(len: int): (b: seq<Byte>)
    ensures |b| == HEADER_SIZE
  {
    UnsignedBytes(len % TWO_TO_64)
  }

  lemma Quarters(b0: nat, b1: nat, b2: nat, b3: nat)
    requires b0 < 0x100 && b1 < 0x100 && b2 < 0x100 && b3 < 0x100
    ensures var u := b0 + 0x100 * b1 + 0x1_0000 * b2 + 0x100_0000 * b3;
            u % 0x100 == b0 && u / 0x100 % 0x100 == b1 && u / 0x1_0000 % 0x100 == b2 && u / 0x100_0000 == b3
  {
    var u := b0 + 0x100 * b1 + 0x1_0000 * b2 + 0x100_0000 * b3;
    assert u / 0x100 == b1 + 0x100 * b2 + 0x1_0000 * b3;
    assert u / 0x1_0000 == b2 + 0x100 * b3;
  }

  lemma WordBijection(u: nat, b: seq<Byte>)
    requires u < 0x1_0000_0000 && |b| == 4
    ensures Word(WordBytes(u)) == u
    ensures WordBytes(Word(b)) == b
  {
    assert u / 0x100 == 0x100 * (u / 0x1_0000) + u / 0x100 % 0x100;
    assert u / 0x1_0000 == 0x100 * (u / 0x100_0000) + u / 0x1_0000 % 0x100;
    Quarters(b[0], b[1], b[2], b[3]);
  }

  lemma WrapInverse(x: int, u: nat)
    requires MIN_INT64 <= x <= MAX_INT64 && u < TWO_TO_64
    ensures Wrap64(x % TWO_TO_64) == x && Wrap64(u) % TWO_TO_64 == u
  {
  }

  lemma Halves(low: nat, high: nat)
    requires low < 0x1_0000_0000 && high < 0x1_0000_0000
    ensures var u := low + 0x1_0000_0000 * high;
            u % 0x1_0000_0000 == low && u / 0x1_0000_0000 == high
  {
  }

  lemma UnsignedBijection(u: nat, b: seq<Byte>)
    requires u < TWO_TO_64 && |b| == HEADER_SIZE
    ensures Unsigned(UnsignedBytes(u)) == u
    ensures UnsignedBytes(Unsigned(b)) == b
  {
    var low, high := u % 0x1_0000_0000, u / 0x1_0000_0000;
    WordBijection(low, b[..4]);
    WordBijection(high, b[4..]);
    Halves(Word(b[..4]), Word(b[4..]));
    hide Word, WordBytes;
    var w, w' := WordBytes(low), WordBytes(high);
    assert (w + w')[..4] == w && (w + w')[4..] == w';
    assert b[..4] + b[4..] == b;
  }

  /** Encoding and decoding a length are inverse to each other on all int64 values and all headers. */
  lemma HeaderBijection(len: int, b: seq<Byte>)
    requires MIN_INT64 <= len <= MAX_INT64 && |b| == HEADER_SIZE
    ensures DecodeLength(EncodeLength(len)) == len
    ensures EncodeLength(DecodeLength(b)) == b
  {
    UnsignedBijection(len % TWO_TO_64, b);
    WrapInverse(len, Unsigned(b));
    hide Unsigned, UnsignedBytes, Wrap64;
  }

  function Pow256(k: nat): (r: nat)
    ensures r > 0
  {
    if k == 0 then 1 else 256 * Pow256(k - 1)
  }

  /** The digits of a word, least significant first. */
  lemma WordDigits(u: nat)
    requires u < 0x1_0000_0000
    ensures WordBytes(u) == [u % 256, u / 256 % 256, u / 65536 % 256, u / 16777216 % 256]
  {
  }

  lemma SmallPowers()
    ensures Pow256(0) == 1 && Pow256(1) == 256 && Pow256(2) == 65536 && Pow256(3) == 16777216
    ensures Pow256(4) == 0x1_0000_0000 && Pow256(5) == 0x100_0000_0000 && Pow256(6) == 0x1_0000_0000_0000
    ensures Pow256(7) == 0x100_0000_0000_0000
  {
    assert Pow256(3) == 256 * Pow256(2) && Pow256(4) == 256 * Pow256(3) && Pow256(5) == 256 * Pow256(4);
    assert Pow256(6) == 256 * Pow256(5) && Pow256(7) == 256 * Pow256(6);
  }

  lemma HalfDigits(u: nat)
    requires u < TWO_TO_64
    ensures var low := u % 0x1_0000_0000;
            && low / 256 % 256 == u / 256 % 256 && low / 65536 % 256 == u / 65536 % 256
            && low % 256 == u % 256 && low / 16777216 % 256 == u / 16777216 % 256
    ensures var high := u / 0x1_0000_0000;
            && high / 256 == u / 0x100_0000_0000 && high / 65536 == u / 0x1_0000_0000_0000
            && high / 16777216 == u / 0x100_0000_0000_0000
  {
    var low, high := u % 0x1_0000_0000, u / 0x1_0000_0000;
    assert u == 0x1_0000_0000 * high + low;
    assert u / 256 == 0x100_0000 * high + low / 256;
    assert u / 65536 == 0x1_0000 * high + low / 65536;
    assert u / 16777216 == 0x100 * high + low / 16777216;
  }

  /** The byte order: byte k of a header is digit k of the length modulo 2^64 in base 256. */
  lemma HeaderDigits(len: int, k: nat)
    requires MIN_INT64 <= len <= MAX_INT64 && k < 8
    ensures EncodeLength(len)[k] == len % 0x1_0000_0000_0000_0000 / Pow256(k) % 256
  {
    var u := len % TWO_TO_64;
    SmallPowers();
    HalfDigits(u);
    WordDigits(u % 0x1_0000_0000);
    WordDigits(u / 0x1_0000_0000);
    hide WordBytes, Pow256;
  }

  /** The number whose digits in base 256 are these bytes, least significant first. */
  function LittleEndian(b: seq<Byte>): (r: nat) {
    if b == [] then 0 else b[0] as int + 256 * LittleEndian(b[1..])
  }

  lemma LittleEndianOfEight(b: seq<Byte>)
    requires |b| == 8
    ensures LittleEndian(b)
            == b[0] as int + 0x100 * b[1] as int + 0x1_0000 * b[2] as int + 0x100_0000 * b[3] as int
               + 0x1_0000_0000 * (b[4] as int + 0x100 * b[5] as int + 0x1_0000 * b[6] as int + 0x100_0000 * b[7] as int)
  {
    LittleEndianOfFour(b[4..]);
    var f := b[4..];
    assert b[1..][0] == b[1] && b[2..][0] == b[2] && b[3..][0] == b[3];
    assert b[1..][1..] == b[2..] && b[2..][1..] == b[3..] && b[3..][1..] == f;
    assert LittleEndian(b[3..]) == b[3] as int + 256 * LittleEndian(f);
    assert LittleEndian(b[2..]) == b[2] as int + 256 * LittleEndian(b[3..]);
  }

  lemma LittleEndianOfFour(b: seq<Byte>)
    requires |b| == 4
    ensures LittleEndian(b) == b[0] as int + 0x100 * b[1] as int + 0x1_0000 * b[2] as int + 0x100_0000 * b[3] as int
  {
    assert b[1..][0] == b[1] && b[2..][0] == b[2] && b[3..][0] == b[3];
    assert b[1..][1..] == b[2..] && b[2..][1..] == b[3..] && b[3..][1..] == [];
    assert LittleEndian(b[3..]) == b[3] as int;
    assert LittleEndian(b[2..]) == b[2] as int + 256 * LittleEndian(b[3..]);
  }

  /** What the header of a frame means: the int64 with these bytes, least significant first. */
  lemma DecodeIsLittleEndian(b: seq<Byte>)
    requires |b| == 8
    ensures var u := LittleEndian(b);
            DecodeLength(b) == if u < 0x8000_0000_0000_0000 then u else u - 0x1_0000_0000_0000_0000
  {
    LittleEndianOfEight(b);
    hide LittleEndian;
    assert Unsigned(b) == LittleEndian(b);
  }

  function Encode(m: Frame): (b: seq<Byte>)
    ensures |b| == HEADER_SIZE + |m|
  {
    EncodeLength(|m|) + m
  }

  /** The messages on the wire, followed by `tail`. */
  function Wire(ms: seq<Frame>, tail: seq<Byte>): (r: seq<Byte>) {
    if ms == [] then tail else Encode(ms[0]) + Wire(ms[1..], tail)
  }

  // ---------- One pass over a buffer ----------

  /** What a pass leaves behind: the frames handed over and the bytes kept for the next
      read, or, when a slice expression is out of range, only the frames handed over. */
  datatype Outcome = Kept(frames: seq<Frame>, residue: seq<Byte>) | Panicked(frames: seq<Frame>)

  function After(fs: seq<Frame>, o: Outcome): (r: Outcome) {
    match o
    case Kept(gs, r) => Kept(fs + gs, r)
    case Panicked(gs) => Panicked(fs + gs)
  }

  function HeaderOf(s: seq<Byte>): (r: int)
    requires |s| > HEADER_SIZE
  {
    DecodeLength(s[..HEADER_SIZE])
  }

  /** The loop stops in front of `s`, the rest of the buffer at position `pos`: the header
      is not followed by a byte, or the end of the frame lies outside the buffer. */
  predicate Stops(s: seq<Byte>, pos: nat) {
    |s| <= HEADER_SIZE || HEADER_SIZE + HeaderOf(s) > |s| || pos + HEADER_SIZE + HeaderOf(s) < 0
  }

  /** The frames of `s`, the rest of a buffer from position `pos` on. */
  function Parse(s: seq<Byte>, pos: nat): (o: Outcome)
    decreases |s|
  {
    if Stops(s, pos) then Kept([], s)
    else if HeaderOf(s) < 0 then Panicked([])
    else
      var end := HEADER_SIZE + HeaderOf(s);
      After([s[HEADER_SIZE..end]], Parse(s[end..], pos + end))
  }

  // ---------- A stream read in pieces ----------

  function Concat(chunks: seq<seq<Byte>>): (r: seq<Byte>) {
    if chunks == [] then [] else Concat(chunks[..|chunks| - 1]) + chunks[|chunks| - 1]
  }

  function Size(chunks: seq<seq<Byte>>): (r: nat) {
    if chunks == [] then 0 else |chunks[0]| + Size(chunks[1..])
  }

  /** A connection's reads: each one is parsed behind the residue of those before it. */
  function ReceiveAll(chunks: seq<seq<Byte>>): (r: Outcome) {
    if chunks == [] then Kept([], [])
    else
      var before := ReceiveAll(chunks[..|chunks| - 1]);
      match before
      case Panicked(_) => before
      case Kept(fs, r) => After(fs, Parse(r + chunks[|chunks| - 1], 0))
  }

  ghost predicate IsSplitOf(chunks: seq<seq<Byte>>, s: seq<Byte>) {
    Concat(chunks) == s && forall c <- chunks :: c != []
  }

  /** The same connection seen from the middle of its run. */
  function Resume(o: Outcome, chunks: seq<seq<Byte>>): (r: Outcome)
    decreases |chunks|
  {
    if chunks == [] || o.Panicked? then o
    else Resume(After(o.frames, Parse(o.residue + chunks[0], 0)), chunks[1..])
  }

  lemma {:induction false} ResumeNext(o: Outcome, chunks: seq<seq<Byte>>, t: seq<Byte>)
    ensures Resume(o, chunks + [t]) == Resume(Resume(o, chunks), [t])
    decreases |chunks|
  {
    hide Parse, After;
    if chunks == [] {
      assert chunks + [t] == [t];
    } else if o.Kept? {
      assert (chunks + [t])[1..] == chunks[1..] + [t];
      ResumeNext(After(o.frames, Parse(o.residue + chunks[0], 0)), chunks[1..], t);
    }
  }

  lemma {:induction false} ResumeFromStart(chunks: seq<seq<Byte>>)
    ensures ReceiveAll(chunks) == Resume(Kept([], []), chunks)
  {
    hide Parse, After;
    if chunks != [] {
      var init, t := chunks[..|chunks| - 1], chunks[|chunks| - 1];
      ResumeFromStart(init);
      assert init + [t] == chunks;
      ResumeNext(Kept([], []), init, t);
    }
  }

  /** The first frame boundary whose header is negative, if the stream has one. */
  datatype Negative = Nowhere | At(offset: nat, length: int)

  function FirstNegative(s: seq<Byte>): (r: Negative)
    ensures r.At? ==> r.offset + HEADER_SIZE < |s| && r.length < 0
    decreases |s|
  {
    if |s| <= HEADER_SIZE || HEADER_SIZE + HeaderOf(s) > |s| then Nowhere
    else if HeaderOf(s) < 0 then At(0, HeaderOf(s))
    else
      var end := HEADER_SIZE + HeaderOf(s);
      match FirstNegative(s[end..])
      case Nowhere => Nowhere
      case At(k, len) => At(k + end, len)
  }

  /** A negative header whose frame would end inside the stream but before the header itself:
      whether it stops the parser or crashes it depends on where the buffer begins. */
  predicate PositionDependent(s: seq<Byte>) {
    var r := FirstNegative(s);
    r.At? && -(r.offset + HEADER_SIZE) <= r.length < -HEADER_SIZE
  }

  // ---------- Parsing and concatenation ----------

  lemma Assoc<T>(a: seq<T>, b: seq<T>, c: seq<T>)
    ensures a + (b + c) == a + b + c
  {
  }

  lemma SliceOfRest<T>(s: seq<T>, pos: nat, from: nat, to: nat)
    requires pos + from <= pos + to <= |s|
    ensures s[pos..][from..to] == s[pos + from..pos + to] && s[pos..][to..] == s[pos + to..]
  {
  }

  lemma AfterAssoc(a: seq<Frame>, b: seq<Frame>, o: Outcome)
    ensures After(a, After(b, o)) == After(a + b, o)
  {
    match o
    case Kept(gs, r) => assert a + (b + gs) == a + b + gs;
    case Panicked(gs) => assert a + (b + gs) == a + b + gs;
  }

  lemma AfterParts(fs: seq<Frame>, o: Outcome)
    ensures After(fs, o).frames == fs + o.frames
    ensures o.Kept? <==> After(fs, o).Kept?
    ensures o.Kept? ==> After(fs, o).residue == o.residue
  {
  }

  lemma AfterNothing(o: Outcome)
    ensures After([], o) == o
  {
    assert [] + o.frames == o.frames;
  }

  lemma ParseStep(s: seq<Byte>, pos: nat)
    ensures Stops(s, pos) ==> Parse(s, pos) == Kept([], s)
    ensures !Stops(s, pos) && HeaderOf(s) < 0 ==> Parse(s, pos) == Panicked([])
    ensures !Stops(s, pos) && HeaderOf(s) >= 0 ==>
              var end := HEADER_SIZE + HeaderOf(s);
              Parse(s, pos) == After([s[HEADER_SIZE..end]], Parse(s[end..], pos + end))
  {
  }

  /** Frames on the wire as they are, not as the encoder makes them: behind eight bytes with the
      length of a message comes the message, and behind it the rest of the stream. */
  lemma ParseReadsHeader(header: seq<Byte>, m: Frame, rest: seq<Byte>, pos: nat)
    requires |header| == 8 && LittleEndian(header) == |m| && (m != [] || rest != [])
    ensures Parse(header + m + rest, pos) == After([m], Parse(rest, pos + 8 + |m|))
  {
    DecodeIsLittleEndian(header);
    hide LittleEndian, DecodeLength, Parse, After;
    var s := header + m + rest;
    assert s[..8] == header && s[8..8 + |m|] == m && s[8 + |m|..] == rest;
    ParseStep(s, pos);
  }

  lemma ParseShort(s: seq<Byte>, pos: nat)
    requires |s| <= HEADER_SIZE
    ensures Parse(s, pos) == Kept([], s) && FirstNegative(s).Nowhere?
  {
  }

  /** One read of length 5 and the bytes of `hello`. */
  lemma HelloExample()
    ensures Parse([5, 0, 0, 0, 0, 0, 0, 0, 0x68, 0x65, 0x6C, 0x6C, 0x6F], 0)
            == Kept([[0x68, 0x65, 0x6C, 0x6C, 0x6F]], [])
  {
    var header, hello: Frame := [5, 0, 0, 0, 0, 0, 0, 0], [0x68, 0x65, 0x6C, 0x6C, 0x6F];
    LittleEndianOfEight(header);
    ParseReadsHeader(header, hello, [], 0);
    ParseShort([], 13);
    assert header + hello + [] == [5, 0, 0, 0, 0, 0, 0, 0, 0x68, 0x65, 0x6C, 0x6C, 0x6F];
    assert [hello] + [] == [hello];
  }

  /** A pass over s + t is a pass over s, continued with t behind the residue of s. */
  lemma {:induction false} ParseContinues(s: seq<Byte>, t: seq<Byte>, pos: nat)
    ensures Parse(s, pos).Kept? ==>
              var o := Parse(s, pos);
              && |o.residue| <= |s|
              && Parse(s + t, pos) == After(o.frames, Parse(o.residue + t, pos + |s| - |o.residue|))
    ensures Parse(s, pos).Panicked? ==> Parse(s + t, pos) == Parse(s, pos)
    decreases |s|
  {
    hide DecodeLength, EncodeLength, After, Parse;
    ParseStep(s, pos);
    ParseStep(s + t, pos);
    if Stops(s, pos) {
      AfterNothing(Parse(s + t, pos));
    } else {
      assert (s + t)[..HEADER_SIZE] == s[..HEADER_SIZE];
      if HeaderOf(s) >= 0 {
        var end := HEADER_SIZE + HeaderOf(s);
        assert (s + t)[HEADER_SIZE..end] == s[HEADER_SIZE..end];
        assert (s + t)[end..] == s[end..] + t;
        ParseContinues(s[end..], t, pos + end);
        var o := Parse(s[end..], pos + end);
        if o.Kept? {
          AfterAssoc([s[HEADER_SIZE..end]], o.frames, Parse(o.residue + t, pos + |s| - |o.residue|));
        }
        AfterParts([s[HEADER_SIZE..end]], o);
      }
    }
  }

  /** Where the first negative header of s + t is, seen from the residue of s. */
  lemma {:induction false} FirstNegativeContinues(s: seq<Byte>, t: seq<Byte>, pos: nat)
    requires Parse(s, pos).Kept?
    ensures var r := Parse(s, pos).residue;
            |r| <= |s| &&
            FirstNegative(s + t) ==
              match FirstNegative(r + t)
              case Nowhere => Nowhere
              case At(k, len) => At(k + |s| - |r|, len)
    decreases |s|
  {
    hide DecodeLength, After;
    if !Stops(s, pos) {
      assert (s + t)[..HEADER_SIZE] == s[..HEADER_SIZE];
      var end := HEADER_SIZE + HeaderOf(s);
      assert (s + t)[end..] == s[end..] + t;
      AfterParts([s[HEADER_SIZE..end]], Parse(s[end..], pos + end));
      FirstNegativeContinues(s[end..], t, pos + end);
    }
  }

  /** A negative header met in s is the first one of s + t. */
  lemma {:induction false} FirstNegativeOfPrefix(s: seq<Byte>, t: seq<Byte>)
    ensures FirstNegative(s).At? ==> FirstNegative(s + t) == FirstNegative(s)
    decreases |s|
  {
    hide DecodeLength, EncodeLength;
    if |s| > HEADER_SIZE && HEADER_SIZE + HeaderOf(s) <= |s| {
      assert (s + t)[..HEADER_SIZE] == s[..HEADER_SIZE];
      if HeaderOf(s) >= 0 {
        var end := HEADER_SIZE + HeaderOf(s);
        assert (s + t)[end..] == s[end..] + t;
        FirstNegativeOfPrefix(s[end..], t);
      }
    }
  }

  /** The pass depends on the position of the buffer only through a negative header:
      it stops there when even the end of the frame lies before the buffer. */
  lemma {:induction false} ParseAtPosition(s: seq<Byte>, pos: nat, pos': nat)
    requires FirstNegative(s).At? ==>
               var r := FirstNegative(s);
               (pos + r.offset + HEADER_SIZE + r.length < 0 <==> pos' + r.offset + HEADER_SIZE + r.length < 0)
    ensures Parse(s, pos) == Parse(s, pos')
    decreases |s|
  {
    hide DecodeLength, EncodeLength;
    if |s| > HEADER_SIZE && 0 <= HeaderOf(s) <= |s| - HEADER_SIZE {
      var end := HEADER_SIZE + HeaderOf(s);
      ParseAtPosition(s[end..], pos + end, pos' + end);
    }
  }

  // ---------- Chunking invariance ----------

  /** Main result, one direction: reading a stream in any pieces gives what one pass gives. */
  lemma {:induction false} SplitInvariance(chunks: seq<seq<Byte>>)
    requires !PositionDependent(Concat(chunks))
    ensures ReceiveAll(chunks) == Parse(Concat(chunks), 0)
  {
    hide Parse, FirstNegative, After;
    if chunks == [] {
      assert Parse([], 0) == Kept([], []) by { ParseShort([], 0); }
    } else {
      var init, t := chunks[..|chunks| - 1], chunks[|chunks| - 1];
      var s := Concat(init);
      FirstNegativeOfPrefix(s, t);
      SplitInvariance(init);
      ParseContinues(s, t, 0);
      match Parse(s, 0)
      case Panicked(_) =>
      case Kept(fs, r) =>
        FirstNegativeContinues(s, t, 0);
        ParseAtPosition(r + t, 0, |s| - |r|);
    }
  }

  /** A buffer cut right behind the first negative header keeps just that header. */
  lemma {:induction false} CutBehindNegative(s: seq<Byte>, pos: nat, k: nat, len: int)
    requires FirstNegative(s) == At(k, len)
    ensures var o := Parse(s[..k + HEADER_SIZE], pos);
            o.Kept? && o.residue == s[k..k + HEADER_SIZE]
    decreases |s|
  {
    hide DecodeLength, EncodeLength, Parse, After;
    var cut := s[..k + HEADER_SIZE];
    ParseStep(cut, pos);
    if HeaderOf(s) >= 0 {
      var end := HEADER_SIZE + HeaderOf(s);
      CutBehindNegative(s[end..], pos + end, k - end, len);
      assert cut[..HEADER_SIZE] == s[..HEADER_SIZE] && cut[HEADER_SIZE..end] == s[HEADER_SIZE..end];
      assert cut[end..] == s[end..][..k - end + HEADER_SIZE];
      SliceOfRest(s, end, k - end, k - end + HEADER_SIZE);
      AfterParts([s[HEADER_SIZE..end]], Parse(cut[end..], pos + end));
    }
  }

  lemma {:induction false} FirstNegativeIsThere(s: seq<Byte>)
    requires FirstNegative(s).At?
    ensures HeaderOf(s[FirstNegative(s).offset..]) == FirstNegative(s).length
    decreases |s|
  {
    hide DecodeLength, EncodeLength;
    if HeaderOf(s) >= 0 {
      var end := HEADER_SIZE + HeaderOf(s);
      FirstNegativeIsThere(s[end..]);
      assert s[end..][FirstNegative(s).offset - end..] == s[FirstNegative(s).offset..];
    } else {
      assert s[0..] == s;
    }
  }

  /** The frame of the first negative header ends inside the buffer. */
  predicate Crashing(s: seq<Byte>, pos: nat) {
    FirstNegative(s).At? && pos + FirstNegative(s).offset + HEADER_SIZE + FirstNegative(s).length >= 0
  }

  /** Exactly when a pass crashes: at a negative header whose frame would end inside the buffer. */
  lemma {:induction false} CrashIff(s: seq<Byte>, pos: nat)
    ensures Parse(s, pos).Panicked? <==> Crashing(s, pos)
    decreases |s|
  {
    hide DecodeLength, EncodeLength, Parse, After;
    ParseStep(s, pos);
    if !Stops(s, pos) && HeaderOf(s) >= 0 {
      var end := HEADER_SIZE + HeaderOf(s);
      CrashIff(s[end..], pos + end);
      AfterParts([s[HEADER_SIZE..end]], Parse(s[end..], pos + end));
    }
  }

  /** Main result, the other direction: a position-dependent stream crashes when it is read at
      once, and has a split that does not. */
  lemma SplitVariance(s: seq<Byte>)
    requires PositionDependent(s)
    ensures Parse(s, 0).Panicked? && exists chunks :: IsSplitOf(chunks, s) && ReceiveAll(chunks).Kept?
  {
    hide DecodeLength, EncodeLength;
    var r := FirstNegative(s);
    var cut := r.offset + HEADER_SIZE;
    var chunks := [s[..cut], s[cut..]];
    CutBehindNegative(s, 0, r.offset, r.length);
    CrashIff(s, 0);
    FirstNegativeIsThere(s);
    assert chunks[..1] == [s[..cut]];
    assert s[..cut] + s[cut..] == s && [] + s[..cut] == s[..cut];
    calc {
      Concat(chunks);
      Concat(chunks[..1]) + s[cut..];
      { assert Concat(chunks[..1]) == Concat([]) + s[..cut]; }
      s;
    }
    AfterNothing(Parse(s[..cut], 0));
    assert ReceiveAll(chunks[..1]) == Parse(s[..cut], 0);
    var rest := s[r.offset..cut] + s[cut..];
    assert rest == s[r.offset..];
    assert Parse(rest, 0).Kept?;
    assert IsSplitOf(chunks, s) && ReceiveAll(chunks).Kept?;
  }

  lemma PositionDependentStream()
    ensures PositionDependent(Wire([[0, 0, 0, 0]], EncodeLength(-20) + [0]))
  {
    var s := EncodeLength(-20) + [0];
    HeaderBijection(-20, EncodeLength(0));
    assert s[..HEADER_SIZE] == EncodeLength(-20);
    assert FirstNegative(s) == At(0, -20);
    FirstFrame([0, 0, 0, 0], s);
    assert Wire([[0, 0, 0, 0]], s) == Encode([0, 0, 0, 0]) + s;
  }

  /** A 4-byte message, then a header of -20: one read of everything crashes, another way does not. */
  lemma PositionDependentExample()
    ensures var s := Wire([[0, 0, 0, 0]], EncodeLength(-20) + [0]);
            && PositionDependent(s) && Parse(s, 0).Panicked?
            && exists chunks :: IsSplitOf(chunks, s) && ReceiveAll(chunks).Kept?
  {
    PositionDependentStream();
    SplitVariance(Wire([[0, 0, 0, 0]], EncodeLength(-20) + [0]));
  }

  /** Exactly when the frames and the residue do not depend on how a stream is cut into reads. */
  lemma SplitInvarianceIff(s: seq<Byte>)
    ensures (forall chunks | IsSplitOf(chunks, s) :: ReceiveAll(chunks) == Parse(s, 0)) <==> !PositionDependent(s)
  {
    if PositionDependent(s) {
      SplitVariance(s);
    } else {
      forall chunks | IsSplitOf(chunks, s) ensures ReceiveAll(chunks) == Parse(s, 0) {
        SplitInvariance(chunks);
      }
    }
  }

  lemma ReceiveAtOnce(s: seq<Byte>)
    requires s != []
    ensures IsSplitOf([s], s) && ReceiveAll([s]) == Parse(s, 0)
  {
    hide Parse;
    var chunks := [s];
    assert chunks[..0] == [] && [] + s == s;
    assert Concat(chunks) == Concat(chunks[..0]) + s == s;
    assert ReceiveAll(chunks[..0]) == Kept([], []);
    AfterNothing(Parse(s, 0));
  }

  /** Exactly when a stream can crash its receiver: some way of reading it crashes if and only
      if reading it at once does. */
  lemma SomeSplitCrashesIff(s: seq<Byte>)
    ensures (exists chunks :: IsSplitOf(chunks, s) && ReceiveAll(chunks).Panicked?) <==> Crashing(s, 0)
  {
    hide Parse;
    CrashIff(s, 0);
    if chunks :| IsSplitOf(chunks, s) && ReceiveAll(chunks).Panicked? {
      if PositionDependent(s) {
        SplitVariance(s);
      } else {
        SplitInvariance(chunks);
      }
    }
    if Crashing(s, 0) {
      ReceiveAtOnce(s);
    }
  }

  /** Exactly when a stream always crashes its receiver: the frame of the first negative header
      does not end in front of that header. */
  lemma EverySplitCrashesIff(s: seq<Byte>)
    ensures (forall chunks | IsSplitOf(chunks, s) :: ReceiveAll(chunks).Panicked?) <==>
              FirstNegative(s).At? && FirstNegative(s).length >= -HEADER_SIZE
  {
    hide Parse, ReceiveAll;
    CrashIff(s, 0);
    if FirstNegative(s).At? && FirstNegative(s).length >= -HEADER_SIZE {
      forall chunks | IsSplitOf(chunks, s) ensures ReceiveAll(chunks).Panicked? {
        SplitInvariance(chunks);
      }
    } else if PositionDependent(s) {
      SplitVariance(s);
    } else if s != [] {
      ReceiveAtOnce(s);
    } else {
      assert IsSplitOf([], s);
      ParseShort([], 0);
      SplitInvariance([]);
    }
  }

  // ---------- Conservation and round trip ----------

  lemma {:induction false} WireAppend(a: seq<Frame>, b: seq<Frame>, tail: seq<Byte>)
    ensures Wire(a + b, tail) == Wire(a, Wire(b, tail))
  {
    if a == [] {
      assert a + b == b;
    } else {
      assert (a + b)[1..] == a[1..] + b;
      WireAppend(a[1..], b, tail);
    }
  }

  lemma {:induction false} WireTail(ms: seq<Frame>, r: seq<Byte>, t: seq<Byte>)
    ensures Wire(ms, r + t) == Wire(ms, r) + t
  {
    if ms != [] {
      WireTail(ms[1..], r, t);
      Assoc(Encode(ms[0]), Wire(ms[1..], r), t);
    }
  }

  lemma FrameBytes(s: seq<Byte>)
    requires |s| > HEADER_SIZE && 0 <= HeaderOf(s) <= |s| - HEADER_SIZE
    ensures var end := HEADER_SIZE + HeaderOf(s);
            Encode(s[HEADER_SIZE..end]) == s[..end]
  {
    HeaderBijection(0, s[..HEADER_SIZE]);
    hide DecodeLength, EncodeLength;
    var end := HEADER_SIZE + HeaderOf(s);
    assert s[..end] == s[..HEADER_SIZE] + s[HEADER_SIZE..end];
  }

  /** The frames of an outcome and what was left behind them are all the bytes of s. */
  ghost predicate Accounts(o: Outcome, s: seq<Byte>) {
    match o
    case Kept(fs, r) => Wire(fs, r) == s
    case Panicked(fs) => exists r :: Wire(fs, r) == s
  }

  lemma AccountsAfter(fs: seq<Frame>, o: Outcome, s: seq<Byte>)
    requires Accounts(o, s)
    ensures Accounts(After(fs, o), Wire(fs, s))
  {
    var r :| Wire(o.frames, r) == s && (o.Kept? ==> r == o.residue);
    WireAppend(fs, o.frames, r);
  }

  lemma {:induction false} ParseConserves(s: seq<Byte>, pos: nat)
    ensures Accounts(Parse(s, pos), s)
    decreases |s|
  {
    hide DecodeLength, Encode, After;
    if Stops(s, pos) || HeaderOf(s) < 0 {
      assert Wire([], s) == s;
    } else {
      FrameBytes(s);
      var end := HEADER_SIZE + HeaderOf(s);
      var m := s[HEADER_SIZE..end];
      ParseConserves(s[end..], pos + end);
      AccountsAfter([m], Parse(s[end..], pos + end), s[end..]);
      assert Wire([m], s[end..]) == s[..end] + s[end..] == s;
    }
  }

  /** No byte is lost or invented: the encodings of the delivered frames followed by the
      residue are the bytes received, for every stream and every way of reading it. */
  lemma {:induction false} BytesConserved(chunks: seq<seq<Byte>>)
    ensures Accounts(ReceiveAll(chunks), Concat(chunks))
  {
    if chunks == [] {
      assert Wire([], []) == [];
    } else {
      var init, t := chunks[..|chunks| - 1], chunks[|chunks| - 1];
      BytesConserved(init);
      match ReceiveAll(init)
      case Panicked(fs) =>
        var r :| Wire(fs, r) == Concat(init);
        WireTail(fs, r, t);
      case Kept(fs, r) =>
        ParseConserves(r + t, 0);
        AccountsAfter(fs, Parse(r + t, 0), r + t);
        WireTail(fs, r, t);
    }
  }

  lemma FirstFrame(m: Frame, rest: seq<Byte>)
    requires (m != [] || rest != [])
    ensures var s := Encode(m) + rest;
            HeaderOf(s) == |m| && s[HEADER_SIZE..HEADER_SIZE + |m|] == m && s[HEADER_SIZE + |m|..] == rest
  {
    HeaderBijection(|m|, EncodeLength(0));
    hide DecodeLength, EncodeLength;
    assert (Encode(m) + rest)[..HEADER_SIZE] == EncodeLength(|m|);
  }

  lemma ParseFirst(m: Frame, rest: seq<Byte>, pos: nat)
    requires (m != [] || rest != [])
    ensures Parse(Encode(m) + rest, pos) == After([m], Parse(rest, pos + HEADER_SIZE + |m|))
    ensures FirstNegative(rest).Nowhere? ==> FirstNegative(Encode(m) + rest).Nowhere?
  {
    FirstFrame(m, rest);
    hide DecodeLength, Encode;
  }

  /** Messages on the wire are delivered one by one, unless the very last thing on the wire
      is an empty message: then nothing follows its header and it is held back. */
  lemma {:induction false} ParseMessages(ms: seq<Frame>, t: seq<Byte>, pos: nat)
    requires t == [] && ms != [] ==> ms[|ms| - 1] != []
    ensures var s := Wire(ms, t);
            && |s| >= |t|
            && Parse(s, pos) == After(ms, Parse(t, pos + |s| - |t|))
            && (FirstNegative(t).Nowhere? ==> FirstNegative(s).Nowhere?)
            && (t == [] && ms != [] ==> s != [])
  {
    hide Parse, FirstNegative, Encode, After;
    if ms == [] {
      AfterNothing(Parse(t, pos));
    } else {
      var m, rest := ms[0], Wire(ms[1..], t);
      var next := pos + HEADER_SIZE + |m|;
      ParseMessages(ms[1..], t, next);
      ParseFirst(m, rest, pos);
      AfterAssoc([m], ms[1..], Parse(t, next + |rest| - |t|));
      assert [m] + ms[1..] == ms;
    }
  }

  /** What a list of messages is delivered as: all of it, but a final empty message waits. */
  function Delivered(ms: seq<Frame>): (r: Outcome) {
    if ms != [] && ms[|ms| - 1] == [] then Kept(ms[..|ms| - 1], seq(HEADER_SIZE, _ => 0)) else Kept(ms, [])
  }

  lemma WireFinalEmpty(init: seq<Frame>)
    ensures Wire(init + [[]], []) == Wire(init, seq(HEADER_SIZE, _ => 0))
  {
    assert WordBytes(0) == [0, 0, 0, 0];
    assert Wire([[]], []) == Encode([]) + Wire([], []) == seq(HEADER_SIZE, _ => 0);
    WireAppend(init, [[]], []);
  }

  lemma ParseWire(ms: seq<Frame>)
    ensures Parse(Wire(ms, []), 0) == Delivered(ms)
    ensures FirstNegative(Wire(ms, [])).Nowhere?
  {
    hide Parse, FirstNegative, Wire, After;
    if ms != [] && ms[|ms| - 1] == [] {
      var init, zeros := ms[..|ms| - 1], seq(HEADER_SIZE, _ => 0);
      assert ms == init + [[]];
      WireFinalEmpty(init);
      ParseMessages(init, zeros, 0);
      ParseShort(zeros, |Wire(init, zeros)| - HEADER_SIZE);
      AfterParts(init, Kept([], zeros));
      assert init + [] == init;
    } else {
      ParseMessages(ms, [], 0);
      ParseShort([], |Wire(ms, [])|);
      AfterParts(ms, Kept([], []));
      assert ms + [] == ms;
    }
  }

  /** Round trip: encode any messages, cut the bytes anywhere, receive: the same messages arrive. */
  lemma RoundTrip(ms: seq<Frame>, chunks: seq<seq<Byte>>)
    requires IsSplitOf(chunks, Wire(ms, []))
    ensures ReceiveAll(chunks) == Delivered(ms)
  {
    ParseWire(ms);
    SplitInvariance(chunks);
  }

  /** The held-back empty message is delivered as soon as any further byte arrives. */
  lemma HeldBackUntilMore(ms: seq<Frame>, t: seq<Byte>, chunks: seq<seq<Byte>>)
    requires t != [] && FirstNegative(t).Nowhere?
    requires IsSplitOf(chunks, Wire(ms, t))
    ensures ReceiveAll(chunks) == After(ms, Parse(t, 0))
  {
    hide Parse, FirstNegative, Wire, After;
    ParseMessages(ms, t, 0);
    SplitInvariance(chunks);
    ParseAtPosition(t, 0, |Wire(ms, t)| - |t|);
  }

  // ---------- Wrapping arithmetic ----------

  /** The overflow guard computed in int64 arithmetic decides whether the true end of the
      frame lies outside 0..n, for every length a header can hold. */
  lemma WrappedGuard(pos: int, len: int, n: int)
    requires 0 <= pos && pos + HEADER_SIZE < n <= MAX_INT64
    requires MIN_INT64 <= len <= MAX_INT64
    ensures var end := Wrap64(Wrap64(pos + HEADER_SIZE) + len);
            && ((end > n || end < 0) <==> !(0 <= pos + HEADER_SIZE + len <= n))
            && (0 <= end <= n ==> end == pos + HEADER_SIZE + len)
  {
  }

  lemma {:induction false} ResidueIsSuffix(s: seq<Byte>, pos: nat)
    requires Parse(s, pos).Kept?
    ensures var r := Parse(s, pos).residue;
            |r| <= |s| && r == s[|s| - |r|..]
    decreases |s|
  {
    if !Stops(s, pos) {
      ResidueIsSuffix(s[HEADER_SIZE + HeaderOf(s)..], pos + HEADER_SIZE + HeaderOf(s));
    }
  }

  /** Why a pass stopped: at most a header is left, or it declares more than is there,
      or it is so negative that the frame would end before the buffer. */
  lemma {:induction false} ResidueIsIncomplete(s: seq<Byte>, pos: nat)
    requires Parse(s, pos).Kept?
    ensures var r := Parse(s, pos).residue;
            |r| <= |s| && Stops(r, pos + |s| - |r|)
    ensures FirstNegative(s).Nowhere? ==>
              var r := Parse(s, pos).residue;
              |r| <= HEADER_SIZE || HEADER_SIZE + HeaderOf(r) > |r|
    decreases |s|
  {
    hide DecodeLength, EncodeLength;
    if !Stops(s, pos) {
      var end := HEADER_SIZE + HeaderOf(s);
      ResidueIsIncomplete(s[end..], pos + end);
    }
  }
}
