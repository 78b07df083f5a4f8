/** The read buffer of a datagram socket: a read that fills it may have been cut short,
    so the buffer doubles, up to the limit of the socket type. */
module Datagrams {
  import opened Framing

  datatype SocketType = Udp | Tcp | Unix

  const INITIAL_BUFFER_SIZE := 65535
  const MAX_BUFFER_SIZE_UNIX := 10485760
  const MAX_BUFFER_SIZE_TCP := 104857600

  function MaxBufferSize(t: SocketType): (r: nat) {
    match t
    case Udp => INITIAL_BUFFER_SIZE
    case Tcp => MAX_BUFFER_SIZE_TCP
    case Unix => MAX_BUFFER_SIZE_UNIX
  }

  type Datagram = seq<Byte>

  function Min(a: nat, b: nat): (r: nat) {
    if a < b then a else b
  }

  /** The capacity after a read of n bytes. */
  function Grown(capacity: nat, max: nat, n: nat): (r: nat) {
    if n == capacity && capacity < max then Min(2 * capacity, max) else capacity
  }

  /** The capacity after the datagrams ds arrived in a buffer of the given capacity. */
  function CapacityAfter(ds: seq<Datagram>, capacity: nat, max: nat): (r: nat) {
    if ds == [] then capacity
    else CapacityAfter(ds[1..], Grown(capacity, max, Min(|ds[0]|, capacity)), max)
  }

  /** What is handed over: of each datagram, as much as the buffer of the moment holds. */
  function Deliveries(ds: seq<Datagram>, capacity: nat, max: nat): (r: seq<Datagram>) {
    if ds == [] then []
    else
      var n := Min(|ds[0]|, capacity);
      [ds[0][..n]] + Deliveries(ds[1..], Grown(capacity, max, n), max)
  }

  /** How often the buffer grew. */
  function Growths(ds: seq<Datagram>, capacity: nat, max: nat): (r: nat) {
    if ds == [] then 0
    else
      var n := Min(|ds[0]|, capacity);
      (if n == capacity && capacity < max then 1 else 0) + Growths(ds[1..], Grown(capacity, max, n), max)
  }

  /** How many deliveries differ from a datagram that the limit would have let through. */
  function Truncations(ds: seq<Datagram>, got: seq<Datagram>, max: nat): (r: nat)
    requires |ds| == |got|
  {
    if ds == [] then 0
    else (if got[0] != ds[0] && |ds[0]| <= max then 1 else 0) + Truncations(ds[1..], got[1..], max)
  }

  function Pow2(k: nat): (r: nat) {
    if k == 0 then 1 else 2 * Pow2(k - 1)
  }

  lemma {:induction false} Pow2Positive(k: nat)
    ensures Pow2(k) >= 1
  {
    if k > 0 {
      Pow2Positive(k - 1);
    }
  }

  lemma MulMonotone(a: nat, b: nat)
    requires b >= 1
    ensures a * b >= a
  {
  }

  lemma OneDoubling(capacity: nat, max: nat, p: nat)
    requires p >= 1 && capacity < max
    ensures Min(Min(2 * capacity, max) * p, max) == Min(capacity * (2 * p), max)
  {
    assert capacity * (2 * p) == 2 * capacity * p;
    MulMonotone(max, p);
    MulMonotone(2 * capacity, p);
  }

  /** After k growths the capacity is the initial one doubled k times, cut off at the limit. */
  lemma {:induction false} CapacityFormula(ds: seq<Datagram>, capacity: nat, max: nat)
    requires 0 < capacity <= max
    ensures CapacityAfter(ds, capacity, max) == Min(capacity * Pow2(Growths(ds, capacity, max)), max)
  {
    if ds == [] {
      assert Pow2(0) == 1;
    } else {
      var capacity' := Grown(capacity, max, Min(|ds[0]|, capacity));
      CapacityFormula(ds[1..], capacity', max);
      if capacity' != capacity {
        var k := Growths(ds[1..], capacity', max);
        Pow2Positive(k);
        OneDoubling(capacity, max, Pow2(k));
        assert Pow2(k + 1) == 2 * Pow2(k);
      }
    }
  }

  /** A buffer that needs at most k doublings to reach the limit grows at most k times. */
  lemma {:induction false} GrowthsBounded(ds: seq<Datagram>, capacity: nat, max: nat, k: nat)
    requires 0 < capacity <= max <= capacity * Pow2(k)
    ensures Growths(ds, capacity, max) <= k
    decreases |ds|
  {
    if ds != [] {
      var capacity' := Grown(capacity, max, Min(|ds[0]|, capacity));
      if capacity' == capacity {
        GrowthsBounded(ds[1..], capacity, max, k);
      } else {
        assert k > 0 && capacity * Pow2(k) == 2 * capacity * Pow2(k - 1);
        Pow2Positive(k - 1);
        MulMonotone(max, Pow2(k - 1));
        GrowthsBounded(ds[1..], capacity', max, k - 1);
      }
    }
  }

  /** Each delivery is the prefix of its datagram that fits the capacity reached before it. */
  lemma {:induction false} DeliveryIsPrefix(ds: seq<Datagram>, capacity: nat, max: nat, i: nat)
    requires i < |ds|
    ensures |Deliveries(ds, capacity, max)| == |ds|
    ensures Deliveries(ds, capacity, max)[i] == ds[i][..Min(|ds[i]|, CapacityAfter(ds[..i], capacity, max))]
  {
    var capacity' := Grown(capacity, max, Min(|ds[0]|, capacity));
    if i > 0 {
      DeliveryIsPrefix(ds[1..], capacity', max, i - 1);
      assert ds[1..][..i - 1] == ds[..i][1..];
    } else if |ds| > 1 {
      DeliveryIsPrefix(ds[1..], capacity', max, 0);
    }
  }

  /** Every truncation of a datagram within the limit makes the buffer grow. */
  lemma {:induction false} TruncationsGrow(ds: seq<Datagram>, capacity: nat, max: nat)
    requires capacity <= max
    ensures |Deliveries(ds, capacity, max)| == |ds|
    ensures Truncations(ds, Deliveries(ds, capacity, max), max) <= Growths(ds, capacity, max)
  {
    if ds != [] {
      var capacity' := Grown(capacity, max, Min(|ds[0]|, capacity));
      TruncationsGrow(ds[1..], capacity', max);
      assert Deliveries(ds, capacity, max)[1..] == Deliveries(ds[1..], capacity', max);
    }
  }

  /** The buffer grows exactly when a datagram fills it and the limit is not reached, and then it
      doubles, up to the limit. */
  lemma GrowsIff(d: Datagram, capacity: nat, max: nat)
    requires 0 < capacity <= max
    ensures CapacityAfter([d], capacity, max)
            == if |d| < capacity || capacity == max then capacity else if 2 * capacity < max then 2 * capacity else max
  {
    assert [d][1..] == [];
  }

  /** Unix sockets: over any run, at most 8 datagrams of at most 10 MiB lose bytes, and the
      capacity is always 65535 times a power of two, or 10 MiB. */
  lemma UnixTruncationBound(ds: seq<Datagram>)
    ensures var max := MaxBufferSize(Unix);
            var k := Growths(ds, INITIAL_BUFFER_SIZE, max);
            var got := Deliveries(ds, INITIAL_BUFFER_SIZE, max);
            && INITIAL_BUFFER_SIZE == 65535 && max == 10485760
            && k <= 8
            && CapacityAfter(ds, INITIAL_BUFFER_SIZE, max) == Min(INITIAL_BUFFER_SIZE * Pow2(k), max)
            && |got| == |ds|
            && Truncations(ds, got, max) <= 8
  {
    var max := MaxBufferSize(Unix);
    assert Pow2(4) == 16 && Pow2(8) == 256;
    GrowthsBounded(ds, INITIAL_BUFFER_SIZE, max, 8);
    CapacityFormula(ds, INITIAL_BUFFER_SIZE, max);
    TruncationsGrow(ds, INITIAL_BUFFER_SIZE, max);
  }

  /** From a capacity below limit / 2^(k-1), k datagrams as large as the limit are all truncated. */
  lemma {:induction false} RepeatedTruncation(d: Datagram, k: nat, capacity: nat)
    requires k > 0 && 0 < capacity && capacity * Pow2(k - 1) < |d|
    ensures var ds := seq(k, _ => d);
            |Deliveries(ds, capacity, |d|)| == k && Truncations(ds, Deliveries(ds, capacity, |d|), |d|) == k
  {
    var ds := seq(k, _ => d);
    Pow2Positive(k - 1);
    MulMonotone(capacity, Pow2(k - 1));
    assert Min(|d|, capacity) == capacity && |d[..capacity]| < |d|;
    assert ds[1..] == seq(k - 1, _ => d);
    if k > 1 {
      Pow2Positive(k - 2);
      assert capacity * Pow2(k - 1) == 2 * capacity * Pow2(k - 2);
      MulMonotone(2 * capacity, Pow2(k - 2));
      RepeatedTruncation(d, k - 1, 2 * capacity);
    }
    var got := Deliveries(ds, capacity, |d|);
    assert got[1..] == Deliveries(ds[1..], Min(2 * capacity, |d|), |d|);
  }

  /** The bound of 8 is attained. */
  lemma UnixTruncationBoundIsTight()
    ensures exists ds: seq<Datagram> ::
              var got := Deliveries(ds, INITIAL_BUFFER_SIZE, MaxBufferSize(Unix));
              |got| == |ds| && Truncations(ds, got, MaxBufferSize(Unix)) == 8
  {
    var d: Datagram := seq(MAX_BUFFER_SIZE_UNIX, _ => 0);
    assert Pow2(3) == 8 && Pow2(7) == 128;
    RepeatedTruncation(d, 8, INITIAL_BUFFER_SIZE);
    var ds := seq(8, _ => d);
    assert |Deliveries(ds, INITIAL_BUFFER_SIZE, MaxBufferSize(Unix))| == |ds|;
  }

  /** UDP: the buffer never grows, and exactly the datagrams over 65535 bytes lose bytes. */
  lemma {:induction false} UdpNeverGrows(ds: seq<Datagram>, i: nat)
    requires i < |ds|
    ensures var max := MaxBufferSize(Udp);
            && INITIAL_BUFFER_SIZE == 65535
            && CapacityAfter(ds, INITIAL_BUFFER_SIZE, max) == INITIAL_BUFFER_SIZE
            && |Deliveries(ds, INITIAL_BUFFER_SIZE, max)| == |ds|
            && (Deliveries(ds, INITIAL_BUFFER_SIZE, max)[i] == ds[i] <==> |ds[i]| <= INITIAL_BUFFER_SIZE)
  {
    assert Pow2(0) == 1;
    GrowthsBounded(ds, INITIAL_BUFFER_SIZE, INITIAL_BUFFER_SIZE, 0);
    CapacityFormula(ds, INITIAL_BUFFER_SIZE, INITIAL_BUFFER_SIZE);
    GrowthsBounded(ds[..i], INITIAL_BUFFER_SIZE, INITIAL_BUFFER_SIZE, 0);
    CapacityFormula(ds[..i], INITIAL_BUFFER_SIZE, INITIAL_BUFFER_SIZE);
    DeliveryIsPrefix(ds, INITIAL_BUFFER_SIZE, INITIAL_BUFFER_SIZE, i);
  }
}
