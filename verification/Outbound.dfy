/** The packet path end to end: from the TUN device through the DNS hijack and the datagram to the far end. */
module Outbound {
  import opened Bytes
  import opened OnesComplement
  import opened IpHeader
  import opened Varint
  import opened UdpPacket
  import opened UdpReceiver
  import opened ConnectIp
  import opened DnsHijack
  import opened HijackRuns
  import opened HijackIsolation
  import opened HijackOrder
  import Gate

  /** The packet that the far end of the tunnel parses out of the datagram of a hijacked query. */
  function Arriving(target: seq<byte>, p: seq<byte>): (r: seq<byte>)
    requires Forwardable(QueryPacket(target, p))
  {
    Forwarded(QueryPacket(target, p))
  }

  lemma QueryStaysForwardable(target: seq<byte>, p: seq<byte>)
    requires IsQuery(target, p)
    ensures var q := QueryPacket(target, p);
      && |q| == |p| && WellFormedV4(q) && HeaderLength(q) == HeaderLength(p) && q[8] == p[8]
      && (Forwardable(q) <==> p[8] >= 2)
  {
    hide Redirect;
    RedirectFrame(p, 16, target);
    RedirectShape(p, 16, target);
  }

  /** Once the tunnel is ready, exactly the queries that have a hop to spare and fit its buffers are sent. */
  lemma QuerySentIff(s: Gate.State, target: seq<byte>, p: seq<byte>)
    requires IsQuery(target, p) && s.tunnelReady && s.conn
    ensures |p| >= 20 && (Gate.Sends(s, QueryPacket(target, p)) <==> p[8] >= 2 && |p| <= 1499)
  {
    QueryStaysForwardable(target, p);
    hide QueryPacket, Forwardable;
  }

  /** The datagram of a query that is sent is accepted at the far end and yields the arriving packet. */
  lemma QueryReachesFarEnd(s: Gate.State, target: seq<byte>, p: seq<byte>)
    requires IsQuery(target, p) && Gate.Sends(s, QueryPacket(target, p))
    ensures Gate.PacketObs(s, QueryPacket(target, p)) == [Gate.Handed(s.datagramId, [0] + Arriving(target, p))]
    ensures Accepts([0] + Arriving(target, p))
    ensures DecodeVarint([0] + Arriving(target, p)) == Some(Decoded(0, 1))
    ensures ([0] + Arriving(target, p))[1..] == Arriving(target, p)
  {
    hide IsQuery, QueryPacket, Forwardable, Forwarded, WellFormed, Accepts, DecodeVarint;
    var q := QueryPacket(target, p);
    ParseInvertsCompose(q);
    ForwardedEffect(q);
  }

  /**
   What arrives is the query with the hijack target as its destination and one hop fewer; besides these and
   the two checksums nothing differs.
   */
  lemma ArrivingFrame(target: seq<byte>, p: seq<byte>)
    requires IsQuery(target, p) && p[8] >= 2
    ensures Forwardable(QueryPacket(target, p))
    ensures var f, n := Arriving(target, p), HeaderLength(p);
      && |f| == |p| && f[8] == p[8] - 1 && f[16..20] == target
      && (forall k :: 0 <= k < |p| && k != 8 && k != 10 && k != 11 && !(16 <= k < 20) && k != n + 6 && k != n + 7 ==>
            f[k] == p[k])
  {
    var q := QueryPacket(target, p);
    QueryStaysForwardable(target, p);
    assert q == Redirect(p, 16, target) && |target| == 4 && HeaderLength(p) >= 20 && IsUdp(p) && Version(q) == 4;
    hide QueryPacket, Redirect, HeaderLength, IsQuery, IsUdp, WellFormedV4, Forwardable, Version, Forwarded;
    RedirectFrame(p, 16, target);
    FrameOfForwarded(p, q, HeaderLength(p), target);
  }

  /** What the rewrite and the hop leave alone, taken together. */
  lemma FrameOfForwarded(p: seq<byte>, q: seq<byte>, n: nat, target: seq<byte>)
    requires Forwardable(q) && Version(q) == 4
    requires |p| == |q| && |p| >= 20 && |target| == 4 && n >= 20 && q[16..20] == target && q[8] == p[8]
    requires forall k :: 0 <= k < |p| && !(16 <= k < 20) && k != 10 && k != 11 && k != n + 6 && k != n + 7 ==>
      q[k] == p[k]
    ensures var f := Forwarded(q);
      && |f| == |p| && f[8] == p[8] - 1 && f[16..20] == target
      && (forall k :: 0 <= k < |p| && k != 8 && k != 10 && k != 11 && !(16 <= k < 20) && k != n + 6 && k != n + 7 ==>
            f[k] == p[k])
  {
    ForwardedEffect(q);
    hide Forwarded, Forwardable;
    assert Forwarded(q)[16..20] == q[16..20];
  }

  /** What the rewrite established about a query before the hop is taken off. */
  lemma RewrittenQuery(target: seq<byte>, p: seq<byte>, rest: seq<byte>)
    requires IsQuery(target, p)
    ensures var q, n := QueryPacket(target, p), HeaderLength(p);
      && |q| == |p| && 20 <= n && n + 8 <= |p| && HeaderLength(q) == n && Version(q) == 4
      && q[20..n] == p[20..n] && IsUdp(q)
      && (Accepted(q, rest) <==> Reconciles(p, rest))
  {
    hide Redirect, Verifies, Accepted, Reconciles;
    RedirectFrame(p, 16, target);
    RedirectVerifies(p, 16, target, rest);
    RedirectShape(p, 16, target);
    var q, n := Redirect(p, 16, target), HeaderLength(p);
    assert q[20..n] == p[20..n];
    hide HeaderLength;
  }

  /**
   On arrival, exactly: the first 20 octets of the header verify; the whole header does when its options sum
   to 0 modulo 0xffff; and the receiver accepts the datagram when its lengths reconcile, although a hop was
   taken off after its checksum was made.
   */
  lemma ArrivingVerifies(target: seq<byte>, p: seq<byte>, rest: seq<byte>)
    requires IsQuery(target, p) && p[8] >= 2
    ensures Forwardable(QueryPacket(target, p))
    ensures var f, n := Arriving(target, p), HeaderLength(p);
      && |f| == |p| && n + 8 <= |p|
      && Verifies(f[..20])
      && (Verifies(f[..n]) <==> WordSum(p[20..n]) % 0xffff == 0)
      && (Accepted(f, rest) <==> Reconciles(p, rest))
  {
    QueryStaysForwardable(target, p);
    RewrittenQuery(target, p, rest);
    hide IsQuery, QueryPacket, HeaderLength, Version, Verifies, Accepted, Reconciles, WordSum, Forwarded, WellFormed,
         WellFormedV4, IsUdp;
    var q := QueryPacket(target, p);
    ForwardedEffect(q);
    ForwardedOptions(q);
    AcceptedElsewhere(q, Forwarded(q), rest);
  }

  /** Without options the whole header verifies on arrival, and with equal lengths so does the datagram. */
  lemma PlainHeaderVerifies(target: seq<byte>, p: seq<byte>)
    requires IsQuery(target, p) && p[8] >= 2 && HeaderLength(p) == 20
    ensures Forwardable(QueryPacket(target, p))
    ensures HeaderLength(Arriving(target, p)) == 20 && Verifies(Arriving(target, p)[..20])
    ensures LengthField(p) as int == UdpLength(p) ==> UdpVerifies(Arriving(target, p))
  {
    ArrivingFrame(target, p);
    ArrivingVerifies(target, p, []);
    if LengthField(p) as int == UdpLength(p) {
      EqualLengthsReconcile(p, []);
    }
    hide Arriving, Verifies, Accepted, Reconciles;
  }

  /**
   The way back. Whenever `d` is what `c` can rely on, the hijack server's response to `c`, arriving in a
   datagram of its own after any run of other clients' traffic, is delivered as an answer of `d`, with nothing
   else changed but the checksums.
   */
  lemma AnswerComesBack(target: seq<byte>, t: seq<Pending>, c: Client, d: uint32, es: seq<Event>, r: seq<byte>)
    requires Stays(t, c, d) && OthersOnly(target, c, es)
    requires IsResponse(target, r) && Addressee(r) == c && |r| <= 65534
    ensures Accepts([0] + r) && DecodeVarint([0] + r) == Some(Decoded(0, 1)) && ([0] + r)[1..] == r
    ensures Restored(target, t, es, r, d)
  {
    hide Stays, OthersOnly, Restored, Accepts, DecodeVarint, Addressee;
    assert Enabled(target) && WellFormed(r);
    hide IsUdp, WellFormed, IsResponse;
    RestoredOverRunsIff(target, t, c, d);
    assert Restored(target, t, es, r, d);
    ContextZero(r);
  }
}
