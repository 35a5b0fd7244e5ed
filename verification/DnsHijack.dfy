/** The DNS hijack of dns_hijack.c: a small NAT that redirects DNS queries and restores their answers. */
module DnsHijack {
  import opened Bytes
  import opened IpHeader
  import opened UdpPacket

  const MAX_PENDING: nat := 256
  const DNS_PORT: uint16 := 53

  /** One remembered query: who asked, and which server it asked. */
  datatype Pending = Pending(srcIp: uint32, srcPort: uint16, origDst: uint32)

  datatype Client = Client(ip: uint32, port: uint16)

  function ClientOf(e: Pending): Client {
    Client(e.srcIp, e.srcPort)
  }

  // ---- specification of one packet ----

  /** Four octets in network order; all zero means that the hijack is disabled. */
  predicate Enabled(target: seq<byte>) {
    |target| == 4 && target != [0, 0, 0, 0]
  }

  predicate IsQuery(target: seq<byte>, p: seq<byte>) {
    Enabled(target) && IsUdp(p) && DestinationPort(p) == DNS_PORT
  }

  /** UDP from port 53 of the hijack target. */
  predicate IsResponse(target: seq<byte>, p: seq<byte>) {
    Enabled(target) && IsUdp(p) && SourcePort(p) == DNS_PORT && p[12..16] == target
  }

  /** What is remembered of a query. */
  function Asked(p: seq<byte>): Pending
    requires IsUdp(p)
  {
    Pending(Be32(p, 12), SourcePort(p), Be32(p, 16))
  }

  /** The client a response is addressed to. */
  function Addressee(p: seq<byte>): Client
    requires IsUdp(p)
  {
    Client(Be32(p, 16), DestinationPort(p))
  }

  /** The highest index whose entry belongs to `c`, or -1. */
  function LastMatch(t: seq<Pending>, c: Client): (i: int)
    ensures -1 <= i < |t|
    ensures i >= 0 ==> ClientOf(t[i]) == c
    ensures forall k :: i < k < |t| ==> ClientOf(t[k]) != c
  {
    if |t| == 0 then -1
    else if ClientOf(t[|t| - 1]) == c then |t| - 1
    else LastMatch(t[..|t| - 1], c)
  }

  /** Removal fills the hole with the last entry, so it reorders the table. */
  function SwapRemove<T>(t: seq<T>, i: nat): (r: seq<T>)
    requires i < |t|
    ensures |r| == |t| - 1
  {
    t[i := t[|t| - 1]][..|t| - 1]
  }

  function QueryPacket(target: seq<byte>, p: seq<byte>): seq<byte> {
    if IsQuery(target, p) then Redirect(p, 16, target) else p
  }

  /** A full table forgets the query, which is redirected all the same. */
  function QueryTable(target: seq<byte>, t: seq<Pending>, p: seq<byte>): seq<Pending> {
    if IsQuery(target, p) && |t| < MAX_PENDING then t + [Asked(p)] else t
  }

  predicate IsAnswered(target: seq<byte>, t: seq<Pending>, p: seq<byte>) {
    IsResponse(target, p) && LastMatch(t, Addressee(p)) >= 0
  }

  function ResponsePacket(target: seq<byte>, t: seq<Pending>, p: seq<byte>): seq<byte> {
    if IsAnswered(target, t, p) then Redirect(p, 12, Be32Bytes(t[LastMatch(t, Addressee(p))].origDst)) else p
  }

  function ResponseTable(target: seq<byte>, t: seq<Pending>, p: seq<byte>): seq<Pending> {
    if IsAnswered(target, t, p) then SwapRemove(t, LastMatch(t, Addressee(p))) else t
  }

  // ---- the same, in octets ----

  /** An IPv4 packet of protocol 17 whose header and Total Length lie inside it and leave at least 8 octets. */
  predicate UdpOctets(p: seq<byte>) {
    && |p| >= 20 && 0x40 <= p[0] < 0x50 && 5 <= p[0] % 0x10 && 4 * (p[0] % 0x10) <= |p| && p[9] == 17
    && 4 * (p[0] % 0x10) + 8 <= 0x100 * p[2] as int + p[3] as int <= |p|
  }

  function Number4(p: seq<byte>, i: nat): int
    requires i + 4 <= |p|
  {
    0x100_0000 * p[i] as int + 0x1_0000 * p[i + 1] as int + 0x100 * p[i + 2] as int + p[i + 3] as int
  }

  function Number2(p: seq<byte>, i: nat): int
    requires i + 2 <= |p|
  {
    0x100 * p[i] as int + p[i + 1] as int
  }

  lemma IsUdpByOctets(p: seq<byte>)
    ensures IsUdp(p) <==> UdpOctets(p)
    ensures UdpOctets(p) ==> 20 <= HeaderLength(p) == 4 * (p[0] % 0x10) <= |p| - 8
  {
  }

  /**
   A query is a UDP packet to port 53 while the hijack is enabled: its destination becomes the target, and its
   client and destination are appended to the table while that has fewer than 256 entries. Any other packet
   leaves packet and table as they are.
   */
  lemma QueryByOctets(target: seq<byte>, t: seq<Pending>, p: seq<byte>)
    requires |target| == 4
    ensures var n := if |p| > 0 then 4 * (p[0] % 0x10) else 0;
      if target != [0, 0, 0, 0] && UdpOctets(p) && p[n + 2] == 0 && p[n + 3] == 53 then
        && |QueryPacket(target, p)| == |p| && QueryPacket(target, p)[16..20] == target
        && QueryTable(target, t, p) ==
          if |t| < 256 then t + [Pending(Number4(p, 12), Number2(p, n), Number4(p, 16))] else t
      else QueryPacket(target, p) == p && QueryTable(target, t, p) == t
  {
    IsUdpByOctets(p);
    if IsQuery(target, p) {
      hide Redirect;
      RedirectFrame(p, 16, target);
    }
    hide IsUdp, Redirect, HeaderLength;
  }

  /** Entry `k` remembers a query of the client that the response `p` is addressed to. */
  predicate AnswersEntry(t: seq<Pending>, p: seq<byte>, k: int)
    requires UdpOctets(p)
  {
    && 0 <= k < |t| && t[k].srcIp == Number4(p, 16)
    && t[k].srcPort == Number2(p, 4 * (p[0] % 0x10) + 2)
  }

  lemma LastEntry(t: seq<Pending>, p: seq<byte>)
    requires UdpOctets(p) && IsUdp(p)
    ensures forall k :: AnswersEntry(t, p, k) <==> 0 <= k < |t| && ClientOf(t[k]) == Addressee(p)
  {
    IsUdpByOctets(p);
    hide IsUdp, HeaderLength;
  }

  /**
   A response is a UDP packet from port 53 of the target while the hijack is enabled. If the table has an entry
   of the client it goes to, the highest such entry gives the new source and is replaced by the last one. Any
   other packet leaves packet and table as they are.
   */
  lemma ResponseByOctets(target: seq<byte>, t: seq<Pending>, p: seq<byte>) returns (i: int)
    requires |target| == 4
    ensures var n := if |p| > 0 then 4 * (p[0] % 0x10) else 0;
      var r, u := ResponsePacket(target, t, p), ResponseTable(target, t, p);
      if target != [0, 0, 0, 0] && UdpOctets(p) && p[n] == 0 && p[n + 1] == 53 && p[12..16] == target
         && exists k :: AnswersEntry(t, p, k) then
        && AnswersEntry(t, p, i) && (forall k :: AnswersEntry(t, p, k) ==> k <= i)
        && |r| == |p| && Number4(r, 12) == t[i].origDst
        && |u| == |t| - 1 && (forall k :: 0 <= k < |u| ==> u[k] == if k == i then t[|t| - 1] else t[k])
      else r == p && u == t
  {
    i := -1;
    ResponseTests(target, t, p);
    hide IsUdp, UdpOctets, HeaderLength, Number4, AnswersEntry, Redirect, Be32Bytes, IsResponse;
    if IsAnswered(target, t, p) {
      i := LastMatch(t, Addressee(p));
      var d := t[i].origDst;
      RestoredOctets(p, d);
    }
  }

  /** Which responses are answered, and by which entry. */
  lemma ResponseTests(target: seq<byte>, t: seq<Pending>, p: seq<byte>)
    requires |target| == 4
    ensures var n := if |p| > 0 then 4 * (p[0] % 0x10) else 0;
      IsAnswered(target, t, p) <==>
        target != [0, 0, 0, 0] && UdpOctets(p) && p[n] == 0 && p[n + 1] == 53 && p[12..16] == target
        && exists k :: AnswersEntry(t, p, k)
    ensures IsAnswered(target, t, p) ==>
      UdpOctets(p) && forall k :: AnswersEntry(t, p, k) <==> 0 <= k < |t| && ClientOf(t[k]) == Addressee(p)
  {
    IsUdpByOctets(p);
    if UdpOctets(p) {
      LastEntry(t, p);
    }
    hide IsUdp, Number4, AnswersEntry, Number2, Addressee, HeaderLength;
  }

  lemma RestoredOctets(p: seq<byte>, d: uint32)
    requires IsUdp(p)
    ensures var r := Redirect(p, 12, Be32Bytes(d)); |r| == |p| >= 20 && Number4(r, 12) == d
  {
    RedirectFrame(p, 12, Be32Bytes(d));
    hide Redirect, Be32Bytes, Number4;
    RestoredNumber(Redirect(p, 12, Be32Bytes(d)), d);
  }

  lemma RestoredNumber(r: seq<byte>, d: uint32)
    requires |r| >= 16 && r[12..16] == Be32Bytes(d)
    ensures Number4(r, 12) == d
  {
    Be32RoundTrip(d);
    var b := r[12..16];
    assert r[12] == b[0] && r[13] == b[1] && r[14] == b[2] && r[15] == b[3];
  }

  // ---- the code ----

  class Hijack {
    const hijackV4: seq<byte>
    const pending: array<Pending>
    var pendingCount: nat

    ghost predicate Valid()
      reads this
    {
      |hijackV4| == 4 && pending.Length == MAX_PENDING && pendingCount <= MAX_PENDING
    }

    /** The live part of the table. */
    ghost function Table(): seq<Pending>
      requires Valid()
      reads this, pending
    {
      pending[..pendingCount]
    }

    /** `usque_dns_hijack_create`, with the address already parsed; no address leaves the hijack disabled. */
    constructor (v4: Option<uint32>)
      ensures Valid() && Table() == [] && fresh(pending)
      ensures hijackV4 == if v4.Some? then Be32Bytes(v4.value) else [0, 0, 0, 0]
    {
      hijackV4 := if v4.Some? then Be32Bytes(v4.value) else [0, 0, 0, 0];
      pending := new Pending[MAX_PENDING](_ => Pending(0, 0, 0));
      pendingCount := 0;
    }

    /** Save a mapping while there is room. */
    method Record(e: Pending)
      requires Valid()
      modifies this`pendingCount, pending
      ensures Valid()
      ensures Table() == if |old(Table())| < MAX_PENDING then old(Table()) + [e] else old(Table())
    {
      if pendingCount < MAX_PENDING {
        pending[pendingCount] := e;
        pendingCount := pendingCount + 1;
      }
    }

    /** The backward search over the live entries. */
    method Find(dstIp: uint32, dstPort: uint16) returns (i: int)
      requires Valid()
      ensures i == LastMatch(Table(), Client(dstIp, dstPort))
    {
      ghost var t := Table();
      i := pendingCount - 1;
      assert t[..i + 1] == t;
      while i >= 0
        invariant -1 <= i < pendingCount
        invariant LastMatch(t[..i + 1], Client(dstIp, dstPort)) == LastMatch(t, Client(dstIp, dstPort))
      {
        assert t[..i + 1][..i] == t[..i];
        if pending[i].srcIp == dstIp && pending[i].srcPort == dstPort { return; }
        i := i - 1;
      }
    }

    /** `pending[i] = pending[--pending_count]`. */
    method Remove(i: nat)
      requires Valid() && i < pendingCount
      modifies this`pendingCount, pending
      ensures Valid()
      ensures Table() == SwapRemove(old(Table()), i)
    {
      pendingCount := pendingCount - 1;
      pending[i] := pending[pendingCount];
    }

    /** `usque_dns_hijack_rewrite_query`. */
    method RewriteQuery(pkt: array<byte>, pktLen: nat) returns (rewritten: bool)
      requires Valid() && pktLen <= pkt.Length
      modifies this`pendingCount, pending, pkt
      ensures Valid()
      ensures rewritten == IsQuery(hijackV4, old(pkt[..pktLen]))
      ensures pkt[..pktLen] == QueryPacket(hijackV4, old(pkt[..pktLen]))
      ensures pkt[pktLen..] == old(pkt[pktLen..])
      ensures Table() == QueryTable(hijackV4, old(Table()), old(pkt[..pktLen]))
    {
      hide Redirect, HeaderLength, Be32;
      ghost var p := pkt[..pktLen];
      if hijackV4 == [0, 0, 0, 0] { return false; }
      var udp, ihl, udpLen := ParseUdp(pkt, pktLen);
      if !udp { return false; }
      var dstPort := Word(pkt[ihl + 2], pkt[ihl + 3]);
      if dstPort != DNS_PORT { return false; }

      var srcIp := ReadBe32(pkt, 12);
      var srcPort := Word(pkt[ihl], pkt[ihl + 1]);
      var origDst := ReadBe32(pkt, 16);
      var e := Pending(srcIp, srcPort, origDst);
      assert e == Asked(p);
      Record(e);
      RedirectInPlace(pkt, pktLen, ihl, udpLen, 16, hijackV4);
      return true;
    }

    /** `usque_dns_hijack_rewrite_response`. */
    method RewriteResponse(pkt: array<byte>, pktLen: nat) returns (rewritten: bool)
      requires Valid() && pktLen <= pkt.Length
      modifies this`pendingCount, pending, pkt
      ensures Valid()
      ensures rewritten == IsAnswered(hijackV4, old(Table()), old(pkt[..pktLen]))
      ensures pkt[..pktLen] == ResponsePacket(hijackV4, old(Table()), old(pkt[..pktLen]))
      ensures pkt[pktLen..] == old(pkt[pktLen..])
      ensures Table() == ResponseTable(hijackV4, old(Table()), old(pkt[..pktLen]))
    {
      hide Redirect, HeaderLength, Be32, LastMatch, SwapRemove, Be32Bytes;
      ghost var p := pkt[..pktLen];
      if hijackV4 == [0, 0, 0, 0] { return false; }
      var udp, ihl, udpLen := ParseUdp(pkt, pktLen);
      if !udp { return false; }
      if Word(pkt[ihl], pkt[ihl + 1]) != DNS_PORT { return false; }
      var fromTarget := SameOctets(pkt, 12, hijackV4, pktLen);
      if !fromTarget { return false; }

      var dstIp := ReadBe32(pkt, 16);
      var dstPort := Word(pkt[ihl + 2], pkt[ihl + 3]);
      assert Client(dstIp, dstPort) == Addressee(p);
      var i := Find(dstIp, dstPort);
      if i < 0 { return false; }
      var origDst := pending[i].origDst;
      Remove(i);
      RedirectInPlace(pkt, pktLen, ihl, udpLen, 12, Be32Bytes(origDst));
      return true;
    }
  }

  /** `memcmp` against octets of a packet that fills the first `len` octets. */
  method SameOctets(a: array<byte>, i: nat, t: seq<byte>, ghost len: nat) returns (same: bool)
    requires i + |t| <= len <= a.Length
    ensures same == (a[..len][i..i + |t|] == t)
  {
    ghost var s := a[..len][i..i + |t|];
    same := true;
    for k := 0 to |t|
      invariant same == (s[..k] == t[..k])
    {
      assert s[..k + 1] == s[..k] + [s[k]] && t[..k + 1] == t[..k] + [t[k]];
      same := same && a[i + k] == t[k];
    }
    assert s[..|t|] == s && t[..|t|] == t;
  }

  method ReadBe32(a: array<byte>, i: nat) returns (v: uint32)
    requires i + 4 <= a.Length
    ensures v == Be32(a[..], i)
    ensures forall n :: i + 4 <= n <= a.Length ==> v == Be32(a[..n], i)
  {
    v := Word(a[i], a[i + 1]) as int * 0x1_0000 + Word(a[i + 2], a[i + 3]) as int;
  }
}
