/** IPv4/UDP packets: the fields dns_hijack.c reads and the UDP checksum it recomputes. */
module UdpPacket {
  import opened Bytes
  import opened OnesComplement
  import opened IpHeader

  /** Octets behind the IPv4 header, by the Total Length. The Length field of the UDP header is not read. */
  function UdpLength(p: seq<byte>): int
    requires |p| >= IPV4_HEADER_LENGTH
  {
    Be16(p, 2) as int - HeaderLength(p)
  }

  /** The tests that both rewrites start with. */
  predicate IsUdp(p: seq<byte>) {
    WellFormedV4(p) && p[9] == 17 && UdpLength(p) >= 8
  }

  function SourcePort(p: seq<byte>): uint16
    requires IsUdp(p)
  {
    Be16(p, HeaderLength(p))
  }

  function DestinationPort(p: seq<byte>): uint16
    requires IsUdp(p)
  {
    Be16(p, HeaderLength(p) + 2)
  }

  function Segment(p: seq<byte>): seq<byte>
    requires IsUdp(p)
  {
    p[HeaderLength(p)..Be16(p, 2)]
  }

  /** The pseudo-header as the code sums it, with a length taken from the Total Length. */
  function PseudoHeader(p: seq<byte>): (h: seq<byte>)
    requires IsUdp(p)
  {
    p[12..20] + [0, 17] + Be16Bytes(UdpLength(p))
  }

  /** The sum that the code makes verify: over all octets that the Total Length leaves behind the header. */
  predicate SegmentVerifies(p: seq<byte>) {
    IsUdp(p) && Verifies(PseudoHeader(p) + Segment(p))
  }

  /** The checksum of pseudo-header and segment, with 0xffff in place of a computed 0. */
  function UdpChecksum(p: seq<byte>): (c: uint16)
    requires IsUdp(p)
  {
    var f := Fold(WordSum(PseudoHeader(p)) + WordSum(Segment(p)));
    if f == 0xffff then 0xffff else 0xffff - f
  }

  function ZeroUdpChecksum(p: seq<byte>): (r: seq<byte>)
    requires IsUdp(p)
    ensures |r| == |p| && IsUdp(r) && HeaderLength(r) == HeaderLength(p)
  {
    Put(p, HeaderLength(p) + 6, [0, 0])
  }

  /** `p` with its UDP checksum recomputed. */
  function RefreshUdp(p: seq<byte>): (r: seq<byte>)
    requires IsUdp(p)
  {
    var z := ZeroUdpChecksum(p);
    Put(z, HeaderLength(p) + 6, Be16Bytes(UdpChecksum(z)))
  }

  /** `p` with the address at offset `at` replaced and both checksums recomputed. */
  function Redirect(p: seq<byte>, at: nat, address: seq<byte>): (r: seq<byte>)
    requires IsUdp(p) && at in {12, 16} && |address| == 4
  {
    RefreshUdp(RefreshChecksum(Put(p, at, address)))
  }

  // ---- theorems ----

  /** The UDP tests and lengths depend on four octets only. */
  lemma SameShape(p: seq<byte>, q: seq<byte>)
    requires IsUdp(p) && |q| == |p|
    requires q[0] == p[0] && q[2] == p[2] && q[3] == p[3] && q[9] == p[9]
    ensures IsUdp(q) && HeaderLength(q) == HeaderLength(p) && UdpLength(q) == UdpLength(p)
    ensures HeaderLength(p) >= 20 && HeaderLength(p) + 8 <= Be16(p, 2) as int <= |p|
  {
  }

  lemma RefreshUdpEffect(p: seq<byte>)
    requires IsUdp(p)
    ensures var r, n := RefreshUdp(p), HeaderLength(p);
      && |r| == |p| && IsUdp(r) && HeaderLength(r) == n && UdpLength(r) == UdpLength(p)
      && (forall k :: 0 <= k < |p| && k != n + 6 && k != n + 7 ==> r[k] == p[k])
  {
    SameShape(p, RefreshUdp(p));
  }

  /** Writing inside the segment leaves the pseudo-header alone. */
  lemma PutInSegment(z: seq<byte>, i: nat, t: seq<byte>)
    requires IsUdp(z) && i + |t| <= UdpLength(z)
    ensures var r := Put(z, HeaderLength(z) + i, t);
      && IsUdp(r) && HeaderLength(r) == HeaderLength(z)
      && Segment(r) == Put(Segment(z), i, t) && PseudoHeader(r) == PseudoHeader(z)
  {
    var r := Put(z, HeaderLength(z) + i, t);
    SameShape(z, r);
    hide HeaderLength, Version, Be16Bytes;
    assert r[12..20] == z[12..20];
  }

  /** The code's sum verifies, and the checksum is never 0, which would mean that none was computed (RFC 768). */
  lemma RefreshedSegmentVerifies(p: seq<byte>)
    requires IsUdp(p)
    ensures SegmentVerifies(RefreshUdp(p))
    ensures Be16(RefreshUdp(p), HeaderLength(p) + 6) != 0
  {
    var z, r, n := ZeroUdpChecksum(p), RefreshUdp(p), HeaderLength(p);
    var w := UdpChecksum(z);
    Be16RoundTrip(w);
    assert Be16(r, n + 6) == w != 0;
    PutInSegment(z, 6, Be16Bytes(w));
    assert Be16(Segment(z), 6) == 0;
    assert |PseudoHeader(z)| == 12;
    StoredBehindPseudoHeader(PseudoHeader(z), Segment(z), 6, w);
  }

  /** Redirecting changes the address, the header checksum and the UDP checksum, and nothing else. */
  lemma RedirectFrame(p: seq<byte>, at: nat, address: seq<byte>)
    requires IsUdp(p) && at in {12, 16} && |address| == 4
    ensures var r, n := Redirect(p, at, address), HeaderLength(p);
      && |r| == |p| && r[at..at + 4] == address
      && (forall k :: 0 <= k < |p| && !(at <= k < at + 4) && k != 10 && k != 11 && k != n + 6 && k != n + 7 ==>
            r[k] == p[k])
  {
    var a := Put(p, at, address);
    var h := RefreshChecksum(a);
    SameShape(p, a);
    SameShape(p, h);
    RefreshUdpEffect(h);
    ThreePuts(p, at, address, Be16Bytes(HeaderChecksum(a)), RefreshUdp(h), HeaderLength(p) + 6);
  }

  lemma ThreePuts(p: seq<byte>, at: nat, address: seq<byte>, checksum: seq<byte>, r: seq<byte>, last: nat)
    requires at in {12, 16} && |address| == 4 && |checksum| == 2 && 20 <= last && last + 2 <= |p| == |r|
    requires forall k :: 0 <= k < |p| && k != last && k != last + 1 ==>
      r[k] == Put(Put(p, at, address), 10, checksum)[k]
    ensures r[at..at + 4] == address
    ensures forall k :: 0 <= k < |p| && !(at <= k < at + 4) && k != 10 && k != 11 && k != last && k != last + 1 ==>
      r[k] == p[k]
  {
  }

  lemma RedirectShape(p: seq<byte>, at: nat, address: seq<byte>)
    requires IsUdp(p) && at in {12, 16} && |address| == 4
    ensures var r := Redirect(p, at, address);
      && IsUdp(r) && HeaderLength(r) == HeaderLength(p) && UdpLength(r) == UdpLength(p)
      && SourcePort(r) == SourcePort(p) && DestinationPort(r) == DestinationPort(p)
  {
    hide Redirect;
    var r, n := Redirect(p, at, address), HeaderLength(p);
    RedirectFrame(p, at, address);
    assert r[0] == p[0] && r[2] == p[2] && r[3] == p[3] && r[9] == p[9];
    SameShape(p, r);
    hide HeaderLength, Version;
    assert r[n] == p[n] && r[n + 1] == p[n + 1] && r[n + 2] == p[n + 2] && r[n + 3] == p[n + 3];
  }

  /** After redirecting, the sums over 20 octets and over the segment verify; over the header, it depends. */
  lemma RedirectSums(p: seq<byte>, at: nat, address: seq<byte>)
    requires IsUdp(p) && at in {12, 16} && |address| == 4
    ensures var r, n := Redirect(p, at, address), HeaderLength(p);
      && |r| == |p| && n + 8 <= |p|
      && Verifies(r[..20])
      && (Verifies(r[..n]) <==> WordSum(p[20..n]) % 0xffff == 0)
      && SegmentVerifies(r) && Be16(r, n + 6) != 0
  {
    var a := Put(p, at, address);
    var h := RefreshChecksum(a);
    var r, n := RefreshUdp(h), HeaderLength(p);
    SameShape(p, a);
    SameShape(p, h);
    RefreshedHeaderVerifies(a);
    FullHeaderVerifiesIff(a);
    RefreshUdpEffect(h);
    RefreshedSegmentVerifies(h);
    hide Verifies, SegmentVerifies, RefreshUdp, HeaderChecksum, Be16Bytes, WordSum, HeaderLength, Version;
    assert r[..20] == h[..20] && r[..n] == h[..n];
    assert a[20..n] == p[20..n];
  }

  // ---- the code ----

  lemma PseudoHeaderWords(p: seq<byte>)
    requires IsUdp(p)
    ensures WordSum(PseudoHeader(p)) ==
      Be16(p, 12) + Be16(p, 14) + Be16(p, 16) + Be16(p, 18) + 17 + UdpLength(p)
  {
    var h := PseudoHeader(p);
    Be16RoundTrip(UdpLength(p));
    assert SumFrom(h, 10) == UdpLength(p) by { assert SumFrom(h, 12) == 0; }
    assert SumFrom(h, 8) == 17 + UdpLength(p);
    assert SumFrom(h, 6) == Be16(p, 18) + SumFrom(h, 8);
    assert SumFrom(h, 4) == Be16(p, 16) + SumFrom(h, 6);
    assert SumFrom(h, 2) == Be16(p, 14) + SumFrom(h, 4);
    assert SumFrom(h, 0) == Be16(p, 12) + SumFrom(h, 2);
    SumFromStart(h);
  }

  /** `udp_checksum` of dns_hijack.c over a packet that fills the first `len` octets. */
  method ComputeUdpChecksum(pkt: array<byte>, ghost len: nat, ihl: nat, udpLen: nat) returns (c: uint16)
    requires len <= pkt.Length && IsUdp(pkt[..len])
    requires ihl == HeaderLength(pkt[..len]) && udpLen == UdpLength(pkt[..len])
    ensures c == UdpChecksum(pkt[..len])
  {
    ghost var p := pkt[..len];
    PseudoHeaderWords(p);
    var sum: uint32 := Word(pkt[12], pkt[13]);
    sum := sum + Word(pkt[14], pkt[15]);
    sum := sum + Word(pkt[16], pkt[17]);
    sum := sum + Word(pkt[18], pkt[19]);
    sum := sum + 17;
    sum := sum + udpLen;
    sum := AddWords(pkt, ihl, ihl + udpLen, sum);
    assert pkt[ihl..ihl + udpLen] == Segment(p);
    c := FoldComplement(sum);
    c := if c == 0 then 0xffff else c;
  }

  /** Zero the checksum field, recompute it and store it. */
  method WriteUdpChecksum(pkt: array<byte>, ghost len: nat, ihl: nat, udpLen: nat)
    requires len <= pkt.Length && IsUdp(pkt[..len])
    requires ihl == HeaderLength(pkt[..len]) && udpLen == UdpLength(pkt[..len])
    modifies pkt
    ensures pkt[..len] == RefreshUdp(old(pkt[..len]))
    ensures pkt[len..] == old(pkt[len..])
  {
    hide UdpChecksum;
    CopyInto(pkt, len, ihl + 6, [0, 0]);
    var c := ComputeUdpChecksum(pkt, len, ihl, udpLen);
    CopyInto(pkt, len, ihl + 6, [c / 0x100, c % 0x100]);
  }

  /** Replace the address at offset `at` and recompute both checksums, in place. */
  method RedirectInPlace(pkt: array<byte>, ghost len: nat, ihl: nat, udpLen: nat, at: nat, address: seq<byte>)
    requires len <= pkt.Length && IsUdp(pkt[..len]) && at in {12, 16} && |address| == 4
    requires ihl == HeaderLength(pkt[..len]) && udpLen == UdpLength(pkt[..len])
    modifies pkt
    ensures pkt[..len] == Redirect(old(pkt[..len]), at, address)
    ensures pkt[len..] == old(pkt[len..])
  {
    CopyInto(pkt, len, at, address);
    WriteHeaderChecksum(pkt, len);
    WriteUdpChecksum(pkt, len, ihl, udpLen);
  }

  /** The tests that both rewrites of dns_hijack.c start with. */
  method ParseUdp(pkt: array<byte>, pktLen: nat) returns (ok: bool, ihl: nat, udpLen: nat)
    requires pktLen <= pkt.Length
    ensures ok == IsUdp(pkt[..pktLen])
    ensures ok ==> ihl == HeaderLength(pkt[..pktLen]) && udpLen == UdpLength(pkt[..pktLen])
    ensures ok ==> 20 <= ihl && ihl + 8 <= ihl + udpLen <= pktLen
  {
    ok, ihl, udpLen := false, 0, 0;
    if pktLen < 20 { return; }
    if pkt[0] / 0x10 != 4 { return; }
    ihl := pkt[0] % 0x10 * 4;
    if ihl < 20 || pktLen < ihl { return; }
    if pkt[9] != 17 { return; }
    var totalLen: int := Word(pkt[2], pkt[3]);
    if totalLen > pktLen { return; }
    if totalLen - ihl < 8 { return; }
    ok, udpLen := true, totalLen - ihl;
  }
}
