/** CONNECT-IP datagrams (RFC 9484, section 6): composing them from IP packets and parsing them back. */
module ConnectIp {
  import opened Bytes
  import opened OnesComplement
  import opened IpHeader
  import opened Varint

  /** The return codes CIP_OK and CIP_ERR_*. */
  datatype Status = Ok | Empty | TooShort | BadVersion | Ttl | ContextId | Overflow {
    function Code(): int {
      match this
      case Ok => 0
      case Empty => -1
      case TooShort => -2
      case BadVersion => -3
      case Ttl => -4
      case ContextId => -5
      case Overflow => -6
    }
  }

  // ---- specification ----

  /** TTL of IPv4, Hop Limit of IPv6. */
  function HopsLeft(p: seq<byte>): byte
    requires WellFormed(p)
  {
    if Version(p) == 4 then p[8] else p[7]
  }

  /** The packets that survive one more hop. */
  predicate Forwardable(p: seq<byte>) {
    WellFormed(p) && HopsLeft(p) >= 2
  }

  /** One hop fewer, and for IPv4 a header checksum to match. */
  function Forwarded(p: seq<byte>): (r: seq<byte>)
    requires Forwardable(p)
  {
    if Version(p) == 4 then RefreshChecksum(p[8 := p[8] - 1]) else p[7 := p[7] - 1]
  }

  /** Why a packet that is not forwardable is turned away. */
  function Rejection(p: seq<byte>): Status
    requires !Forwardable(p)
  {
    if |p| == 0 then Empty
    else if Version(p) !in {4, 6} then BadVersion
    else if WellFormed(p) then Ttl
    else TooShort
  }

  // ---- compose ----

  /** The version switch of `cip_compose_datagram`: validates the packet and takes one hop off in place. */
  method TakeHop(pkt: array<byte>, pktLen: nat) returns (status: Status)
    requires pktLen <= pkt.Length
    modifies pkt
    ensures status == if Forwardable(old(pkt[..pktLen])) then Ok else Rejection(old(pkt[..pktLen]))
    ensures pkt[..pktLen] ==
      if Forwardable(old(pkt[..pktLen])) then Forwarded(old(pkt[..pktLen])) else old(pkt[..pktLen])
    ensures pkt[pktLen..] == old(pkt[pktLen..])
  {
    ghost var p := pkt[..pktLen];
    if pktLen == 0 { return Empty; }
    var version := pkt[0] / 0x10;
    if version == 4 {
      if pktLen < IPV4_HEADER_LENGTH { return TooShort; }
      var headerLength := pkt[0] % 0x10 * 4;
      if headerLength < IPV4_HEADER_LENGTH || headerLength > pktLen { return TooShort; }
      if Word(pkt[2], pkt[3]) > pktLen { return TooShort; }
      if pkt[8] <= 1 { return Ttl; }
      pkt[8] := pkt[8] - 1;
      assert pkt[..pktLen] == p[8 := p[8] - 1];
      WriteHeaderChecksum(pkt, pktLen);
    } else if version == 6 {
      if pktLen < IPV6_HEADER_LENGTH { return TooShort; }
      if Word(pkt[4], pkt[5]) as int + IPV6_HEADER_LENGTH > pktLen { return TooShort; }
      if pkt[7] <= 1 { return Ttl; }
      pkt[7] := pkt[7] - 1;
      assert pkt[..pktLen] == Forwarded(p);
    } else {
      return BadVersion;
    }
    return Ok;
  }

  /**
   `cip_compose_datagram`. The header file promises that the packet is not modified on error; it is, exactly
   when the error is an overflow, since the capacity of `out` is checked after the rewriting.
   */
  method ComposeDatagram(out: array<byte>, pkt: array<byte>, pktLen: nat) returns (status: Status, outLen: nat)
    requires pktLen <= pkt.Length && out != pkt
    modifies out, pkt
    ensures status == Ok <==> Forwardable(old(pkt[..pktLen])) && pktLen + 1 <= out.Length
    ensures status == Overflow <==> Forwardable(old(pkt[..pktLen])) && pktLen + 1 > out.Length
    ensures !Forwardable(old(pkt[..pktLen])) ==> status == Rejection(old(pkt[..pktLen]))
    ensures pkt[..pktLen] ==
      if Forwardable(old(pkt[..pktLen])) then Forwarded(old(pkt[..pktLen])) else old(pkt[..pktLen])
    ensures pkt[pktLen..] == old(pkt[pktLen..])
    ensures status != Ok ==> (pkt[..pktLen] == old(pkt[..pktLen]) <==> status != Overflow)
    ensures var p := old(pkt[..pktLen]);
      status.Code() ==
        if |p| == 0 then -1
        else if p[0] / 0x10 == 4 then
          if |p| < 20 || p[0] % 0x10 < 5 || 4 * (p[0] % 0x10) > |p| || 0x100 * p[2] as int + p[3] as int > |p| then -2
          else if p[8] <= 1 then -4
          else if |p| + 1 > out.Length then -6 else 0
        else if p[0] / 0x10 == 6 then
          if |p| < 40 || 0x100 * p[4] as int + p[5] as int + 40 > |p| then -2
          else if p[7] <= 1 then -4
          else if |p| + 1 > out.Length then -6 else 0
        else -3
    ensures status == Ok ==>
      outLen == pktLen + 1 && out[..] == Put(old(out[..]), 0, [0] + Forwarded(old(pkt[..pktLen])))
    ensures status != Ok ==> outLen == 0 && out[..] == old(out[..])
  {
    ghost var p := pkt[..pktLen];
    status := TakeHop(pkt, pktLen);
    if Forwardable(p) {
      ForwardedEffect(p);
    }
    outLen := 0;
    if status != Ok { return; }
    var needed := 1 + pktLen;
    if out.Length < needed { return Overflow, outLen; }
    out[0] := 0;
    Memcpy(out, 1, pkt[..pktLen]);
    return Ok, needed;
  }

  // ---- in octets ----

  /** A header that is consistent with the length, read off the octets. */
  predicate Consistent(p: seq<byte>) {
    || (|p| >= 20 && 0x40 <= p[0] < 0x50 && 5 <= p[0] % 0x10 && 4 * (p[0] % 0x10) <= |p|
        && 0x100 * p[2] as int + p[3] as int <= |p|)
    || (|p| >= 40 && 0x60 <= p[0] < 0x70 && 0x100 * p[4] as int + p[5] as int + 40 <= |p|)
  }

  lemma ConsistentOctets(p: seq<byte>)
    ensures WellFormed(p) <==> Consistent(p)
  {
  }

  /** Which packets compose lets through, and what it makes of the hop count, read off the octets. */
  lemma ForwardableOctets(p: seq<byte>)
    ensures Forwardable(p) <==>
      || (|p| >= 20 && 0x40 <= p[0] < 0x50 && 5 <= p[0] % 0x10 && 4 * (p[0] % 0x10) <= |p|
          && 0x100 * p[2] as int + p[3] as int <= |p| && p[8] >= 2)
      || (|p| >= 40 && 0x60 <= p[0] < 0x70 && 0x100 * p[4] as int + p[5] as int + 40 <= |p| && p[7] >= 2)
    ensures Forwardable(p) && p[0] < 0x50 ==> |Forwarded(p)| == |p| >= 20 && Forwarded(p)[8] == p[8] - 1
    ensures Forwardable(p) && p[0] >= 0x60 ==> |p| >= 40 && Forwarded(p) == p[7 := p[7] - 1]
  {
    if Forwardable(p) {
      ForwardedEffect(p);
    }
  }

  // ---- what forwarding does to a packet ----

  /** Only the hop count and, for IPv4, the header checksum change; the first 20 IPv4 octets then verify. */
  lemma ForwardedEffect(p: seq<byte>)
    requires Forwardable(p)
    ensures |Forwarded(p)| == |p| && WellFormed(Forwarded(p))
    ensures HopsLeft(Forwarded(p)) == HopsLeft(p) - 1
    ensures Version(Forwarded(p)) == Version(p)
    ensures Version(p) == 4 ==> Verifies(Forwarded(p)[..20])
    ensures Version(p) == 4 ==>
      forall k :: 0 <= k < |p| && k != 8 && k != 10 && k != 11 ==> Forwarded(p)[k] == p[k]
    ensures Version(p) == 6 ==> forall k :: 0 <= k < |p| && k != 7 ==> Forwarded(p)[k] == p[k]
  {
    if Version(p) == 4 {
      RefreshedHeaderVerifies(p[8 := p[8] - 1]);
    }
  }

  /** The whole IPv4 header verifies after forwarding exactly when its options sum to 0 modulo 0xffff. */
  lemma ForwardedOptions(p: seq<byte>)
    requires Forwardable(p) && Version(p) == 4
    ensures Verifies(Forwarded(p)[..HeaderLength(p)]) <==> WordSum(p[20..HeaderLength(p)]) % 0xffff == 0
  {
    var q := p[8 := p[8] - 1];
    FullHeaderVerifiesIff(q);
    assert q[20..HeaderLength(p)] == p[20..HeaderLength(p)];
  }

  /** A packet and a buffer of its own size: compose answers Overflow and has taken a hop off the packet. */
  lemma OverflowTakesHop()
    ensures var p: seq<byte> := [0x45, 0, 0, 20, 0, 0, 0, 0, 64, 0, 0, 0, 10, 0, 0, 1, 10, 0, 0, 2];
      |p| == 20 && Forwardable(p) && |p| + 1 > 20 && Forwarded(p)[8] == 63
  {
    var p: seq<byte> := [0x45, 0, 0, 20, 0, 0, 0, 0, 64, 0, 0, 0, 10, 0, 0, 1, 10, 0, 0, 2];
    assert Forwardable(p);
    ForwardedEffect(p);
  }

  // ---- parse ----

  /** A datagram of context 0 that carries a consistent IP packet. */
  predicate Accepts(d: seq<byte>) {
    var v := DecodeVarint(d);
    v.Some? && v.value.value == 0 && v.value.length <= |d| && WellFormed(d[v.value.length..])
  }

  /**
   `cip_parse_datagram`. The packet is not copied: `offset` is where it starts in the datagram.
   */
  method ParseDatagram(d: array<byte>) returns (status: Status, offset: nat, len: nat)
    ensures status == Ok <==> Accepts(d[..])
    ensures status == Ok ==>
      DecodeVarint(d[..]) == Some(Decoded(0, offset)) && offset + len == d.Length && WellFormed(d[offset..])
    ensures status == ContextId <==> DecodeVarint(d[..]).Some? && DecodeVarint(d[..]).value.value != 0
    ensures status == Empty <==> d.Length == 0 || DecodeVarint(d[..]) == Some(Decoded(0, d.Length))
    ensures status == BadVersion <==>
      exists n :: 0 <= n < d.Length && DecodeVarint(d[..]) == Some(Decoded(0, n)) && Version(d[n..]) !in {4, 6}
    ensures status !in {Ttl, Overflow}
  {
    offset, len := 0, 0;
    if d.Length == 0 { return Empty, offset, len; }
    var n, contextId := Varint.Decode(d);
    if n == 0 { return TooShort, offset, len; }
    EncodingIsShortest(d[..]);
    if contextId != 0 { return ContextId, offset, len; }
    var remaining := d.Length - n;
    if remaining == 0 { return Empty, offset, len; }
    ghost var ip := d[n..];
    assert ip == d[..][n..];
    var version := d[n] / 0x10;
    if version != 4 && version != 6 { return BadVersion, offset, len; }
    if version == 4 {
      if remaining < IPV4_HEADER_LENGTH { return TooShort, offset, len; }
      var headerLength := d[n] % 0x10 * 4;
      if headerLength < IPV4_HEADER_LENGTH || headerLength > remaining { return TooShort, offset, len; }
      if Word(d[n + 2], d[n + 3]) > remaining { return TooShort, offset, len; }
    } else {
      if remaining < IPV6_HEADER_LENGTH { return TooShort, offset, len; }
      if Word(d[n + 4], d[n + 5]) as int + IPV6_HEADER_LENGTH > remaining { return TooShort, offset, len; }
    }
    return Ok, n, remaining;
  }

  /**
   Acceptance, exactly, in octets: one of the four encodings of 0, then a structurally consistent packet.
   (The length test of the varint decoder is made on the datagram length cast to a 32-bit int.)
   */
  lemma AcceptsExactly(d: seq<byte>)
    ensures Accepts(d) <==> exists n :: 0 < n <= |d| && StartsWithZero(d, n) && Consistent(d[n..])
  {
    ZeroEncodings(d);
    if Accepts(d) {
      var n :| n in {1, 2, 4, 8} && n <= ToInt32(|d|) && IsZeroEncoding(d, n);
      assert n == PrefixLength(d[0]);
      ConsistentOctets(d[n..]);
      assert StartsWithZero(d, n);
    }
    if n :| 0 < n <= |d| && StartsWithZero(d, n) && Consistent(d[n..]) {
      ConsistentOctets(d[n..]);
      assert IsZeroEncoding(d, n);
      assert n == PrefixLength(d[0]);
    }
  }

  /** The first `n` octets are an encoding of 0, and an `int` made from the length of `d` covers them. */
  predicate StartsWithZero(d: seq<byte>, n: int) {
    && 0 < n <= |d| && |d| % 0x1_0000_0000 < 0x8000_0000 && n <= |d| % 0x1_0000_0000
    && (|| (n == 1 && d[0] == 0)
        || (n == 2 && d[0] == 0x40 && d[1] == 0)
        || (n == 4 && d[0] == 0x80 && d[1] == 0 && d[2] == 0 && d[3] == 0)
        || (n == 8 && d[0] == 0xc0 && forall k :: 1 <= k < 8 ==> d[k] == 0))
  }

  /** A single zero octet in front of a packet makes a datagram that parses back to exactly that packet. */
  lemma ContextZero(p: seq<byte>)
    requires WellFormed(p)
    ensures var d := [0] + p;
      && d[1..] == p
      && (Accepts(d) <==> 1 <= ToInt32(|d|))
      && (Accepts(d) ==> DecodeVarint(d) == Some(Decoded(0, 1)))
  {
    DecodeInvertsEncode(0, p);
    ShortVarintBytes(0);
    hide VarintBytes, WellFormed;
    assert VarintBytes(0) + p == [0] + p;
    assert ([0] + p)[1..] == p;
  }

  /** Parsing what was composed returns exactly the forwarded packet, for every packet that compose accepts. */
  lemma ParseInvertsCompose(p: seq<byte>)
    requires Forwardable(p)
    ensures var d := [0] + Forwarded(p);
      && (Accepts(d) <==> 1 <= ToInt32(|d|))
      && (Accepts(d) ==> DecodeVarint(d) == Some(Decoded(0, 1)) && d[1..] == Forwarded(p))
  {
    ForwardedEffect(p);
    ContextZero(Forwarded(p));
  }
}
