/** ICMP Fragmentation Needed, ICMPv6 Packet Too Big, and the noise packets of connect_ip.c. */
module IcmpTooBig {
  import opened Bytes
  import opened OnesComplement
  import opened IpHeader
  import opened ConnectIp

  // ---- specification ----

  /** The leading octets of the offending packet that the error quotes. */
  function Quoted(p: seq<byte>): seq<byte>
    requires WithHeader(p)
  {
    var limit := if Version(p) == 4 then 28 else 1232;
    if |p| < limit then p else p[..limit]
  }

  /** Long enough for the fixed header of its version; nothing else is checked. */
  predicate WithHeader(p: seq<byte>) {
    |p| > 0 && ((Version(p) == 4 && |p| >= IPV4_HEADER_LENGTH) || (Version(p) == 6 && |p| >= IPV6_HEADER_LENGTH))
  }

  function Rejected(p: seq<byte>): Status
    requires !WithHeader(p)
  {
    if |p| == 0 then Empty else if Version(p) in {4, 6} then TooShort else BadVersion
  }

  /** Total length of the error packet. */
  function TooBigLength(p: seq<byte>): nat
    requires WithHeader(p)
  {
    (if Version(p) == 4 then IPV4_HEADER_LENGTH else IPV6_HEADER_LENGTH) + 8 + |Quoted(p)|
  }

  /** A 20-octet IPv4 header without options, its checksum computed. */
  function V4Header(total: uint16, id: seq<byte>, protocol: byte, addresses: seq<byte>): (h: seq<byte>)
    requires |id| == 4 && |addresses| == 8
  {
    RefreshChecksum([0x45, 0] + Be16Bytes(total) + id + [64, protocol, 0, 0] + addresses)
  }

  function V6Header(payload: uint16, addresses: seq<byte>): (h: seq<byte>)
    requires |addresses| == 32
  {
    [0x60, 0, 0, 0] + Be16Bytes(payload) + [58, 64] + addresses
  }

  /** The pseudo-header of an upper-layer checksum over IPv6 (RFC 8200, section 8.1), for ICMPv6. */
  function PseudoHeader(addresses: seq<byte>, length: uint32): seq<byte> {
    addresses + Be32Bytes(length) + [0, 0, 0, 58]
  }

  /** The ICMP message with its checksum field still zero; the MTU is reduced to the width of its field. */
  function UncheckedMessage(p: seq<byte>, mtu: int): (m: seq<byte>)
    requires WithHeader(p)
    ensures |m| == 8 + |Quoted(p)|
  {
    if Version(p) == 4 then [3, 4, 0, 0, 0, 0] + Be16Bytes(mtu % 0x1_0000) + Quoted(p)
    else [2, 0, 0, 0] + Be32Bytes(mtu % 0x1_0000_0000) + Quoted(p)
  }

  /** Source and destination of `p` swapped, as they stand in the header of the answer. */
  function SwappedAddresses(p: seq<byte>): seq<byte>
    requires WithHeader(p)
  {
    if Version(p) == 4 then p[16..20] + p[12..16] else p[24..40] + p[8..24]
  }

  function TooBigHeader(p: seq<byte>): (h: seq<byte>)
    requires WithHeader(p)
  {
    if Version(p) == 4 then V4Header(TooBigLength(p), [0, 0, 0, 0], 1, SwappedAddresses(p))
    else V6Header(8 + |Quoted(p)|, SwappedAddresses(p))
  }

  /** What the ICMP checksum covers besides the message: nothing for IPv4, a pseudo-header for IPv6. */
  function CoveredHeader(p: seq<byte>): (h: seq<byte>)
    requires WithHeader(p)
  {
    if Version(p) == 4 then [] else PseudoHeader(SwappedAddresses(p), 8 + |Quoted(p)|)
  }

  function TooBigMessage(p: seq<byte>, mtu: int): (m: seq<byte>)
    requires WithHeader(p)
    ensures |m| == 8 + |Quoted(p)|
  {
    var m := UncheckedMessage(p, mtu);
    Put(m, 2, Be16Bytes(0xffff - Fold(WordSum(CoveredHeader(p)) + WordSum(m))))
  }

  function TooBig(p: seq<byte>, mtu: int): (r: seq<byte>)
    requires WithHeader(p)
  {
    TooBigHeader(p) + TooBigMessage(p, mtu)
  }

  // ---- theorems ----

  lemma V4HeaderFields(total: uint16, id: seq<byte>, protocol: byte, addresses: seq<byte>)
    requires |id| == 4 && |addresses| == 8
    ensures var h := V4Header(total, id, protocol, addresses);
      && |h| == 20 && h[0] == 0x45 && Be16(h, 2) == total && h[8] == 64 && h[9] == protocol
      && h[..10] == [0x45, 0, total / 0x100, total % 0x100] + id + [64, protocol]
      && h[12..] == addresses && Verifies(h)
  {
    var blank := [0x45, 0] + Be16Bytes(total) + id + [64, protocol, 0, 0] + addresses;
    RefreshedHeaderVerifies(blank);
    assert RefreshChecksum(blank)[..20] == RefreshChecksum(blank);
    assert blank[12..] == addresses && blank[..10] == [0x45, 0] + Be16Bytes(total) + id + [64, protocol];
  }

  lemma MessageVerifies(p: seq<byte>, mtu: int)
    requires WithHeader(p)
    ensures Verifies(CoveredHeader(p) + TooBigMessage(p, mtu))
  {
    var c, m := CoveredHeader(p), UncheckedMessage(p, mtu);
    assert |c| % 2 == 0 && Be16(m, 2) == 0;
    hide CoveredHeader, UncheckedMessage, WordSum, Fold;
    StoredBehindPseudoHeader(c, m, 2, 0xffff - Fold(WordSum(c) + WordSum(m)));
  }

  /** The fields of a message are those of its parts, whatever checksum `w` is put in. */
  lemma PartsWith(first: seq<byte>, second: seq<byte>, quoted: seq<byte>, w: uint16)
    requires |first| + |second| == 8 && 4 <= |first| <= 6
    ensures var m := Put(first + second + quoted, 2, Be16Bytes(w));
      m[..2] == first[..2] && m[|first|..8] == second && m[8..] == quoted
  {
    hide Be16Bytes;
  }

  lemma MessageFieldsWith(p: seq<byte>, mtu: int, w: uint16)
    requires WithHeader(p)
    ensures var m := Put(UncheckedMessage(p, mtu), 2, Be16Bytes(w));
      && m[..2] == (if Version(p) == 4 then [3, 4] else [2, 0])
      && (if Version(p) == 4 then Be16(m, 6) == mtu % 0x1_0000 else Be32(m, 4) == mtu % 0x1_0000_0000)
      && m[8..] == Quoted(p) <= p
  {
    if Version(p) == 4 {
      V4Fields(p, mtu, w);
    } else {
      V6Fields(p, mtu, w);
    }
  }

  lemma V4Fields(p: seq<byte>, mtu: int, w: uint16)
    requires WithHeader(p) && Version(p) == 4
    ensures var m := Put(UncheckedMessage(p, mtu), 2, Be16Bytes(w));
      m[..2] == [3, 4] && Be16(m, 6) == mtu % 0x1_0000 && m[8..] == Quoted(p)
  {
    var short := mtu % 0x1_0000;
    Be16RoundTrip(short);
    PartsWith([3, 4, 0, 0, 0, 0], Be16Bytes(short), Quoted(p), w);
    var m := Put(UncheckedMessage(p, mtu), 2, Be16Bytes(w));
    assert m[6] == m[6..8][0] && m[7] == m[6..8][1];
  }

  lemma V6Fields(p: seq<byte>, mtu: int, w: uint16)
    requires WithHeader(p) && Version(p) == 6
    ensures var m := Put(UncheckedMessage(p, mtu), 2, Be16Bytes(w));
      m[..2] == [2, 0] && Be32(m, 4) == mtu % 0x1_0000_0000 && m[8..] == Quoted(p)
  {
    var long := mtu % 0x1_0000_0000;
    Be32RoundTrip(long);
    PartsWith([2, 0, 0, 0], Be32Bytes(long), Quoted(p), w);
    hide Be32Bytes, Be16Bytes, Quoted;
    var m := Put(UncheckedMessage(p, mtu), 2, Be16Bytes(w));
    assert m[4] == m[4..8][0] && m[5] == m[4..8][1] && m[6] == m[4..8][2] && m[7] == m[4..8][3];
  }

  lemma MessageFields(p: seq<byte>, mtu: int)
    requires WithHeader(p)
    ensures var m := TooBigMessage(p, mtu);
      && m[..2] == (if Version(p) == 4 then [3, 4] else [2, 0])
      && (if Version(p) == 4 then Be16(m, 6) == mtu % 0x1_0000 else Be32(m, 4) == mtu % 0x1_0000_0000)
      && m[8..] == Quoted(p) <= p
  {
    hide UncheckedMessage, CoveredHeader, WordSum, Fold, Be16Bytes, Put, Quoted;
    MessageFieldsWith(p, mtu, 0xffff - Fold(WordSum(CoveredHeader(p)) + WordSum(UncheckedMessage(p, mtu))));
  }

  lemma V4Shape(p: seq<byte>, mtu: int)
    requires WithHeader(p) && Version(p) == 4
    ensures var h, m := TooBigHeader(p), TooBigMessage(p, mtu);
      && |h| == 20 && h[0] == 0x45 && h[8] == 64 && Be16(h, 2) as int == |h| + |m| && Verifies(h)
      && h[12..][..4] == p[16..20] && h[12..][4..] == p[12..16]
      && 20 <= |Quoted(p)| <= 28
      && CoveredHeader(p) + m == m && TooBig(p, mtu) == h + m
  {
    hide TooBigMessage, V4Header;
    V4HeaderFields(TooBigLength(p), [0, 0, 0, 0], 1, SwappedAddresses(p));
  }

  lemma JoinV4(h: seq<byte>, m: seq<byte>)
    requires |h| == 20 && |m| >= 8
    requires h[0] == 0x45 && h[8] == 64 && Be16(h, 2) as int == |h| + |m|
    ensures var r := h + m;
      && r[..20] == h && r[20..] == m && Be16(r, 2) as int == |r| && Forwardable(r)
      && r[12..16] == h[12..][..4] && r[16..20] == h[12..][4..]
      && r[20..22] == m[..2] && r[28..] == m[8..] && Be16(r, 26) == Be16(m, 6)
  {
  }

  /**
   Fragmentation Needed (RFC 1191, section 4): both checksums of the answer verify, it goes back to the
   sender, it is between 48 and 56 octets long, and compose accepts it.
   */
  lemma FragmentationNeeded(p: seq<byte>, mtu: int)
    requires WithHeader(p) && Version(p) == 4
    ensures var r := TooBig(p, mtu);
      && |r| == 28 + |Quoted(p)| == Be16(r, 2) && 48 <= |r| <= 56
      && Verifies(r[..20]) && Verifies(r[20..])
      && r[12..16] == p[16..20] && r[16..20] == p[12..16]
      && r[20..22] == [3, 4] && Be16(r, 26) == mtu % 0x1_0000
      && r[28..] == Quoted(p) <= p
      && Forwardable(r)
  {
    hide WordSum, Fold, OcSum, TooBig, TooBigHeader, TooBigMessage, CoveredHeader, Forwardable, Be16, Verifies, Quoted;
    V4Shape(p, mtu);
    MessageVerifies(p, mtu);
    MessageFields(p, mtu);
    JoinV4(TooBigHeader(p), TooBigMessage(p, mtu));
  }

  /**
   RFC 792 asks for the header and 64 bits of what follows. The quote ends at 28 octets whatever the header
   length is, so it holds these octets, as far as the packet has them, exactly when the packet has no options
   or fits the quote as a whole.
   */
  lemma QuoteSufficesIff(p: seq<byte>)
    requires WithHeader(p) && Version(p) == 4 && HeaderLength(p) >= 20
    ensures var wanted := if |p| < HeaderLength(p) + 8 then |p| else HeaderLength(p) + 8;
      p[..wanted] <= Quoted(p) <==> HeaderLength(p) == 20 || |p| == |Quoted(p)|
  {
  }

  /** How much of a packet is quoted. */
  lemma QuotedLength(p: seq<byte>)
    requires WithHeader(p)
    ensures Version(p) == 4 ==> Quoted(p) == p[..if |p| < 28 then |p| else 28]
    ensures Version(p) == 6 ==> Quoted(p) == p[..if |p| < 1232 then |p| else 1232]
  {
  }

  /** The pieces of a header and a message, cut out of their concatenation. */
  lemma CutJoined(r: seq<byte>, h: seq<byte>, m: seq<byte>, n: nat)
    requires r == h + m && n <= |h| && |m| >= 8
    ensures |r| == |h| + |m|
    ensures r[..n] == h[..n]
    ensures r[|h| + 4..|h| + 8] == m[4..8] && r[|h|..|h| + 2] == m[..2] && r[|h| + 8..] == m[8..]
  {
  }

  lemma CutAddresses(r: seq<byte>, h: seq<byte>, m: seq<byte>, i: nat)
    requires r == h + m && i <= |h|
    ensures r[i..|h|] == h[i..]
  {
  }

  lemma V4HeaderOctets(p: seq<byte>)
    requires WithHeader(p) && Version(p) == 4
    ensures var h, total := TooBigHeader(p), 28 + |Quoted(p)|;
      && |h| == 20 && h[..10] == [0x45, 0, total / 0x100, total % 0x100, 0, 0, 0, 0, 64, 1]
      && h[12..] == p[16..20] + p[12..16]
  {
    hide V4Header;
    var total: uint16 := TooBigLength(p);
    V4HeaderFields(total, [0, 0, 0, 0], 1, SwappedAddresses(p));
    assert [0x45, 0, total / 0x100, total % 0x100] + [0, 0, 0, 0] + [64, 1] ==
      [0x45, 0, total / 0x100, total % 0x100, 0, 0, 0, 0, 64, 1];
  }

  lemma V4MessageOctets(p: seq<byte>, mtu: int)
    requires WithHeader(p) && Version(p) == 4
    ensures var m := TooBigMessage(p, mtu);
      m[..2] == [3, 4] && m[4..8] == [0, 0] + Be16Bytes(mtu % 0x1_0000) && m[8..] == Quoted(p)
  {
    var w := 0xffff - Fold(WordSum(CoveredHeader(p)) + WordSum(UncheckedMessage(p, mtu)));
    var short := Be16Bytes(mtu % 0x1_0000);
    hide WordSum, Fold, Be16Bytes, CoveredHeader, Quoted;
    assert TooBigMessage(p, mtu) == Put(UncheckedMessage(p, mtu), 2, Be16Bytes(w));
    assert [3, 4, 0, 0] + ([0, 0] + short) == [3, 4, 0, 0, 0, 0] + short;
    hide TooBigMessage, Put;
    PartsWith([3, 4, 0, 0], [0, 0] + short, Quoted(p), w);
    hide UncheckedMessage;
    assert [3, 4, 0, 0][..2] == [3, 4];
  }

  /** Every octet of Fragmentation Needed but the two checksums, as numbers and as octets of `p`. */
  lemma FragmentationNeededOctets(p: seq<byte>, mtu: int, r: seq<byte>, quoted: seq<byte>)
    requires |p| >= 20 && p[0] / 0x10 == 4 && r == TooBig(p, mtu) && quoted == p[..if |p| < 28 then |p| else 28]
    ensures |r| == 28 + |quoted|
    ensures r[..10] == [0x45, 0, |r| / 0x100, |r| % 0x100, 0, 0, 0, 0, 64, 1]
    ensures r[12..20] == p[16..20] + p[12..16]
    ensures r[20..22] == [3, 4] && r[24..28] == [0, 0, mtu % 0x1_0000 / 0x100, mtu % 0x1_0000 % 0x100]
    ensures r[28..] == quoted
  {
    var h, m := TooBigHeader(p), TooBigMessage(p, mtu);
    assert r == h + m;
    QuotedLength(p);
    V4HeaderOctets(p);
    V4MessageOctets(p, mtu);
    hide TooBig, TooBigHeader, TooBigMessage, Quoted, WithHeader, Version;
    CutJoined(r, h, m, 10);
    CutAddresses(r, h, m, 12);
  }

  lemma V6HeaderOctets(p: seq<byte>)
    requires WithHeader(p) && Version(p) == 6
    ensures var h, length := TooBigHeader(p), 8 + |Quoted(p)|;
      && |h| == 40 && h[..8] == [0x60, 0, 0, 0, length / 0x100, length % 0x100, 58, 64]
      && h[8..] == p[24..40] + p[8..24]
  {
    V6HeaderParts(8 + |Quoted(p)|, SwappedAddresses(p));
    hide V6Header, Quoted;
  }

  lemma V6HeaderParts(payload: uint16, addresses: seq<byte>)
    requires |addresses| == 32
    ensures var h := V6Header(payload, addresses);
      && |h| == 40 && h[..8] == [0x60, 0, 0, 0, payload / 0x100, payload % 0x100, 58, 64] && h[8..] == addresses
  {
    var front := [0x60, 0, 0, 0] + Be16Bytes(payload) + [58, 64];
    assert front == [0x60, 0, 0, 0, payload / 0x100, payload % 0x100, 58, 64];
    assert V6Header(payload, addresses) == front + addresses;
  }

  lemma V6MessageOctets(p: seq<byte>, mtu: int)
    requires WithHeader(p) && Version(p) == 6
    ensures var m := TooBigMessage(p, mtu);
      m[..2] == [2, 0] && m[4..8] == Be32Bytes(mtu % 0x1_0000_0000) && m[8..] == Quoted(p)
  {
    var w := 0xffff - Fold(WordSum(CoveredHeader(p)) + WordSum(UncheckedMessage(p, mtu)));
    var long := Be32Bytes(mtu % 0x1_0000_0000);
    hide WordSum, Fold, Be16Bytes, Be32Bytes, CoveredHeader, Quoted;
    assert TooBigMessage(p, mtu) == Put(UncheckedMessage(p, mtu), 2, Be16Bytes(w));
    assert UncheckedMessage(p, mtu) == [2, 0, 0, 0] + long + Quoted(p);
    hide TooBigMessage, Put, UncheckedMessage;
    PartsWith([2, 0, 0, 0], long, Quoted(p), w);
    assert [2, 0, 0, 0][..2] == [2, 0];
  }

  /** Every octet of Packet Too Big but the checksum. */
  lemma PacketTooBigOctets(p: seq<byte>, mtu: int, r: seq<byte>, quoted: seq<byte>, v: uint32)
    requires |p| >= 40 && p[0] / 0x10 == 6 && r == TooBig(p, mtu) && quoted == p[..if |p| < 1232 then |p| else 1232]
    requires v == mtu % 0x1_0000_0000
    ensures |r| == 48 + |quoted|
    ensures r[..8] == [0x60, 0, 0, 0, (|r| - 40) / 0x100, (|r| - 40) % 0x100, 58, 64]
    ensures r[8..40] == p[24..40] + p[8..24]
    ensures r[40..42] == [2, 0]
    ensures r[44..48] == [v / 0x100_0000, v / 0x1_0000 % 0x100, v / 0x100 % 0x100, v % 0x100]
    ensures r[48..] == quoted
  {
    var h, m := TooBigHeader(p), TooBigMessage(p, mtu);
    assert r == h + m;
    assert Be32Bytes(v) == [v / 0x100_0000, v / 0x1_0000 % 0x100, v / 0x100 % 0x100, v % 0x100];
    QuotedLength(p);
    V6HeaderOctets(p);
    V6MessageOctets(p, mtu);
    hide TooBig, TooBigHeader, TooBigMessage, Quoted, Be32Bytes, WithHeader, Version;
    CutJoined(r, h, m, 8);
    CutAddresses(r, h, m, 8);
  }

  /** The octets of the pseudo-header, which the checksum covers besides the message. */
  lemma PseudoHeaderOctets(addresses: seq<byte>, n: uint32)
    ensures PseudoHeader(addresses, n) ==
      addresses + [n / 0x100_0000, n / 0x1_0000 % 0x100, n / 0x100 % 0x100, n % 0x100, 0, 0, 0, 58]
  {
    var b := Be32Bytes(n);
    assert b + [0, 0, 0, 58] == [b[0], b[1], b[2], b[3], 0, 0, 0, 58];
    Associative(addresses, b, [0, 0, 0, 58]);
  }

  lemma V6Shape(p: seq<byte>, mtu: int)
    requires WithHeader(p) && Version(p) == 6
    ensures var a, m := SwappedAddresses(p), TooBigMessage(p, mtu);
      && |a| == 32 && a[..16] == p[24..40] && a[16..] == p[8..24]
      && |Quoted(p)| == (if |p| < 1232 then |p| else 1232)
      && CoveredHeader(p) == PseudoHeader(a, |m|) && TooBig(p, mtu) == V6Header(|m|, a) + m
  {
    hide TooBigMessage, V6Header, PseudoHeader;
  }

  lemma JoinV6(addresses: seq<byte>, m: seq<byte>)
    requires |addresses| == 32 && 8 <= |m| <= 1240
    ensures var r := V6Header(|m|, addresses) + m;
      && |r| == 40 + |m| && Be16(r, 4) == |m| && Forwardable(r)
      && r[8..40] == addresses && r[8..24] == addresses[..16] && r[24..40] == addresses[16..]
      && r[40..] == m && r[40..42] == m[..2] && r[48..] == m[8..] && Be32(r, 44) == Be32(m, 4)
  {
  }

  /**
   Packet Too Big (RFC 4443, sections 2.3 and 3.2): the checksum verifies over the pseudo-header taken
   from the answer's own header, the answer goes back to the sender and never exceeds the IPv6 minimum
   MTU, and compose accepts it.
   */
  lemma PacketTooBig(p: seq<byte>, mtu: int)
    requires WithHeader(p) && Version(p) == 6
    ensures var r := TooBig(p, mtu);
      && |r| == 48 + |Quoted(p)| <= 1280 && |Quoted(p)| == (if |p| < 1232 then |p| else 1232)
      && Be16(r, 4) as int == |r| - 40
      && Verifies(PseudoHeader(r[8..40], |r| - 40) + r[40..])
      && r[8..24] == p[24..40] && r[24..40] == p[8..24]
      && r[40..42] == [2, 0] && Be32(r, 44) == mtu % 0x1_0000_0000
      && r[48..] == Quoted(p) <= p
      && Forwardable(r)
  {
    hide WordSum, Fold, OcSum, TooBig, TooBigMessage, SwappedAddresses, CoveredHeader, PseudoHeader, V6Header,
         Forwardable, Be16, Be32, Verifies, Quoted;
    V6Shape(p, mtu);
    MessageVerifies(p, mtu);
    MessageFields(p, mtu);
    JoinV6(SwappedAddresses(p), TooBigMessage(p, mtu));
  }

  // ---- the code ----

  /** The fields of an IPv4 header without options, checksum last; octets past the header stay. */
  method WriteV4Header(out: array<byte>, total: uint16, id: seq<byte>, protocol: byte, addresses: seq<byte>)
    requires out.Length >= IPV4_HEADER_LENGTH && |id| == 4 && |addresses| == 8
    modifies out
    ensures out[..20] == V4Header(total, id, protocol, addresses)
    ensures out[20..] == old(out[20..])
  {
    Append(out, 0, [0x45, 0], 20);
    assert out[..2] == [0x45, 0];
    Append(out, 2, Be16Bytes(total), 20);
    Append(out, 4, id, 20);
    Append(out, 8, [64, protocol, 0, 0], 20);
    Append(out, 12, addresses, 20);
    assert out[..12 + 8] == out[..20];
    WriteHeaderChecksum(out, 20);
  }

  method WriteV6Header(out: array<byte>, payload: uint16, addresses: seq<byte>)
    requires out.Length >= IPV6_HEADER_LENGTH && |addresses| == 32
    modifies out
    ensures out[..40] == V6Header(payload, addresses)
    ensures out[40..] == old(out[40..])
  {
    Append(out, 0, [0x60, 0, 0, 0], 40);
    Append(out, 4, Be16Bytes(payload), 40);
    Append(out, 6, [58, 64], 40);
    Append(out, 8, addresses, 40);
  }

  /**
   `ipv6_pseudo_header_sum`: the two addresses are summed in step, and the length and the next-header
   number are added as plain numbers; together that is the sum of the pseudo-header's words.
   */
  method PseudoHeaderSum(pkt: array<byte>, src: nat, dst: nat, payload: uint16) returns (sum: uint32)
    requires src + 16 <= pkt.Length && dst + 16 <= pkt.Length
    ensures sum == WordSum(PseudoHeader(pkt[src..src + 16] + pkt[dst..dst + 16], payload))
    ensures sum <= 0xffff * 17 + 58
  {
    ghost var q := pkt[..];
    ghost var s, d := q[src..src + 16], q[dst..dst + 16];
    SumFromStart(s);
    SumFromStart(d);
    sum := 0;
    ghost var k: nat := 0;
    var i := 0;
    while i < 16
      invariant i == 2 * k <= 16
      invariant sum <= 0x1_fffe * k
      invariant sum + SumFrom(s, i) + SumFrom(d, i) == WordSum(s) + WordSum(d)
    {
      SumFromSlice(q, src, i);
      SumFromSlice(q, dst, i);
      sum := sum + Word(pkt[src + i], pkt[src + i + 1]);
      sum := sum + Word(pkt[dst + i], pkt[dst + i + 1]);
      i := i + 2;
      k := k + 1;
    }
    PseudoHeaderWords(s, d, payload);
    sum := sum + payload;
    sum := sum + 58;
  }

  lemma SumFromSlice(q: seq<byte>, at: nat, i: nat)
    requires at + 16 <= |q| && i + 2 <= 16
    ensures SumFrom(q[at..at + 16], i) == Word(q[at + i], q[at + i + 1]) + SumFrom(q[at..at + 16], i + 2)
  {
  }

  lemma EightOctets(s: seq<byte>)
    requires |s| == 8
    ensures WordSum(s) == Be16(s, 0) + Be16(s, 2) + Be16(s, 4) + Be16(s, 6)
  {
    WordSumAround(s, 2);
    assert WordSum(s[..2]) == Be16(s, 0) by { assert s[..2][2..] == []; }
    WordSumAround(s[4..], 0);
    assert WordSum(s[4..][2..]) == Be16(s, 6) by { assert s[4..][2..][2..] == []; }
    assert s[4..][..0] == [];
  }

  lemma PseudoHeaderTail(payload: uint16)
    ensures WordSum(Be32Bytes(payload) + [0, 0, 0, 58]) == payload + 58
  {
    var tail: seq<byte> := [0, 0, payload / 0x100, payload % 0x100, 0, 0, 0, 58];
    assert Be32Bytes(payload) + [0, 0, 0, 58] == tail;
    EightOctets(tail);
    Be16RoundTrip(payload);
  }

  lemma BehindAddresses(addresses: seq<byte>, payload: uint16)
    requires |addresses| % 2 == 0
    ensures WordSum(PseudoHeader(addresses, payload)) == WordSum(addresses) + payload + 58
  {
    PseudoHeaderTail(payload);
    hide WordSum, Be32Bytes;
    WordSumConcat(addresses, Be32Bytes(payload) + [0, 0, 0, 58]);
    Associative(addresses, Be32Bytes(payload), [0, 0, 0, 58]);
  }

  lemma PseudoHeaderWords(s: seq<byte>, d: seq<byte>, payload: uint16)
    requires |s| == |d| == 16
    ensures WordSum(PseudoHeader(s + d, payload)) == WordSum(s) + WordSum(d) + payload + 58
  {
    hide WordSum, PseudoHeader;
    BehindAddresses(s + d, payload);
    WordSumConcat(s, d);
  }

  /** `cip_compose_icmp_too_big`: the answer is written only when it fits, and nothing after it is touched. */
  method ComposeTooBig(out: array<byte>, pkt: array<byte>, pktLen: nat, mtu: int)
    returns (status: Status, outLen: nat)
    requires pktLen <= pkt.Length && out != pkt
    modifies out
    ensures !WithHeader(pkt[..pktLen]) ==> status == Rejected(pkt[..pktLen])
    ensures WithHeader(pkt[..pktLen]) ==>
      status == if TooBigLength(pkt[..pktLen]) <= out.Length then Ok else Overflow
    ensures status == Ok ==>
      outLen == TooBigLength(pkt[..pktLen])
      && out[..outLen] == TooBig(pkt[..pktLen], mtu) && out[outLen..] == old(out[..])[outLen..]
    ensures status != Ok ==> outLen == 0 && out[..] == old(out[..])
    ensures status.Code() ==
      if pktLen == 0 then -1
      else if pkt[0] / 0x10 == 4 then
        if pktLen < 20 then -2
        else if 28 + (if pktLen < 28 then pktLen else 28) > out.Length then -6 else 0
      else if pkt[0] / 0x10 == 6 then
        if pktLen < 40 then -2
        else if 48 + (if pktLen < 1232 then pktLen else 1232) > out.Length then -6 else 0
      else -3
  {
    outLen := 0;
    if pktLen == 0 { return Empty, outLen; }
    var version := pkt[0] / 0x10;
    if version == 4 {
      if pktLen < IPV4_HEADER_LENGTH { return TooShort, outLen; }
      status, outLen := ComposeTooBigV4(out, pkt, pktLen, mtu, pkt[..pktLen]);
    } else if version == 6 {
      if pktLen < IPV6_HEADER_LENGTH { return TooShort, outLen; }
      status, outLen := ComposeTooBigV6(out, pkt, pktLen, mtu, pkt[..pktLen]);
    } else {
      return BadVersion, outLen;
    }
  }

  /** Summing the ICMP header and the quoted octets separately gives the checksum of the whole message. */
  lemma TwoLoopsOneChecksum(p: seq<byte>, mtu: int)
    requires WithHeader(p) && Version(p) == 4
    ensures var h: seq<byte> := [3, 4, 0, 0, 0, 0] + Be16Bytes(mtu % 0x1_0000);
      && WordSum(h) + WordSum(Quoted(p)) == WordSum(UncheckedMessage(p, mtu)) < 0x1_0000_0000
      && Put(h, 2, Be16Bytes(0xffff - Fold(WordSum(h) + WordSum(Quoted(p))))) + Quoted(p) == TooBigMessage(p, mtu)
  {
    var h: seq<byte> := [3, 4, 0, 0, 0, 0] + Be16Bytes(mtu % 0x1_0000);
    WordSumConcat(h, Quoted(p));
    assert h + Quoted(p) == UncheckedMessage(p, mtu);
    WordSumBound(UncheckedMessage(p, mtu));
    assert CoveredHeader(p) == [];
  }

  /** The 8-octet ICMP header, checksummed over itself and the quoted octets in two loops. */
  method ComposeIcmpHeader(pkt: array<byte>, pktLen: nat, quoted: nat, mtu: int) returns (body: array<byte>)
    requires pktLen <= pkt.Length && quoted <= pktLen
    requires WithHeader(pkt[..pktLen]) && Version(pkt[..pktLen]) == 4 && pkt[..quoted] == Quoted(pkt[..pktLen])
    ensures fresh(body) && body.Length == 8
    ensures body[..] + pkt[..quoted] == TooBigMessage(pkt[..pktLen], mtu)
  {
    hide TooBigMessage, WordSum, Fold;
    body := new byte[8][3, 4, 0, 0, 0, 0, 0, 0];
    WriteBe16(body, 6, mtu % 0x1_0000);
    ghost var unchecked := body[..];
    assert unchecked == [3, 4, 0, 0, 0, 0] + Be16Bytes(mtu % 0x1_0000);
    TwoLoopsOneChecksum(pkt[..pktLen], mtu);
    var sum := AddWords(body, 0, 8, 0);
    assert body[0..8] == unchecked;
    WordSumBound(unchecked);
    sum := AddWords(pkt, 0, quoted, sum);
    assert pkt[0..quoted] == pkt[..quoted];
    var checksum := FoldComplement(sum);
    WriteBe16(body, 2, checksum);
  }

  /** The IPv4 branch. */
  method ComposeTooBigV4(out: array<byte>, pkt: array<byte>, pktLen: nat, mtu: int, ghost p: seq<byte>)
    returns (status: Status, outLen: nat)
    requires pktLen <= pkt.Length && out != pkt
    requires p == pkt[..pktLen] && WithHeader(p) && Version(p) == 4
    modifies out
    ensures status == if TooBigLength(p) <= out.Length then Ok else Overflow
    ensures status == Ok ==>
      outLen == TooBigLength(p)
      && out[..outLen] == TooBig(p, mtu) && out[outLen..] == old(out[..])[outLen..]
    ensures status != Ok ==> outLen == 0 && out[..] == old(out[..])
  {
    hide V4Header, TooBigMessage, Forwardable;
    var quoted := if pktLen < IPV4_HEADER_LENGTH + 8 then pktLen else IPV4_HEADER_LENGTH + 8;
    assert pkt[..quoted] == Quoted(p);
    var total := IPV4_HEADER_LENGTH + 8 + quoted;
    outLen := 0;
    if out.Length < total { return Overflow, outLen; }

    var body := ComposeIcmpHeader(pkt, pktLen, quoted, mtu);
    assert pkt[16..20] + pkt[12..16] == SwappedAddresses(p);
    WriteV4Header(out, total, [0, 0, 0, 0], 1, pkt[16..20] + pkt[12..16]);
    ghost var header := out[..20];
    assert header == TooBigHeader(p);
    assert out[total..] == out[20..][total - 20..] == old(out[20..])[total - 20..] == old(out[total..]);
    Append(out, IPV4_HEADER_LENGTH, body[..], total);
    Append(out, IPV4_HEADER_LENGTH + 8, pkt[..quoted], total);
    assert out[..total] == header + (body[..] + pkt[..quoted]);
    return Ok, total;
  }

  /** The two parts of the IPv6 answer, in terms of the offending packet. */
  lemma V6Parts(p: seq<byte>, mtu: int)
    requires WithHeader(p) && Version(p) == 6
    ensures V6Header(8 + |Quoted(p)|, SwappedAddresses(p)) == TooBigHeader(p)
    ensures var m := [2, 0, 0, 0] + Be32Bytes(mtu % 0x1_0000_0000) + Quoted(p);
      var pseudo := PseudoHeader(SwappedAddresses(p), 8 + |Quoted(p)|);
      Put(m, 2, Be16Bytes(0xffff - Fold(WordSum(pseudo) + WordSum(m)))) == TooBigMessage(p, mtu)
  {
    hide PseudoHeader, V6Header, Be32Bytes, Be16Bytes, WordSum, Fold, Put;
    assert CoveredHeader(p) == PseudoHeader(SwappedAddresses(p), 8 + |Quoted(p)|);
  }

  /** The IPv6 branch: the message is checksummed where it stands in the output, after the pseudo-header. */
  method ComposeTooBigV6(out: array<byte>, pkt: array<byte>, pktLen: nat, mtu: int, ghost p: seq<byte>)
    returns (status: Status, outLen: nat)
    requires pktLen <= pkt.Length && out != pkt
    requires p == pkt[..pktLen] && WithHeader(p) && Version(p) == 6
    modifies out
    ensures status == if TooBigLength(p) <= out.Length then Ok else Overflow
    ensures status == Ok ==>
      outLen == TooBigLength(p)
      && out[..outLen] == TooBig(p, mtu) && out[outLen..] == old(out[..])[outLen..]
    ensures status != Ok ==> outLen == 0 && out[..] == old(out[..])
  {
    hide TooBigMessage, PseudoHeader, V6Header, Be16Bytes, Be32Bytes, WordSum, Fold, Put;
    var quoted := if pktLen < 1232 then pktLen else 1232;
    assert pkt[..quoted] == Quoted(p);
    var total := IPV6_HEADER_LENGTH + (8 + quoted);
    outLen := 0;
    if out.Length < total { return Overflow, outLen; }
    ghost var addresses := pkt[24..40] + pkt[8..24];
    assert addresses == SwappedAddresses(p);
    V6Parts(p, mtu);
    WriteV6Answer(out, pkt, quoted, mtu);
    assert out[..40] == TooBigHeader(p);
    assert out[40..] == TooBigMessage(p, mtu) + old(out[total..]);
    assert out[..total] == out[..40] + out[40..][..8 + quoted];
    assert out[total..] == out[40..][8 + quoted..];
    return Ok, total;
  }

  /** Message first, then the header in front of it. */
  method WriteV6Answer(out: array<byte>, pkt: array<byte>, quoted: nat, mtu: int)
    requires 40 <= quoted <= pkt.Length && quoted <= 1232 && 48 + quoted <= out.Length && out != pkt
    modifies out
    ensures out[..40] == V6Header(8 + quoted, pkt[24..40] + pkt[8..24])
    ensures var m := [2, 0, 0, 0] + Be32Bytes(mtu % 0x1_0000_0000) + pkt[..quoted];
      var pseudo := PseudoHeader(pkt[24..40] + pkt[8..24], 8 + quoted);
      out[40..] == Put(m, 2, Be16Bytes(0xffff - Fold(WordSum(pseudo) + WordSum(m)))) + old(out[48 + quoted..])
  {
    hide PseudoHeader, V6Header, Be16Bytes, Be32Bytes, WordSum, Fold, Put;
    var sum := PseudoHeaderSum(pkt, 24, 8, 8 + quoted);
    WriteMessage(out, pkt, quoted, mtu, sum);
    WriteV6Header(out, 8 + quoted, pkt[24..40] + pkt[8..24]);
  }

  /** The ICMPv6 message at offset 40 of `out`, checksummed in place on top of `pseudo`. */
  method WriteMessage(out: array<byte>, pkt: array<byte>, quoted: nat, mtu: int, pseudo: uint32)
    requires quoted <= pkt.Length && quoted <= 1232 && 48 + quoted <= out.Length && out != pkt
    requires pseudo <= 0xffff * 17 + 58
    modifies out
    ensures var m := [2, 0, 0, 0] + Be32Bytes(mtu % 0x1_0000_0000) + pkt[..quoted];
      out[40..] == Put(m, 2, Be16Bytes(0xffff - Fold(pseudo + WordSum(m)))) + old(out[48 + quoted..])
  {
    hide Be16Bytes, Be32Bytes, WordSum, Fold;
    ghost var m := [2, 0, 0, 0] + Be32Bytes(mtu % 0x1_0000_0000) + pkt[..quoted];
    ghost var end := 48 + quoted;
    ghost var rest := out[end..];
    ghost var head := out[..40];
    Append(out, 40, [2, 0, 0, 0], end);
    Append(out, 44, Be32Bytes(mtu % 0x1_0000_0000), end);
    Append(out, 48, pkt[..quoted], end);
    assert out[..end] == head + m;
    assert out[40..end] == m;
    var sum := AddWords(out, 40, 48 + quoted, pseudo);
    var checksum := FoldComplement(sum);
    assert out[..] == head + m + rest;
    WriteBe16(out, 42, checksum);
    PutInside(head, m, rest, 2, Be16Bytes(checksum));
    assert out[40..] == out[..][40..];
  }

  /**
   `cip_compose_noise_packet`, with the values drawn from `rand` as parameters: an IPv4 packet of
   protocol 0xFF whose header verifies, carrying the random payload.
   */
  method ComposeNoise(out: array<byte>, id: seq<byte>, host: byte, payload: seq<byte>)
    returns (status: Status, outLen: nat)
    requires |id| == 4
    modifies out
    ensures status == if IPV4_HEADER_LENGTH + |payload| <= out.Length then Ok else Overflow
    ensures status == Ok ==>
      outLen == 20 + |payload|
      && out[..outLen] == NoisePacket(id, host, payload) && out[outLen..] == old(out[..])[outLen..]
    ensures status != Ok ==> outLen == 0 && out[..] == old(out[..])
  {
    var total := IPV4_HEADER_LENGTH + |payload|;
    outLen := 0;
    if out.Length < total { return Overflow, outLen; }
    WriteV4Header(out, total % 0x1_0000, id, 0xff, [172, 16, 0, 1, 192, 0, 2, host]);
    assert out[total..] == out[20..][total - 20..] == old(out[20..])[total - 20..] == old(out[total..]);
    Append(out, IPV4_HEADER_LENGTH, payload, total);
    return Ok, total;
  }

  function NoisePacket(id: seq<byte>, host: byte, payload: seq<byte>): (r: seq<byte>)
    requires |id| == 4
    ensures |r| == 20 + |payload|
  {
    V4Header((20 + |payload|) % 0x1_0000, id, 0xff, [172, 16, 0, 1, 192, 0, 2, host]) + payload
  }

  /** Compose always accepts a noise packet, and its header verifies at both ends of the hop. */
  lemma NoiseIsForwardable(id: seq<byte>, host: byte, payload: seq<byte>)
    requires |id| == 4
    ensures var r := NoisePacket(id, host, payload);
      && Forwardable(r) && Verifies(r[..20]) && Verifies(Forwarded(r)[..20]) && r[20..] == payload
      && r[..2] == [0x45, 0] && Be16(r, 2) == |r| % 0x1_0000 && r[4..8] == id && r[8..10] == [64, 0xff]
      && r[12..20] == [172, 16, 0, 1, 192, 0, 2, host]
  {
    var r := NoisePacket(id, host, payload);
    var addresses: seq<byte> := [172, 16, 0, 1, 192, 0, 2, host];
    var h := V4Header((20 + |payload|) % 0x1_0000, id, 0xff, addresses);
    V4HeaderFields((20 + |payload|) % 0x1_0000, id, 0xff, addresses);
    assert r[..20] == h && r[20..] == payload;
    assert r[..2] == h[..10][..2] && r[4..8] == h[..10][4..8] && r[8..10] == h[..10][8..] && r[12..20] == h[12..];
    ForwardedEffect(r);
  }
}
