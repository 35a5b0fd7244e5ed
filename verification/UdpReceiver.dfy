/**
 What the receiver of a rewritten UDP datagram finds. RFC 768 takes the length in the pseudo-header, and the
 octets that are summed, from the Length field of the UDP header; dns_hijack.c takes both from the IPv4 Total
 Length. This module says exactly when the receiver's check succeeds all the same.
 */
module UdpReceiver {
  import opened Bytes
  import opened OnesComplement
  import opened IpHeader
  import opened UdpPacket

  // ---- the receiver ----

  /** The Length field of the UDP header. */
  function LengthField(p: seq<byte>): uint16
    requires IsUdp(p)
  {
    Be16(p, HeaderLength(p) + 4)
  }

  /** What the receiver sums (RFC 768): pseudo-header and datagram, both by the Length field. */
  function Checked(p: seq<byte>, rest: seq<byte>): seq<byte>
    requires IsUdp(p) && LengthField(p) <= UdpLength(p) + |rest|
  {
    p[12..20] + [0, 17] + Be16Bytes(LengthField(p)) + (Segment(p) + rest)[..LengthField(p)]
  }

  /**
   The receiver accepts the datagram that starts in `p` and goes on in `rest`, the octets of further fragments:
   its Length field is in range, and the checksum verifies.
   */
  predicate Accepted(p: seq<byte>, rest: seq<byte>) {
    IsUdp(p) && 8 <= LengthField(p) <= UdpLength(p) + |rest| && Verifies(Checked(p, rest))
  }

  /** The same for a datagram that is not fragmented. */
  predicate UdpVerifies(p: seq<byte>) {
    Accepted(p, [])
  }

  // ---- the condition ----

  /** The octets of `w` from `i` on, each at the place in its word that it has in `w`. */
  function Beyond(w: seq<byte>, i: nat): seq<byte>
    requires i <= |w|
  {
    if i % 2 == 0 then w[i..] else [0] + w[i..]
  }

  /** By how much the code's sum and the receiver's sum differ. */
  function Difference(p: seq<byte>, rest: seq<byte>): nat
    requires IsUdp(p) && LengthField(p) <= UdpLength(p) + |rest|
  {
    var l, n := LengthField(p), UdpLength(p);
    if l <= n then n - l + WordSum(Beyond(Segment(p), l)) else l - n + WordSum(Beyond((Segment(p) + rest)[..l], n))
  }

  /** The Length field is in range, and what it adds or leaves out cancels against the difference of the lengths. */
  predicate Reconciles(p: seq<byte>, rest: seq<byte>)
    requires IsUdp(p)
  {
    8 <= LengthField(p) <= UdpLength(p) + |rest| && Difference(p, rest) % 0xffff == 0
  }

  // ---- the two sums ----

  lemma OctetInFront(x: byte, tail: seq<byte>)
    ensures WordSum([x] + tail) == Word(x, 0) + WordSum([0] + tail)
  {
    if |tail| > 0 {
      assert ([x] + tail)[2..] == tail[1..] && ([0] + tail)[2..] == tail[1..];
      assert Be16([x] + tail, 0) == Word(x, tail[0]) && Be16([0] + tail, 0) == Word(0, tail[0]);
    }
  }

  lemma OddSplit(w: seq<byte>, i: nat)
    requires i <= |w| && i % 2 == 1
    ensures WordSum(w) == WordSum(w[..i]) + WordSum([0] + w[i..])
  {
    hide WordSum;
    assert w == w[..i - 1] + ([w[i - 1]] + w[i..]);
    assert w[..i] == w[..i - 1] + [w[i - 1]];
    OddJoin(w[..i - 1], w[i - 1], w[i..]);
  }

  lemma OddJoin(head: seq<byte>, last: byte, tail: seq<byte>)
    requires |head| % 2 == 0
    ensures WordSum(head + ([last] + tail)) == WordSum(head + [last]) + WordSum([0] + tail)
  {
    assert WordSum([last]) == Word(last, 0);
    hide WordSum;
    WordSumConcat(head, [last] + tail);
    WordSumConcat(head, [last]);
    OctetInFront(last, tail);
  }

  lemma SumBeyond(w: seq<byte>, i: nat)
    requires i <= |w|
    ensures WordSum(w) == WordSum(w[..i]) + WordSum(Beyond(w, i))
  {
    if i % 2 == 0 {
      WordSumSplit(w, i);
    } else {
      OddSplit(w, i);
    }
  }

  lemma ShortSum(length: uint16)
    ensures WordSum([0, 17] + Be16Bytes(length)) == 17 + length
  {
    Be16RoundTrip(length);
    var t: seq<byte> := [0, 17, length / 0x100, length % 0x100];
    assert t == [0, 17] + Be16Bytes(length);
    assert t[2..] == Be16Bytes(length);
    assert Be16(t, 0) == 17 && Be16(t[2..], 0) == length;
    PairSum(t[2..]);
  }

  lemma PairSum(s: seq<byte>)
    requires |s| == 2
    ensures WordSum(s) == Be16(s, 0)
  {
    assert s[2..] == [];
  }

  lemma HeaderSum(addresses: seq<byte>, length: uint16, text: seq<byte>)
    requires |addresses| == 8
    ensures WordSum(addresses + [0, 17] + Be16Bytes(length) + text) == WordSum(addresses) + 17 + length + WordSum(text)
  {
    ShortSum(length);
    hide WordSum, Be16Bytes;
    WordSumConcat(addresses, [0, 17] + Be16Bytes(length));
    Associative(addresses, [0, 17], Be16Bytes(length));
    WordSumConcat(addresses + [0, 17] + Be16Bytes(length), text);
  }

  lemma ResidueIff(small: nat, d: nat)
    ensures (small + d) % 0xffff == 0 ==> (small % 0xffff == 0 <==> d % 0xffff == 0)
    ensures small % 0xffff == 0 ==> ((small + d) % 0xffff == 0 <==> d % 0xffff == 0)
  {
    if small % 0xffff == 0 {
      ResidueOfSum(small, d);
    }
    if d % 0xffff == 0 {
      ResidueOfSum(d, small);
    }
  }

  /** The two sums differ by exactly `Difference`. */
  lemma SumsDiffer(p: seq<byte>, rest: seq<byte>)
    requires IsUdp(p) && LengthField(p) <= UdpLength(p) + |rest|
    ensures var mine, theirs := WordSum(PseudoHeader(p) + Segment(p)), WordSum(Checked(p, rest));
      && mine > 0 && theirs > 0
      && (if LengthField(p) <= UdpLength(p) then mine == theirs + Difference(p, rest)
          else theirs == mine + Difference(p, rest))
  {
    var seg, l, n := Segment(p), LengthField(p), UdpLength(p);
    var v := (seg + rest)[..l];
    HeaderSum(p[12..20], n, seg);
    HeaderSum(p[12..20], l, v);
    if l <= n {
      assert v == seg[..l];
      SumBeyond(seg, l);
    } else {
      assert v[..n] == seg;
      SumBeyond(v, n);
    }
    hide WordSum, Be16Bytes, HeaderLength, Version, Beyond;
  }

  /** The receiver accepts what the code has summed exactly when the lengths reconcile. */
  lemma AcceptedIff(p: seq<byte>, rest: seq<byte>)
    requires SegmentVerifies(p)
    ensures Accepted(p, rest) <==> Reconciles(p, rest)
  {
    hide WordSum, Segment, PseudoHeader, Difference, Checked;
    if LengthField(p) <= UdpLength(p) + |rest| {
      var mine, theirs := WordSum(PseudoHeader(p) + Segment(p)), WordSum(Checked(p, rest));
      SumsDiffer(p, rest);
      VerifiesByResidue(PseudoHeader(p) + Segment(p));
      VerifiesByResidue(Checked(p, rest));
      hide Verifies, IsUdp;
      if LengthField(p) <= UdpLength(p) {
        ResidueIff(theirs, Difference(p, rest));
      } else {
        ResidueIff(mine, Difference(p, rest));
      }
    }
  }

  // ---- what the condition depends on ----

  /** Where the Length field and the Total Length agree, the condition holds. */
  lemma EqualLengthsReconcile(p: seq<byte>, rest: seq<byte>)
    requires IsUdp(p) && LengthField(p) as int == UdpLength(p)
    ensures Reconciles(p, rest)
  {
    assert Segment(p)[UdpLength(p)..] == [];
  }

  /** Only the Length field, the lengths and the octets behind the UDP header matter. */
  lemma ReconcilesAlike(p: seq<byte>, q: seq<byte>, rest: seq<byte>)
    requires IsUdp(p) && IsUdp(q) && |q| == |p|
    requires HeaderLength(q) == HeaderLength(p) && UdpLength(q) == UdpLength(p)
    requires LengthField(q) == LengthField(p)
    requires forall k :: HeaderLength(p) + 8 <= k < |p| ==> q[k] == p[k]
    ensures Reconciles(q, rest) == Reconciles(p, rest)
  {
    var l, n := LengthField(p), UdpLength(p);
    if 8 <= l <= n {
      assert Segment(q)[l..] == Segment(p)[l..];
    } else if n < l <= n + |rest| {
      assert (Segment(q) + rest)[..l][n..] == rest[..l - n] == (Segment(p) + rest)[..l][n..];
    }
  }

  /** The receiver's check reads neither the hop count nor the header checksum, so it survives forwarding. */
  lemma AcceptedElsewhere(p: seq<byte>, q: seq<byte>, rest: seq<byte>)
    requires IsUdp(p) && |q| == |p|
    requires forall k :: 0 <= k < |p| && k != 8 && k != 10 && k != 11 ==> q[k] == p[k]
    ensures Accepted(q, rest) == Accepted(p, rest)
  {
    assert q[12..20] == p[12..20];
    SameShape(p, q);
    assert Segment(q) == Segment(p);
    hide HeaderLength, Version, Verifies, Segment;
  }

  // ---- redirecting ----

  /**
   After redirecting, exactly: the first 20 octets verify; the whole header does when its options sum to 0
   modulo 0xffff; and the receiver of the datagram accepts it when its lengths reconcile.
   */
  lemma RedirectVerifies(p: seq<byte>, at: nat, address: seq<byte>, rest: seq<byte>)
    requires IsUdp(p) && at in {12, 16} && |address| == 4
    ensures var r, n := Redirect(p, at, address), HeaderLength(p);
      && |r| == |p| && n + 8 <= |p|
      && Verifies(r[..20])
      && (Verifies(r[..n]) <==> WordSum(p[20..n]) % 0xffff == 0)
      && (Accepted(r, rest) <==> Reconciles(p, rest))
      && Be16(r, n + 6) != 0
  {
    RedirectReconciles(p, at, address, rest);
    hide Redirect, Verifies, SegmentVerifies, WordSum, Reconciles, Accepted, HeaderLength, IsUdp;
    RedirectSums(p, at, address);
    AcceptedIff(Redirect(p, at, address), rest);
  }

  lemma RedirectReconciles(p: seq<byte>, at: nat, address: seq<byte>, rest: seq<byte>)
    requires IsUdp(p) && at in {12, 16} && |address| == 4
    ensures var r := Redirect(p, at, address); IsUdp(r) && (Reconciles(r, rest) <==> Reconciles(p, rest))
  {
    hide Redirect, Reconciles;
    var r, n := Redirect(p, at, address), HeaderLength(p);
    RedirectFrame(p, at, address);
    RedirectShape(p, at, address);
    assert n >= 20 && n + 8 <= |p|;
    assert r[n + 4] == p[n + 4] && r[n + 5] == p[n + 5];
    assert LengthField(r) == LengthField(p);
    hide HeaderLength, Version, IsUdp, LengthField, UdpLength;
    ReconcilesAlike(p, r, rest);
  }

  // ---- packets that are rejected ----

  /** A query to 8.8.8.8 whose only option is the router alert (RFC 2113). */
  function RouterAlertQuery(): seq<byte> {
    [0x46, 0, 0, 32, 0, 0, 0, 0, 64, 17, 0, 0, 10, 0, 0, 1, 8, 8, 8, 8] + [0x94, 4, 0, 0]
    + [0x14, 0xe9, 0, 53, 0, 8, 0, 0]
  }

  lemma RouterAlertShape()
    ensures var p := RouterAlertQuery();
      |p| == 32 && IsUdp(p) && HeaderLength(p) == 24 && DestinationPort(p) == 53 && p[20..24] == [0x94, 4, 0, 0]
  {
  }

  lemma RouterAlertSum()
    ensures WordSum([0x94, 4, 0, 0]) == 0x9404
  {
    var o: seq<byte> := [0x94, 4, 0, 0];
    assert o[2..] == [0, 0] && o[2..][2..] == [];
  }

  /** Redirected, it verifies over 20 octets but not over the header it has. */
  lemma RouterAlertFails(address: seq<byte>)
    requires |address| == 4
    ensures var p := RouterAlertQuery();
      && IsUdp(p) && HeaderLength(p) == 24 && DestinationPort(p) == 53
      && |Redirect(p, 16, address)| == 32
      && Verifies(Redirect(p, 16, address)[..20]) && !Verifies(Redirect(p, 16, address)[..24])
  {
    RouterAlertShape();
    hide RouterAlertQuery, Redirect, Verifies, WordSum, IsUdp, HeaderLength;
    RouterAlertSum();
    RedirectVerifies(RouterAlertQuery(), 16, address, []);
  }

  /** A query to 8.8.8.8 with two octets behind its datagram. */
  function TrailingQuery(): seq<byte> {
    [0x45, 0, 0, 30, 0, 0, 0, 0, 64, 17, 0, 0, 10, 0, 0, 1, 8, 8, 8, 8] + [0x14, 0xe9, 0, 53, 0, 8, 0, 0] + [0, 1]
  }

  lemma TrailingShape()
    ensures var p := TrailingQuery();
      IsUdp(p) && DestinationPort(p) == 53 && UdpLength(p) == 10 && LengthField(p) == 8 && Segment(p)[8..] == [0, 1]
  {
  }

  /** Redirected, its checksum covers ten octets, and the receiver, who sums eight, rejects it. */
  lemma TrailingQueryRejected(address: seq<byte>)
    requires |address| == 4
    ensures var p := TrailingQuery();
      && IsUdp(p) && DestinationPort(p) == 53
      && SegmentVerifies(Redirect(p, 16, address)) && !UdpVerifies(Redirect(p, 16, address))
  {
    TrailingShape();
    hide TrailingQuery, Redirect, SegmentVerifies, IsUdp, HeaderLength, Segment;
    var p := TrailingQuery();
    RedirectSums(p, 16, address);
    RedirectVerifies(p, 16, address, []);
    PairSum([0, 1]);
    assert Difference(p, []) == 3;
  }

  /** The first fragment of a query whose datagram has 24 octets, 16 of them here. */
  function FirstFragment(): seq<byte> {
    [0x45, 0, 0, 36, 0, 1, 0x20, 0, 64, 17, 0, 0, 10, 0, 0, 1, 8, 8, 8, 8]
    + [0x14, 0xe9, 0, 53, 0, 24, 0, 0, 0, 0, 0, 0, 0, 0, 0, 0]
  }

  lemma FragmentOctets()
    ensures var p := FirstFragment();
      && |p| == 36 && p[0] == 0x45 && p[2] == 0 && p[3] == 36 && p[9] == 17
      && p[22] == 0 && p[23] == 53 && p[24] == 0 && p[25] == 24
  {
  }

  lemma FragmentShape()
    ensures var p := FirstFragment();
      IsUdp(p) && DestinationPort(p) == 53 && UdpLength(p) == 16 && LengthField(p) == 24 && |Segment(p)| == 16
  {
    FragmentOctets();
    hide FirstFragment;
  }

  lemma ZeroSum()
    ensures WordSum([0, 0, 0, 0, 0, 0, 0, 0]) == 0
  {
    var s: seq<byte> := [0, 0, 0, 0, 0, 0, 0, 0];
    assert s[2..] == [0, 0, 0, 0, 0, 0] && s[2..][2..] == [0, 0, 0, 0] && s[2..][2..][2..] == [0, 0];
    assert s[2..][2..][2..][2..] == [];
  }

  /** Redirected and put together with the octets it lacks, all zero, it is rejected. */
  lemma FirstFragmentRejected(address: seq<byte>)
    requires |address| == 4
    ensures var p := FirstFragment();
      IsUdp(p) && DestinationPort(p) == 53 && !Accepted(Redirect(p, 16, address), [0, 0, 0, 0, 0, 0, 0, 0])
  {
    FragmentShape();
    ZeroSum();
    hide FirstFragment, Redirect, IsUdp, HeaderLength, Segment, WordSum;
    var p, rest: seq<byte> := FirstFragment(), [0, 0, 0, 0, 0, 0, 0, 0];
    RedirectVerifies(p, 16, address, rest);
    assert (Segment(p) + rest)[..24][16..] == rest;
    assert Difference(p, rest) == 8;
  }
}
