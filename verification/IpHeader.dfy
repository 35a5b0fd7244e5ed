/** The IP header fields that the packet path reads, and the IPv4 header checksum. */
module IpHeader {
  import opened Bytes
  import opened OnesComplement

  const IPV4_HEADER_LENGTH: nat := 20
  const IPV6_HEADER_LENGTH: nat := 40

  function Version(p: seq<byte>): nat
    requires |p| > 0
  {
    p[0] / 0x10
  }

  /** IHL counts 32-bit words. */
  function HeaderLength(p: seq<byte>): nat
    requires |p| > 0
  {
    p[0] % 0x10 * 4
  }

  /** An IPv4 header that lies inside the packet, with a Total Length the packet can cover. */
  predicate WellFormedV4(p: seq<byte>) {
    && |p| >= IPV4_HEADER_LENGTH
    && Version(p) == 4
    && IPV4_HEADER_LENGTH <= HeaderLength(p) <= |p|
    && Be16(p, 2) <= |p|
  }

  predicate WellFormedV6(p: seq<byte>) {
    && |p| >= IPV6_HEADER_LENGTH
    && Version(p) == 6
    && Be16(p, 4) as int + IPV6_HEADER_LENGTH <= |p|
  }

  predicate WellFormed(p: seq<byte>) {
    WellFormedV4(p) || WellFormedV6(p)
  }

  /** Complement of the sum of the first 20 octets, the checksum word left out, whatever the IHL says. */
  function HeaderChecksum(p: seq<byte>): (c: uint16)
    requires |p| >= IPV4_HEADER_LENGTH
  {
    0xffff - Fold(WordSum(p[..10]) + WordSum(p[12..20]))
  }

  /** `p` with its IPv4 checksum field recomputed. */
  function RefreshChecksum(p: seq<byte>): (r: seq<byte>)
    requires |p| >= IPV4_HEADER_LENGTH
  {
    Put(p, 10, Be16Bytes(HeaderChecksum(p)))
  }

  // ---- what a refreshed header satisfies ----

  lemma RefreshedHeaderVerifies(p: seq<byte>)
    requires |p| >= IPV4_HEADER_LENGTH
    ensures Verifies(RefreshChecksum(p)[..20])
  {
    var zeroed := Put(p[..20], 10, [0, 0]);
    WordSumAround(zeroed, 10);
    assert zeroed[..10] == p[..10] && zeroed[12..] == p[12..20];
    StoredChecksumVerifies(zeroed, 10, HeaderChecksum(p));
    assert Put(zeroed, 10, Be16Bytes(HeaderChecksum(p))) == RefreshChecksum(p)[..20];
  }

  /**
   With options present the stored checksum still covers only 20 octets, so a receiver that sums the
   whole header accepts it exactly when the option words sum to 0 modulo 0xffff.
   */
  lemma FullHeaderVerifiesIff(p: seq<byte>)
    requires |p| >= IPV4_HEADER_LENGTH && IPV4_HEADER_LENGTH <= HeaderLength(p) <= |p|
    ensures Verifies(RefreshChecksum(p)[..HeaderLength(p)]) <==>
      WordSum(p[20..HeaderLength(p)]) % 0xffff == 0
  {
    var n := HeaderLength(p);
    var r := RefreshChecksum(p);
    RefreshedHeaderVerifies(p);
    VerifiesByResidue(r[..20]);
    VerifiesByResidue(r[..n]);
    WordSumSplit(r[..n], 20);
    assert r[..n][..20] == r[..20];
    assert r[..n][20..] == p[20..n];
    ResidueOfSum(WordSum(r[..20]), WordSum(p[20..n]));
  }

  lemma ResidueOfSum(a: nat, b: nat)
    requires a % 0xffff == 0
    ensures (a + b) % 0xffff == b % 0xffff
  {
  }

  // ---- the code ----

  /** `cip_ipv4_checksum`: ten words, the one at offset 10 skipped. */
  method Ipv4Checksum(header: array<byte>) returns (c: uint16)
    requires header.Length >= IPV4_HEADER_LENGTH
    ensures c == HeaderChecksum(header[..])
  {
    var sum: uint32 := 0;
    ghost var left, right := header[..10], header[12..20];
    SumFromStart(left);
    SumFromStart(right);
    ghost var k: nat := 0;
    var i := 0;
    while i < IPV4_HEADER_LENGTH
      invariant i == 2 * k <= IPV4_HEADER_LENGTH
      invariant sum <= 0xffff * k
      invariant i <= 10 ==> sum + SumFrom(left, i) == WordSum(left)
      invariant i > 10 ==> sum + SumFrom(right, i - 12) == WordSum(left) + WordSum(right)
    {
      if i != 10 {
        sum := sum + Word(header[i], header[i + 1]);
      }
      i := i + 2;
      k := k + 1;
    }
    c := FoldComplement(sum);
    assert left == header[..][..10] && right == header[..][12..20];
  }

  lemma RefreshPrefix(p: seq<byte>, n: nat)
    requires IPV4_HEADER_LENGTH <= n <= |p|
    ensures RefreshChecksum(p)[..n] == RefreshChecksum(p[..n])
    ensures RefreshChecksum(p)[n..] == p[n..]
  {
    assert p[..n][..10] == p[..10] && p[..n][12..20] == p[12..20];
  }

  /** `write_be16(pkt + 10, cip_ipv4_checksum(pkt))`, for a packet that fills the first `len` octets. */
  method WriteHeaderChecksum(p: array<byte>, ghost len: nat)
    requires IPV4_HEADER_LENGTH <= len <= p.Length
    modifies p
    ensures p[..len] == RefreshChecksum(old(p[..len]))
    ensures p[len..] == old(p[len..])
  {
    RefreshPrefix(p[..], len);
    assert p[..][..len] == p[..len] && p[..][len..] == p[len..];
    var c := Ipv4Checksum(p);
    WriteBe16(p, 10, c);
    assert p[..][..len] == p[..len] && p[..][len..] == p[len..];
  }
}
