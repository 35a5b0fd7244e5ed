/** QUIC variable-length integers (RFC 9000, section 16), as connect_ip.c encodes and decodes them. */
module Varint {
  import opened Bytes

  const MAX_VARINT: uint64 := 0x3fff_ffff_ffff_ffff

  datatype Decoded = Decoded(value: uint64, length: nat)

  // ---- big-endian numbers of any length ----

  function Pow256(n: nat): (p: nat)
    ensures p > 0
  {
    if n == 0 then 1 else 0x100 * Pow256(n - 1)
  }

  lemma Pow256Values()
    ensures Pow256(0) == 1 && Pow256(1) == 0x100 && Pow256(2) == 0x1_0000 && Pow256(3) == 0x100_0000
    ensures Pow256(4) == 0x1_0000_0000 && Pow256(7) == 0x100_0000_0000_0000
  {
    assert Pow256(5) == 0x100_0000_0000;
    assert Pow256(6) == 0x1_0000_0000_0000;
  }

  function BeNat(s: seq<byte>): nat {
    if |s| == 0 then 0 else BeNat(s[..|s| - 1]) * 0x100 + s[|s| - 1] as int
  }

  function BeBytes(v: nat, n: nat): (s: seq<byte>)
    ensures |s| == n
  {
    if n == 0 then [] else BeBytes(v / 0x100, n - 1) + [v % 0x100]
  }

  lemma {:induction false} BeNatOfBytes(v: nat, n: nat)
    requires v < Pow256(n)
    ensures BeNat(BeBytes(v, n)) == v
  {
    if n > 0 {
      BeNatOfBytes(v / 0x100, n - 1);
      assert BeBytes(v, n)[..n - 1] == BeBytes(v / 0x100, n - 1);
    }
  }

  lemma {:induction false} BeBytesOfNat(s: seq<byte>)
    ensures BeBytes(BeNat(s), |s|) == s
    decreases |s|
  {
    if |s| > 0 {
      BeBytesOfNat(s[..|s| - 1]);
      assert BeNat(s) / 0x100 == BeNat(s[..|s| - 1]);
      assert BeNat(s) % 0x100 == s[|s| - 1];
    }
  }

  /** The two top bits of an `n`-octet number are free exactly when it is below 2^(8n-2). */
  lemma {:induction false} TopBitsFree(s: seq<byte>)
    requires |s| > 0
    ensures s[0] < 0x40 <==> BeNat(s) < 0x40 * Pow256(|s| - 1)
    decreases |s|
  {
    if |s| > 1 {
      TopBitsFree(s[..|s| - 1]);
    } else {
      assert s[..0] == [];
    }
  }

  // ---- specification ----

  /** The shortest of the lengths 1, 2, 4, 8 that can hold `v`. */
  function VarintLength(v: uint64): nat
    requires v <= MAX_VARINT
  {
    if v <= 63 then 1 else if v <= 16383 then 2 else if v <= 1073741823 then 4 else 8
  }

  /** The two-bit length prefix, as it stands in the first octet. */
  function LengthBits(n: nat): byte {
    if n == 1 then 0 else if n == 2 then 0x40 else if n == 4 then 0x80 else 0xc0
  }

  function PrefixLength(first: byte): nat {
    if first < 0x40 then 1 else if first < 0x80 then 2 else if first < 0xc0 then 4 else 8
  }

  function VarintBytes(v: uint64): (s: seq<byte>)
    requires v <= MAX_VARINT
  {
    var n := VarintLength(v);
    FirstOctetFits(v);
    var s := BeBytes(v, n);
    s[0 := s[0] as int + LengthBits(n) as int]
  }

  /** The octets of a varint with the length prefix cleared. */
  function Cleared(s: seq<byte>): seq<byte>
    requires |s| > 0
  {
    s[0 := s[0] % 0x40]
  }

  function DecodeVarint(s: seq<byte>): Option<Decoded> {
    if |s| == 0 || ToInt32(|s|) < PrefixLength(s[0]) then None
    else
      var n := PrefixLength(s[0]);
      ClearedBound(s[..n]);
      Some(Decoded(BeNat(Cleared(s[..n])), n))
  }

  lemma FirstOctetFits(v: uint64)
    requires v <= MAX_VARINT
    ensures v < 0x40 * Pow256(VarintLength(v) - 1) <= Pow256(VarintLength(v))
    ensures BeBytes(v, VarintLength(v))[0] < 0x40
  {
    Pow256Values();
    var n := VarintLength(v);
    BeNatOfBytes(v, n);
    TopBitsFree(BeBytes(v, n));
  }

  lemma ClearedBound(s: seq<byte>)
    requires |s| in {1, 2, 4, 8}
    ensures BeNat(Cleared(s)) < 0x40 * Pow256(|s| - 1)
    ensures BeNat(Cleared(s)) <= MAX_VARINT
    ensures VarintLength(BeNat(Cleared(s))) <= |s|
  {
    hide BeNat, Pow256;
    TopBitsFree(Cleared(s));
    Pow256Values();
  }

  // ---- theorems ----

  lemma FirstOctet(v: uint64)
    requires v <= MAX_VARINT
    ensures var n, s := VarintLength(v), VarintBytes(v);
      n in {1, 2, 4, 8} && |s| == n && PrefixLength(s[0]) == n && s[0] % 0x40 == BeBytes(v, n)[0]
  {
    FirstOctetFits(v);
    hide BeBytes, Pow256;
  }

  /** Decoding an encoding gives the value and its length back, whatever octets follow. */
  lemma DecodeInvertsEncode(v: uint64, rest: seq<byte>)
    requires v <= MAX_VARINT
    ensures var n, s := VarintLength(v), VarintBytes(v) + rest;
      DecodeVarint(s) == if n <= ToInt32(|s|) then Some(Decoded(v, n)) else None
  {
    var n := VarintLength(v);
    FirstOctetFits(v);
    BeNatOfBytes(v, n);
    var s := VarintBytes(v) + rest;
    FirstOctet(v);
    hide BeBytes, BeNat, Pow256, VarintLength, ToInt32, LengthBits, PrefixLength;
    assert s[..n] == VarintBytes(v);
    assert Cleared(VarintBytes(v)) == BeBytes(v, n);
  }

  /** No octets decode to `v` in fewer than `VarintLength(v)` octets: the encoder's length is the shortest. */
  lemma EncodingIsShortest(s: seq<byte>)
    requires DecodeVarint(s).Some?
    ensures var d := DecodeVarint(s).value;
      d.length in {1, 2, 4, 8} && d.length <= |s| && d.value <= MAX_VARINT && VarintLength(d.value) <= d.length
  {
    ClearedBound(s[..PrefixLength(s[0])]);
  }

  /** Re-encoding a decoded value restores the octets exactly when they were minimal. */
  lemma ReencodeIffMinimal(s: seq<byte>)
    requires DecodeVarint(s).Some?
    ensures var d := DecodeVarint(s).value;
      d.length <= |s| && d.value <= MAX_VARINT
      && (VarintBytes(d.value) == s[..d.length] <==> d.length == VarintLength(d.value))
  {
    EncodingIsShortest(s);
    var d := DecodeVarint(s).value;
    assert d.value == BeNat(Cleared(s[..d.length])) && d.length == PrefixLength(s[0]);
    hide DecodeVarint, BeNat, Pow256, PrefixLength, LengthBits;
    if d.length == VarintLength(d.value) {
      var t := Cleared(s[..d.length]);
      BeBytesOfNat(t);
      hide BeBytes, VarintLength;
      PrefixRestored(s[0]);
      assert VarintBytes(d.value) == t[0 := t[0] as int + LengthBits(d.length) as int] == s[..d.length];
    } else {
      assert |VarintBytes(d.value)| == VarintLength(d.value);
    }
  }

  lemma PrefixRestored(first: byte)
    ensures first % 0x40 + LengthBits(PrefixLength(first)) == first
  {
  }

  lemma PrefixDecodes(v: uint64, s: seq<byte>)
    requires v <= MAX_VARINT && VarintBytes(v) <= s && |s| <= 8
    ensures DecodeVarint(s) == Some(Decoded(v, VarintLength(v)))
  {
    DecodeInvertsEncode(v, s[|VarintBytes(v)|..]);
    assert s == VarintBytes(v) + s[|VarintBytes(v)|..];
  }

  /** The code is prefix free: an encoding that starts another one is that encoding. */
  lemma PrefixFree(v: uint64, w: uint64)
    requires v <= MAX_VARINT && w <= MAX_VARINT
    requires VarintBytes(v) <= VarintBytes(w)
    ensures v == w
  {
    var s := VarintBytes(w);
    assert |s| <= 8;
    PrefixDecodes(v, s);
    PrefixDecodes(w, s);
    assert Decoded(v, VarintLength(v)) == Decoded(w, VarintLength(w));
  }

  /** The octet strings that decode to 0 are exactly the four encodings of 0. */
  lemma ZeroEncodings(s: seq<byte>)
    ensures DecodeVarint(s).Some? && DecodeVarint(s).value.value == 0 <==>
      exists n :: n in {1, 2, 4, 8} && n <= ToInt32(|s|) && IsZeroEncoding(s, n)
  {
    if |s| > 0 && ToInt32(|s|) >= PrefixLength(s[0]) {
      var n := PrefixLength(s[0]);
      BeNatZero(Cleared(s[..n]));
      if BeNat(Cleared(s[..n])) == 0 {
        assert Cleared(s[..n])[0] == 0;
        assert forall k :: 1 <= k < n ==> s[k] == Cleared(s[..n])[k];
        assert IsZeroEncoding(s, n);
      }
      if m :| m in {1, 2, 4, 8} && m <= ToInt32(|s|) && IsZeroEncoding(s, m) {
        assert m == n;
        assert forall k :: 1 <= k < n ==> Cleared(s[..n])[k] == s[k];
      }
    }
  }

  /** `s` starts with the length prefix of an `n`-octet varint whose other bits are all zero. */
  predicate IsZeroEncoding(s: seq<byte>, n: nat) {
    0 < n <= |s| && s[0] == LengthBits(n) && forall k :: 1 <= k < n ==> s[k] == 0
  }

  lemma {:induction false} BeNatZero(s: seq<byte>)
    ensures BeNat(s) == 0 <==> forall k :: 0 <= k < |s| ==> s[k] == 0
    decreases |s|
  {
    if |s| > 0 {
      BeNatZero(s[..|s| - 1]);
      assert forall k :: 0 <= k < |s| - 1 ==> s[..|s| - 1][k] == s[k];
    }
  }

  // ---- the code ----

  lemma BeBytesOf4(v: nat)
    ensures BeBytes(v, 2) == [v / 0x100 % 0x100, v % 0x100]
    ensures BeBytes(v, 4) == [v / 0x100_0000 % 0x100, v / 0x1_0000 % 0x100, v / 0x100 % 0x100, v % 0x100]
  {
    assert v / 0x100 / 0x100 == v / 0x1_0000;
    assert v / 0x100 / 0x100 / 0x100 == v / 0x100_0000;
    assert BeBytes(v / 0x100 / 0x100 / 0x100, 1) == [v / 0x100_0000 % 0x100];
    assert BeBytes(v / 0x100 / 0x100, 2) == [v / 0x100_0000 % 0x100, v / 0x1_0000 % 0x100];
    assert BeBytes(v / 0x100, 3) == [v / 0x100_0000 % 0x100, v / 0x1_0000 % 0x100, v / 0x100 % 0x100];
    assert BeBytes(v / 0x100, 1) == [v / 0x100 % 0x100];
  }

  lemma BeBytesOf8(v: nat)
    ensures BeBytes(v, 8) ==
      [v / 0x100_0000_0000_0000 % 0x100, v / 0x1_0000_0000_0000 % 0x100,
       v / 0x100_0000_0000 % 0x100, v / 0x1_0000_0000 % 0x100,
       v / 0x100_0000 % 0x100, v / 0x1_0000 % 0x100, v / 0x100 % 0x100, v % 0x100]
  {
    var high := v / 0x1_0000_0000;
    BeBytesOf4(high);
    BeBytesOf4(v);
    BeBytesSplit(v);
    assert high / 0x100 == v / 0x100_0000_0000;
    assert high / 0x1_0000 == v / 0x1_0000_0000_0000;
    assert high / 0x100_0000 == v / 0x100_0000_0000_0000;
  }

  lemma BeBytesSplit(v: nat)
    ensures BeBytes(v, 8) == BeBytes(v / 0x1_0000_0000, 4) + BeBytes(v, 4)
  {
    assert v / 0x100 / 0x100 / 0x100 / 0x100 == v / 0x1_0000_0000;
    var w := v / 0x100 / 0x100 / 0x100 / 0x100;
    assert BeBytes(v / 0x100 / 0x100 / 0x100, 5) == BeBytes(w, 4) + BeBytes(v / 0x100 / 0x100 / 0x100, 1);
    assert BeBytes(v / 0x100 / 0x100, 6) == BeBytes(w, 4) + BeBytes(v / 0x100 / 0x100, 2);
    assert BeBytes(v / 0x100, 7) == BeBytes(w, 4) + BeBytes(v / 0x100, 3);
  }

  lemma ShortVarintBytes(v: uint64)
    requires v <= 1073741823
    ensures VarintBytes(v) ==
      if v <= 63 then [v]
      else if v <= 16383 then [0x40 + v / 0x100, v % 0x100]
      else [0x80 + v / 0x100_0000, v / 0x1_0000 % 0x100, v / 0x100 % 0x100, v % 0x100]
  {
    BeBytesOf4(v);
    if v <= 63 {
      assert BeBytes(v, 1) == [v];
    } else if v <= 16383 {
      assert v / 0x100 % 0x100 == v / 0x100;
    } else {
      assert v / 0x100_0000 % 0x100 == v / 0x100_0000;
    }
  }

  lemma LongVarintBytes(v: uint64)
    requires 1073741823 < v <= MAX_VARINT
    ensures VarintBytes(v) ==
      [0xc0 + v / 0x100_0000_0000_0000, v / 0x1_0000_0000_0000 % 0x100,
       v / 0x100_0000_0000 % 0x100, v / 0x1_0000_0000 % 0x100,
       v / 0x100_0000 % 0x100, v / 0x1_0000 % 0x100, v / 0x100 % 0x100, v % 0x100]
  {
    BeBytesOf8(v);
    LeadingOctet(v);
    WithPrefix(v, 8, BeBytes(v, 8));
    hide BeBytes, VarintBytes;
  }

  lemma LeadingOctet(v: uint64)
    requires v <= MAX_VARINT
    ensures v / 0x100_0000_0000_0000 < 0x40
    ensures v / 0x100_0000_0000_0000 % 0x100 == v / 0x100_0000_0000_0000
  {
  }

  lemma WithPrefix(v: uint64, n: nat, s: seq<byte>)
    requires v <= MAX_VARINT && n == VarintLength(v) && s == BeBytes(v, n)
    ensures s[0] < 0x40 && VarintBytes(v) == [s[0] + LengthBits(n)] + s[1..]
  {
    FirstOctetFits(v);
  }

  lemma TwoOctets37()
    ensures DecodeVarint([0x40, 0x25]) == Some(Decoded(37, 2))
  {
    var s: seq<byte> := [0x40, 0x25];
    assert s[..2] == s && Cleared(s) == [0, 0x25];
    assert [0, 0x25][..1] == [0] && [0][..0] == [];
    assert BeNat([0]) == 0;
  }

  lemma ShortSamples()
    ensures VarintBytes(37) == [0x25] && VarintBytes(15293) == [0x7b, 0xbd]
    ensures VarintBytes(494878333) == [0x9d, 0x7f, 0x3e, 0x7d]
  {
    hide VarintBytes;
    ShortVarintBytes(37);
    ShortVarintBytes(15293);
    ShortVarintBytes(494878333);
  }

  /** The octets of the long sample, from the top. */
  lemma LongOctets()
    ensures 151288809941952652 / 0x100_0000_0000_0000 == 2
    ensures 151288809941952652 / 0x1_0000_0000_0000 % 0x100 == 0x19
    ensures 151288809941952652 / 0x100_0000_0000 % 0x100 == 0x7c
    ensures 151288809941952652 / 0x1_0000_0000 % 0x100 == 0x5e
    ensures 151288809941952652 / 0x100_0000 % 0x100 == 0xff
    ensures 151288809941952652 / 0x1_0000 % 0x100 == 0x14
    ensures 151288809941952652 / 0x100 % 0x100 == 0xe8
    ensures 151288809941952652 % 0x100 == 0x8c
  {
  }

  lemma LongSample(v: uint64)
    requires v == 151288809941952652
    ensures VarintBytes(v) == [0xc2, 0x19, 0x7c, 0x5e, 0xff, 0x14, 0xe8, 0x8c]
  {
    hide VarintBytes;
    LongOctets();
    LongVarintBytes(v);
  }

  /** The samples of RFC 9000, appendix A.1. */
  lemma SampleEncodings()
    ensures VarintBytes(37) == [0x25] && VarintBytes(15293) == [0x7b, 0xbd]
    ensures VarintBytes(494878333) == [0x9d, 0x7f, 0x3e, 0x7d]
    ensures VarintBytes(151288809941952652) == [0xc2, 0x19, 0x7c, 0x5e, 0xff, 0x14, 0xe8, 0x8c]
    ensures DecodeVarint([0x40, 0x25]) == Some(Decoded(37, 2))
  {
    hide VarintBytes, DecodeVarint;
    ShortSamples();
    LongSample(151288809941952652);
    TwoOctets37();
  }

  /** `cip_varint_encode`: writes the shortest encoding, or returns 0 and writes nothing. */
  method Encode(buf: array<byte>, value: uint64) returns (n: nat)
    modifies buf
    ensures n == 0 <==> value > MAX_VARINT || buf.Length < VarintLength(value)
    ensures n == 0 ==> buf[..] == old(buf[..])
    ensures n > 0 ==> n == VarintLength(value) && buf[..] == Put(old(buf[..]), 0, VarintBytes(value))
  {
    if value <= 63 {
      if buf.Length < 1 { return 0; }
      buf[0] := value;
      ShortVarintBytes(value);
      return 1;
    }
    if value <= 16383 {
      if buf.Length < 2 { return 0; }
      ShortVarintBytes(value);
      buf[0] := 0x40 + value / 0x100;
      buf[1] := value % 0x100;
      return 2;
    }
    if value <= 1073741823 {
      if buf.Length < 4 { return 0; }
      ShortVarintBytes(value);
      buf[0] := 0x80 + value / 0x100_0000;
      buf[1] := value / 0x1_0000 % 0x100;
      buf[2] := value / 0x100 % 0x100;
      buf[3] := value % 0x100;
      return 4;
    }
    if value <= 4611686018427387903 {
      if buf.Length < 8 { return 0; }
      LongVarintBytes(value);
      buf[0] := 0xc0 + value / 0x100_0000_0000_0000;
      buf[1] := value / 0x1_0000_0000_0000 % 0x100;
      buf[2] := value / 0x100_0000_0000 % 0x100;
      buf[3] := value / 0x1_0000_0000 % 0x100;
      buf[4] := value / 0x100_0000 % 0x100;
      buf[5] := value / 0x1_0000 % 0x100;
      buf[6] := value / 0x100 % 0x100;
      buf[7] := value % 0x100;
      return 8;
    }
    return 0;
  }

  /** `cip_varint_decode`: 0 octets consumed on error; `value` is meaningful otherwise. */
  method Decode(buf: array<byte>) returns (n: nat, value: uint64)
    ensures n == 0 <==> DecodeVarint(buf[..]) == None
    ensures n > 0 ==> DecodeVarint(buf[..]) == Some(Decoded(value, n))
  {
    value := 0;
    if buf.Length == 0 { return 0, value; }
    n := PrefixLength(buf[0]);
    if ToInt32(buf.Length) < n { return 0, value; }
    var i := 1;
    ghost var t := Cleared(buf[..n]);
    value := buf[0] % 0x40;
    Pow256Values();
    assert t[..1][..0] == [];
    while i < n
      invariant 1 <= i <= n
      invariant value == BeNat(t[..i]) <= MAX_VARINT
    {
      assert t[..i + 1][..i] == t[..i];
      TopBitsFree(t[..i + 1]);
      Pow256Bound(i);
      value := value * 0x100 + buf[i];
      i := i + 1;
    }
    assert t[..n] == t;
  }

  lemma Pow256Bound(i: nat)
    requires i < 8
    ensures 0x40 * Pow256(i) <= MAX_VARINT + 1
  {
    Pow256Values();
    assert Pow256(5) == 0x100_0000_0000;
    assert Pow256(6) == 0x1_0000_0000_0000;
  }
}
