/**
 The Internet checksum (RFC 1071): 16-bit one's-complement sums with end-around carry,
 and the deferred-carry loops that connect_ip.c and dns_hijack.c compute them with.
 */
module OnesComplement {
  import opened Bytes

  /** Plain sum of the big-endian 16-bit words of `s`; an odd last octet is padded with a zero octet. */
  function WordSum(s: seq<byte>): (n: nat) {
    if |s| == 0 then 0
    else if |s| == 1 then Word(s[0], 0)
    else Be16(s, 0) + WordSum(s[2..])
  }

  /** The `while (sum >> 16)` loop: carries folded back into the low 16 bits until none is left. */
  function Fold(n: nat): (f: uint16)
    decreases n
  {
    if n < 0x1_0000 then n else Fold(n % 0x1_0000 + n / 0x1_0000)
  }

  /** One's-complement addition of two 16-bit words: the carry out is added back in at once. */
  function OcAdd(a: uint16, b: uint16): (c: uint16) {
    if a + b < 0x1_0000 then a + b else a + b - 0xffff
  }

  /** Reference definition (RFC 1071, section 1): the one's-complement sum of the words of `s`. */
  function OcSum(s: seq<byte>): (c: uint16) {
    if |s| == 0 then 0
    else if |s| == 1 then Word(s[0], 0)
    else OcAdd(Be16(s, 0), OcSum(s[2..]))
  }

  /** What a receiver checks: data together with its stored checksum sums to all ones. */
  predicate Verifies(s: seq<byte>) {
    OcSum(s) == 0xffff
  }

  // ---- the fold ----

  lemma {:induction false} FoldQuotient(n: nat) returns (q: nat)
    ensures n == 0xffff * q + Fold(n)
    ensures Fold(n) == 0 <==> n == 0
    decreases n
  {
    if n < 0x1_0000 {
      q := 0;
    } else {
      q := FoldQuotient(n % 0x1_0000 + n / 0x1_0000);
      q := q + n / 0x1_0000;
    }
  }

  /** The fold is the residue modulo 0xffff, with 0xffff standing for every non-zero multiple. */
  lemma {:induction false} FoldIsResidue(n: nat)
    ensures Fold(n) == if n == 0 then 0 else (n - 1) % 0xffff + 1
  {
    var q := FoldQuotient(n);
    hide Fold;
  }

  lemma FoldUnique(n: nat, q: nat, f: uint16)
    requires n == 0xffff * q + f && f > 0
    ensures Fold(n) == f
  {
    var q' := FoldQuotient(n);
    hide Fold;
    assert 0xffff * (q - q') == Fold(n) as int - f as int;
  }

  /** Adding one more word commutes with folding. */
  lemma FoldAdd(w: uint16, n: nat)
    ensures OcAdd(w, Fold(n)) == Fold(w + n)
  {
    var q := FoldQuotient(n);
    if n > 0 && w > 0 {
      if w + Fold(n) < 0x1_0000 {
        FoldUnique(w + n, q, w + Fold(n));
      } else {
        FoldUnique(w + n, q + 1, w + Fold(n) - 0xffff);
      }
    }
  }

  lemma FoldIsAllOnes(n: nat)
    ensures Fold(n) == 0xffff <==> n > 0 && n % 0xffff == 0
  {
    var q := FoldQuotient(n);
  }

  /** Deferring every carry to one fold at the end gives the end-around-carry sum, for any length. */
  lemma {:induction false} DeferredCarries(s: seq<byte>)
    ensures OcSum(s) == Fold(WordSum(s))
    decreases |s|
  {
    if |s| > 1 {
      DeferredCarries(s[2..]);
      FoldAdd(Be16(s, 0), WordSum(s[2..]));
    }
  }

  lemma VerifiesByResidue(s: seq<byte>)
    ensures Verifies(s) <==> WordSum(s) > 0 && WordSum(s) % 0xffff == 0
  {
    DeferredCarries(s);
    FoldIsAllOnes(WordSum(s));
  }

  // ---- the word sum ----

  lemma {:induction false} WordSumConcat(a: seq<byte>, b: seq<byte>)
    requires |a| % 2 == 0
    ensures WordSum(a + b) == WordSum(a) + WordSum(b)
    decreases |a|
  {
    if a == [] {
      assert a + b == b;
    } else {
      assert (a + b)[2..] == a[2..] + b;
      WordSumConcat(a[2..], b);
    }
  }

  lemma WordSumSplit(s: seq<byte>, i: nat)
    requires i <= |s| && i % 2 == 0
    ensures WordSum(s) == WordSum(s[..i]) + WordSum(s[i..])
  {
    assert s == s[..i] + s[i..];
    WordSumConcat(s[..i], s[i..]);
  }

  lemma WordSumAround(s: seq<byte>, i: nat)
    requires i + 2 <= |s| && i % 2 == 0
    ensures WordSum(s) == WordSum(s[..i]) + Be16(s, i) + WordSum(s[i + 2..])
  {
    WordSumSplit(s, i);
    assert s[i..][2..] == s[i + 2..];
  }

  /** Replacing one aligned word moves the sum by exactly the difference of the words. */
  lemma WordSumPut(s: seq<byte>, i: nat, v: uint16)
    requires i + 2 <= |s| && i % 2 == 0
    ensures WordSum(Put(s, i, Be16Bytes(v))) == WordSum(s) - Be16(s, i) + v
  {
    var r := Put(s, i, Be16Bytes(v));
    WordSumAround(s, i);
    WordSumAround(r, i);
    assert r[..i] == s[..i] && r[i + 2..] == s[i + 2..];
  }

  /** The sum of `n` octets fits a 32-bit accumulator whenever `n <= 131074`. */
  lemma {:induction false} WordSumBound(s: seq<byte>)
    ensures WordSum(s) <= 0xffff * ((|s| + 1) / 2)
    ensures |s| <= 131074 ==> WordSum(s) < 0x1_0000_0000
    decreases |s|
  {
    if |s| > 1 {
      WordSumBound(s[2..]);
    }
  }

  // ---- storing a checksum ----

  lemma ComplementByResidue(n: nat, w: uint16)
    ensures Fold(n + w) == 0xffff <==>
      w == 0xffff - Fold(n) || (w == 0xffff && Fold(n) == 0xffff)
  {
    var q := FoldQuotient(n);
    if n > 0 {
      var f: int := Fold(n);
      if f + w <= 0xffff {
        FoldUnique(n + w, q, f + w);
      } else {
        FoldUnique(n + w, q + 1, f + w - 0xffff);
      }
    }
  }

  /**
   Data whose checksum word is still zero verifies with `w` stored there exactly when `w` is the
   complement of the sum, or is the 0xffff that stands in for a computed 0 (RFC 768).
   */
  lemma StoredChecksumVerifies(s: seq<byte>, i: nat, w: uint16)
    requires i + 2 <= |s| && i % 2 == 0 && Be16(s, i) == 0
    ensures Verifies(Put(s, i, Be16Bytes(w))) <==>
      w == 0xffff - Fold(WordSum(s)) || (w == 0xffff && Fold(WordSum(s)) == 0xffff)
  {
    WordSumPut(s, i, w);
    DeferredCarries(Put(s, i, Be16Bytes(w)));
    ComplementByResidue(WordSum(s), w);
  }

  /** The same for a message `m` that is checksummed together with a pseudo-header `c` it does not contain. */
  lemma StoredBehindPseudoHeader(c: seq<byte>, m: seq<byte>, i: nat, w: uint16)
    requires |c| % 2 == 0 && i + 2 <= |m| && i % 2 == 0 && Be16(m, i) == 0
    ensures Verifies(c + Put(m, i, Be16Bytes(w))) <==>
      var f := Fold(WordSum(c) + WordSum(m));
      w == 0xffff - f || (w == 0xffff && f == 0xffff)
  {
    hide Be16Bytes, Fold, WordSum, OcSum, Put;
    var r := Put(m, i, Be16Bytes(w));
    WordSumConcat(c, r);
    WordSumPut(m, i, w);
    var n := WordSum(c) + WordSum(m);
    assert WordSum(c + r) == n + w;
    DeferredCarries(c + r);
    assert OcSum(c + r) == Fold(n + w);
    ComplementByResidue(n, w);
  }

  // ---- the loops ----

  /** The fold loop followed by `(uint16_t)(~sum)`. */
  method FoldComplement(total: uint32) returns (c: uint16)
    ensures c == 0xffff - Fold(total)
  {
    var sum: uint32 := total;
    while sum >= 0x1_0000
      invariant Fold(sum) == Fold(total)
      decreases sum
    {
      sum := sum % 0x1_0000 + sum / 0x1_0000;
    }
    c := 0xffff - sum;
  }

  /** What the word loop still has to add when it stands at index `i`. */
  ghost function SumFrom(s: seq<byte>, i: nat): nat
    decreases |s| - i
  {
    if i >= |s| then 0
    else if i + 1 == |s| then Word(s[i], 0)
    else Word(s[i], s[i + 1]) + SumFrom(s, i + 2)
  }

  lemma {:induction false} SumFromSuffix(s: seq<byte>, i: nat)
    requires i <= |s|
    ensures SumFrom(s, i) == WordSum(s[i..])
    decreases |s| - i
  {
    if i + 1 < |s| {
      SumFromSuffix(s, i + 2);
      assert s[i..][2..] == s[i + 2..];
    }
  }

  lemma SumFromStart(s: seq<byte>)
    ensures SumFrom(s, 0) == WordSum(s)
  {
    SumFromSuffix(s, 0);
    assert s[0..] == s;
  }

  /** The word loop over `data[from..to]` with its odd-octet tail; the 32-bit accumulator never wraps. */
  method AddWords(data: array<byte>, from: nat, to: nat, start: uint32) returns (sum: uint32)
    requires from <= to <= data.Length
    requires 2 * start + 0xffff * (to - from + 1) < 0x2_0000_0000
    ensures sum == start + WordSum(data[from..to])
  {
    sum := start;
    ghost var s := data[from..to];
    SumFromStart(s);
    ghost var k: nat := 0;  // words added so far
    var i := from;
    while i + 1 < to
      invariant i == from + 2 * k <= to
      invariant sum + SumFrom(s, 2 * k) == start + WordSum(s)
      invariant sum <= start + 0xffff * k
    {
      sum := sum + Word(data[i], data[i + 1]);
      i := i + 2;
      k := k + 1;
    }
    if (to - from) % 2 == 1 {
      sum := sum + Word(data[to - 1], 0);
    }
  }

  /** `icmp_checksum` of connect_ip.c; its 32-bit accumulator wraps on very long data. */
  method IcmpChecksum(data: array<byte>, len: nat) returns (c: uint16)
    requires len <= data.Length
    ensures c == 0xffff - Fold(WordSum(data[..len]) % 0x1_0000_0000)
  {
    var sum: uint32 := 0;
    ghost var s := data[..len];
    SumFromStart(s);
    ghost var k: nat, wraps: nat := 0, 0;
    var i := 0;
    while i + 1 < len
      invariant i == 2 * k <= len
      invariant 0x1_0000_0000 * wraps + sum + SumFrom(s, i) == WordSum(s)
    {
      wraps := if sum + Word(data[i], data[i + 1]) < 0x1_0000_0000 then wraps else wraps + 1;
      sum := Add32(sum, Word(data[i], data[i + 1]));
      i := i + 2;
      k := k + 1;
    }
    if len % 2 == 1 {
      wraps := if sum + Word(data[len - 1], 0) < 0x1_0000_0000 then wraps else wraps + 1;
      sum := Add32(sum, Word(data[len - 1], 0));
    }
    WrappedSum(WordSum(s), wraps, sum);
    c := FoldComplement(sum);
  }

  lemma WrappedSum(n: nat, q: nat, r: uint32)
    requires n == 0x1_0000_0000 * q + r
    ensures n % 0x1_0000_0000 == r
  {
  }
}
