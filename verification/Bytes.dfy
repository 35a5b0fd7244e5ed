/** Octets, fixed-width unsigned integers and big-endian fields of packet buffers. */
module Bytes {

  type byte = b: int | 0 <= b < 0x100
  type uint16 = n: int | 0 <= n < 0x1_0000
  type uint32 = n: int | 0 <= n < 0x1_0000_0000
  type uint64 = n: int | 0 <= n < 0x1_0000_0000_0000_0000

  datatype Option<+T> = None | Some(value: T)

  /** The C conversion of a `size_t` to a 32-bit `int`: it keeps the low 32 bits, as two's complement. */
  function ToInt32(n: nat): int {
    var m := n % 0x1_0000_0000;
    if m < 0x8000_0000 then m else m - 0x1_0000_0000
  }

  /** Two octets in network order, read as one number. */
  function Word(hi: byte, lo: byte): uint16 {
    hi as int * 0x100 + lo as int
  }

  /** Addition in a 32-bit unsigned accumulator. */
  function Add32(a: uint32, b: uint32): uint32 {
    if a + b < 0x1_0000_0000 then a + b else a + b - 0x1_0000_0000
  }

  function Be16(s: seq<byte>, i: nat): uint16
    requires i + 2 <= |s|
  {
    Word(s[i], s[i + 1])
  }

  function Be32(s: seq<byte>, i: nat): uint32
    requires i + 4 <= |s|
  {
    Be16(s, i) as int * 0x1_0000 + Be16(s, i + 2) as int
  }

  function Be16Bytes(v: uint16): (r: seq<byte>)
    ensures |r| == 2
  {
    [v / 0x100, v % 0x100]
  }

  function Be32Bytes(v: uint32): (r: seq<byte>)
    ensures |r| == 4
  {
    [v / 0x100_0000, v / 0x1_0000 % 0x100, v / 0x100 % 0x100, v % 0x100]
  }

  lemma Be16RoundTrip(v: uint16)
    ensures Word(v / 0x100, v % 0x100) == v
    ensures Be16(Be16Bytes(v), 0) == v
  {
  }

  lemma Be32Digits(a: byte, b: byte, c: byte, d: byte)
    ensures Be32Bytes(Word(a, b) as int * 0x1_0000 + Word(c, d) as int) == [a, b, c, d]
  {
    var high: int := Word(a, b);
    var low: int := Word(c, d);
    assert high / 0x100 == a && high % 0x100 == b && low / 0x100 == c && low % 0x100 == d;
    Be32OfHalves(high, low);
  }

  lemma Be32OfHalves(high: uint16, low: uint16)
    ensures Be32Bytes(high as int * 0x1_0000 + low as int) == Be16Bytes(high) + Be16Bytes(low)
  {
    var h: int, l: int := high, low;
    var v := h * 0x1_0000 + l;
    assert v / 0x1_0000 == h;
    assert v / 0x100_0000 == h / 0x100;
    assert v / 0x100 == h * 0x100 + l / 0x100;
    assert v / 0x100 % 0x100 == l / 0x100;
    assert v % 0x100 == l % 0x100;
  }

  lemma Be32Inverse(s: seq<byte>, i: nat)
    requires i + 4 <= |s|
    ensures Be32Bytes(Be32(s, i)) == s[i..i + 4]
  {
    Be32Digits(s[i], s[i + 1], s[i + 2], s[i + 3]);
  }

  lemma Be32RoundTrip(v: uint32)
    ensures Be32(Be32Bytes(v), 0) == v
  {
    var high: int, low: int := v / 0x1_0000, v % 0x1_0000;
    assert v / 0x100_0000 == high / 0x100;
    assert v / 0x100 == high * 0x100 + low / 0x100;
    assert v / 0x100 % 0x100 == low / 0x100;
  }

  /** `s` with the octets `t` copied over position `i`: what `memcpy(s + i, t, |t|)` leaves behind. */
  function Put(s: seq<byte>, i: nat, t: seq<byte>): (r: seq<byte>)
    requires i + |t| <= |s|
    ensures |r| == |s|
    ensures forall k :: 0 <= k < |s| ==> r[k] == if i <= k < i + |t| then t[k - i] else s[k]
  {
    s[..i] + t + s[i + |t|..]
  }

  lemma Associative<T>(a: seq<T>, b: seq<T>, c: seq<T>)
    ensures a + b + c == a + (b + c)
  {
  }

  lemma PutInside(head: seq<byte>, m: seq<byte>, rest: seq<byte>, i: nat, t: seq<byte>)
    requires i + |t| <= |m|
    ensures Put(head + m + rest, |head| + i, t)[|head|..] == Put(m, i, t) + rest
  {
  }

  method Memcpy(dst: array<byte>, at: nat, src: seq<byte>)
    requires at + |src| <= dst.Length
    modifies dst
    ensures dst[..] == Put(old(dst[..]), at, src)
  {
    for k := 0 to |src|
      invariant forall j :: 0 <= j < dst.Length ==>
        dst[j] == if at <= j < at + k then src[j - at] else old(dst[j])
    {
      dst[at + k] := src[k];
    }
  }

  /** `memcpy` into a packet that fills the first `len` octets of its buffer. */
  method CopyInto(dst: array<byte>, ghost len: nat, at: nat, src: seq<byte>)
    requires at + |src| <= len <= dst.Length
    modifies dst
    ensures dst[..len] == Put(old(dst[..len]), at, src)
    ensures dst[len..] == old(dst[len..])
  {
    Memcpy(dst, at, src);
    assert dst[..len] == dst[..][..len];
    assert dst[len..] == dst[..][len..];
  }

  /** `memcpy` at the end of what has been written so far, inside a region that ends at `end`. */
  method Append(dst: array<byte>, at: nat, src: seq<byte>, ghost end: nat)
    requires at + |src| <= end <= dst.Length
    modifies dst
    ensures dst[..at + |src|] == old(dst[..at]) + src
    ensures dst[end..] == old(dst[end..])
  {
    Memcpy(dst, at, src);
    assert dst[..at + |src|] == dst[..][..at + |src|];
    assert dst[end..] == dst[..][end..];
  }

  method WriteBe16(dst: array<byte>, at: nat, v: uint16)
    requires at + 2 <= dst.Length
    modifies dst
    ensures dst[..] == Put(old(dst[..]), at, Be16Bytes(v))
  {
    dst[at] := v / 0x100;
    dst[at + 1] := v % 0x100;
  }
}
