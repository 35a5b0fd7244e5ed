/** The response splitting and the chunked decoder of https_client.cpp. */
module HttpResponse {
  import opened Bytes
  import opened Strings

  const CRLF := "\r\n"

  /**
   The body; or an exception (of `stoul`, or of `append` for more octets than a string can hold); or `Restarts`
   when the position wraps around to the start of the response and a chunk size stands there.
   */
  datatype Decoded = Body(text: string) | Exception | Restarts

  const SIZE_MODULUS: nat := 0x1_0000_0000_0000_0000

  /** What a `std::string` can hold. */
  predicate Fits(raw: string) {
    |raw| < 0x8000_0000_0000_0000
  }

  function Prepend(piece: string, d: Decoded): Decoded {
    if d.Body? then Body(piece + d.text) else d
  }

  // ---- std::stoul(text, nullptr, 16) ----

  function HexDigit(c: char): Option<nat> {
    if '0' <= c <= '9' then Some(c as int - '0' as int)
    else if 'a' <= c <= 'f' then Some(c as int - 'a' as int + 10)
    else if 'A' <= c <= 'F' then Some(c as int - 'A' as int + 10)
    else None
  }

  predicate IsHex(s: string) {
    forall k :: 0 <= k < |s| ==> HexDigit(s[k]).Some?
  }

  function HexValue(s: string): nat
    requires IsHex(s)
  {
    if |s| == 0 then 0 else HexValue(s[..|s| - 1]) * 16 + HexDigit(s[|s| - 1]).value
  }

  /** How many leading characters are hex digits. */
  function HexPrefix(s: string): (n: nat)
    ensures n <= |s| && IsHex(s[..n]) && (n < |s| ==> HexDigit(s[n]).None?)
  {
    if |s| == 0 || HexDigit(s[0]).None? then 0
    else
      var n := HexPrefix(s[1..]);
      assert s[..n + 1] == [s[0]] + s[1..][..n];
      n + 1
  }

  /** A `0x` counts only when a hex digit follows it. */
  function SkipPrefix(s: string): string {
    if |s| > 2 && s[0] == '0' && s[1] in {'x', 'X'} && HexDigit(s[2]).Some? then s[2..] else s
  }

  /** `None` for the exceptions: no digits, or a number beyond 64 bits. A minus sign negates modulo 2^64. */
  function Stoul(text: string): Option<uint64> {
    var t := SkipSpace(text);
    var signed := |t| > 0 && t[0] in {'+', '-'};
    var digits := SkipPrefix(if signed then t[1..] else t);
    var n := HexPrefix(digits);
    if n == 0 || HexValue(digits[..n]) >= 0x1_0000_0000_0000_0000 then None
    else
      var v := HexValue(digits[..n]);
      if signed && t[0] == '-' && v > 0 then Some(0x1_0000_0000_0000_0000 - v) else Some(v)
  }

  // ---- specification ----

  /** One round of the loop: it ends, it fails, or it yields a piece of the body and moves on. */
  datatype Step = Done | Fail(reason: Decoded) | Piece(text: string, next: nat)

  function Round(raw: string, pos: nat): (r: Step)
    requires pos < |raw|
    ensures r.Piece? ==> r.next > pos
  {
    match Find(raw, CRLF, pos)
    case None => Done
    case Some(lineEnd) =>
      match Stoul(raw[pos..lineEnd])
      case None => Fail(Exception)
      case Some(size) =>
        var end := lineEnd + 2 + size;
        if size == 0 then Done
        else if end >= SIZE_MODULUS then Fail(Exception)
        else if end + 2 >= SIZE_MODULUS then AfterWrap(raw, end + 2 - SIZE_MODULUS)
        else Piece(if end <= |raw| then raw[lineEnd + 2..end] else "", end + 2)
  }

  /** The round after the position has wrapped around to `pos`. */
  function AfterWrap(raw: string, pos: nat): (r: Step)
    ensures !r.Piece?
  {
    match Find(raw, CRLF, pos)
    case None => Done
    case Some(lineEnd) =>
      match Stoul(raw[pos..lineEnd])
      case None => Fail(Exception)
      case Some(size) => if size == 0 then Done else Fail(Restarts)
  }

  /** What the decoder makes of the text from `pos` on. */
  function Decode(raw: string, pos: nat): (d: Decoded)
    decreases |raw| - pos
  {
    if pos >= |raw| then Body("")
    else match Round(raw, pos)
      case Done => Body("")
      case Fail(reason) => reason
      case Piece(text, next) => Prepend(text, Decode(raw, next))
  }

  // ---- the code ----

  /** The loop over `pos`; every round moves it forward, so it ends. */
  method DecodeChunked(raw: string, bodyStart: nat) returns (d: Decoded)
    ensures d == Decode(raw, bodyStart)
  {
    hide Stoul, Find, Decode;
    var body := "";
    var pos := bodyStart;
    PrependNothing(Decode(raw, pos));
    while pos < |raw|
      invariant bodyStart <= pos
      invariant Decode(raw, bodyStart) == Prepend(body, Decode(raw, pos))
      decreases |raw| - pos
    {
      ghost var was, at := body, pos;
      DecodeStops(raw, at, body);
      var lineEnd := Find(raw, CRLF, pos);
      if lineEnd.None? { break; }
      var size := Stoul(raw[pos..lineEnd.value]);
      if size.None? { return Exception; }
      if size.value == 0 { break; }
      pos := lineEnd.value + 2;
      if pos + size.value >= SIZE_MODULUS {
        // the sum wraps around to a position inside the text, so `append` is called, and throws
        return Exception;
      }
      if pos + size.value + 2 >= SIZE_MODULUS {
        pos := pos + size.value + 2 - SIZE_MODULUS;
        lineEnd := Find(raw, CRLF, pos);
        if lineEnd.None? { break; }
        size := Stoul(raw[pos..lineEnd.value]);
        if size.None? { return Exception; }
        if size.value == 0 { break; }
        return Restarts;
      }
      if pos + size.value <= |raw| {
        body := body + raw[pos..pos + size.value];
      }
      pos := pos + size.value + 2;
      DecodeOnePiece(raw, at, was, body, pos);
    }
    if pos >= |raw| {
      DecodeStops(raw, pos, body);
    }
    return Body(body);
  }

  lemma PrependNothing(d: Decoded)
    ensures Prepend("", d) == d
  {
  }

  lemma DecodeStops(raw: string, at: nat, body: string)
    ensures at >= |raw| || Round(raw, at).Done? ==> Prepend(body, Decode(raw, at)) == Body(body)
    ensures at < |raw| && Round(raw, at).Fail? ==> Decode(raw, at) == Round(raw, at).reason
  {
    assert body + "" == body;
  }

  lemma DecodeOnePiece(raw: string, at: nat, was: string, body: string, next: nat)
    requires at < |raw| && Round(raw, at).Piece? && Round(raw, at).next == next
    requires body == was + Round(raw, at).text
    ensures Prepend(was, Decode(raw, at)) == Prepend(body, Decode(raw, next))
  {
    hide Round;
    var text, d := Round(raw, at).text, Decode(raw, next);
    if d.Body? {
      assert was + (text + d.text) == body + d.text;
    }
  }

  // ---- the response ----

  const HEADERS_END := "\r\n\r\n"

  predicate SaysChunked(raw: string) {
    Find(raw, "Transfer-Encoding: chunked", 0).Some? || Find(raw, "transfer-encoding: chunked", 0).Some?
  }

  /** The body that `https_request` hands out for the octets it has read. */
  function ResponseBody(raw: string): Decoded {
    match Find(raw, HEADERS_END, 0)
    case None => Body("")
    case Some(end) => if SaysChunked(raw) then Decode(raw, end + 4) else Body(raw[end + 4..])
  }

  method SplitResponse(raw: string) returns (d: Decoded)
    ensures d == ResponseBody(raw)
  {
    hide Find, Decode;
    var bodyStart := Find(raw, HEADERS_END, 0);
    if bodyStart.None? { return Body(""); }
    var pos := bodyStart.value + 4;
    if Find(raw, "Transfer-Encoding: chunked", 0).Some? || Find(raw, "transfer-encoding: chunked", 0).Some? {
      d := DecodeChunked(raw, pos);
    } else {
      d := Body(raw[pos..]);
    }
  }
}
