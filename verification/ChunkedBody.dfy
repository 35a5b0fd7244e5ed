/** Chunked bodies as RFC 9112, section 7.1, writes them, and what the decoder of https_client.cpp makes of them. */
module ChunkedBody {
  import opened Bytes
  import opened Strings
  import opened HttpResponse

  /** A chunk as printed: the size in hex digits of any case, an extension, and the data. */
  datatype Chunk = Chunk(size: string, ext: string, data: string)

  /** The zero chunk with whatever follows it. */
  datatype Last = Last(zero: string, ext: string, trailers: string)

  /** No line break inside the size line, and a separator before any extension. */
  predicate GoodLine(size: string, ext: string) {
    && |size| > 0 && IsHex(size)
    && !Occurs(ext, "\r\n")
    && (|ext| > 0 ==> ext[0] in {';', ' ', '\t'})
  }

  predicate GoodChunk(c: Chunk) {
    GoodLine(c.size, c.ext) && HexValue(c.size) == |c.data| && 0 < |c.data| < 0x7fff_ffff_ffff_ffff
  }

  predicate GoodChunks(cs: seq<Chunk>) {
    forall c :: c in cs ==> GoodChunk(c)
  }

  function PrintChunk(c: Chunk): string {
    c.size + c.ext + "\r\n" + c.data + "\r\n"
  }

  predicate GoodLast(last: Last) {
    GoodLine(last.zero, last.ext) && HexValue(last.zero) == 0
  }

  function PrintLast(last: Last): string {
    last.zero + last.ext + "\r\n" + last.trailers
  }

  function PrintChunks(cs: seq<Chunk>, last: Last): string {
    if |cs| == 0 then PrintLast(last) else PrintChunk(cs[0]) + PrintChunks(cs[1..], last)
  }

  function Contents(cs: seq<Chunk>): string {
    if |cs| == 0 then "" else cs[0].data + Contents(cs[1..])
  }

  /** The data of the chunks that lie wholly inside the first `k` characters of the body. */
  function Present(cs: seq<Chunk>, k: int): string {
    if |cs| == 0 || k < |cs[0].size| + |cs[0].ext| + 2 + |cs[0].data| then ""
    else cs[0].data + Present(cs[1..], k - |PrintChunk(cs[0])|)
  }

  // ---- the size line ----

  lemma {:induction false} HexPrefixStops(s: string, rest: string)
    requires IsHex(s) && (|rest| > 0 ==> HexDigit(rest[0]).None?)
    ensures HexPrefix(s + rest) == |s|
    decreases |s|
  {
    if |s| == 0 {
      assert s + rest == rest;
    } else {
      assert (s + rest)[1..] == s[1..] + rest;
      HexPrefixStops(s[1..], rest);
    }
  }

  lemma HexIsPlain(c: char)
    requires HexDigit(c).Some?
    ensures !IsSpace(c) && c !in {'+', '-', 'x', 'X', '\r', '\n', ';'}
  {
  }

  /** `std::stoul` reads the size and stops at the extension. */
  lemma StoulReadsSize(size: string, ext: string)
    requires GoodLine(size, ext) && HexValue(size) < 0x1_0000_0000_0000_0000
    ensures Stoul(size + ext) == Some(HexValue(size))
  {
    var line := size + ext;
    HexIsPlain(size[0]);
    assert line[0] == size[0];
    assert SkipSpace(line) == line;
    assert SkipPrefix(line) == line by {
      if |size| > 1 {
        HexIsPlain(size[1]);
        assert line[1] == size[1];
      } else if |ext| > 0 {
        assert line[1] == ext[0];
      }
    }
    HexPrefixStops(size, ext);
    assert line[..|size|] == size;
  }

  /** The line break after the size line is the first one. */
  lemma LineEndsAt(size: string, ext: string, more: string, k: nat)
    requires GoodLine(size, ext) && k <= |size| + |ext| + 2 + |more|
    ensures var line := size + ext;
      Find((line + CRLF + more)[..k], CRLF, 0) == if k >= |line| + 2 then Some(|line|) else None
  {
    var line := size + ext;
    var t := (line + CRLF + more)[..k];
    forall i | 0 <= i < |line| ensures !OccursAt(t, CRLF, i) {
      BreakAt(t, i);
      if i < |size| {
        HexIsPlain(size[i]);
        assert line[i] == size[i];
      } else if i + 1 < |line| {
        BreakAt(ext, i - |size|);
        assert !OccursAt(ext, CRLF, i - |size|);
        assert line[i] == ext[i - |size|] && line[i + 1] == ext[i + 1 - |size|];
      }
    }
    if k >= |line| + 2 {
      assert t[|line|..|line| + 2] == CRLF;
      FindUnique(t, CRLF, 0, |line|);
    } else {
      FindIsFirst(t, CRLF, 0);
      assert forall i :: |line| <= i ==> !OccursAt(t, CRLF, i);
    }
  }

  lemma BreakAt(t: string, i: nat)
    ensures OccursAt(t, CRLF, i) <==> i + 2 <= |t| && t[i] == '\r' && t[i + 1] == '\n'
  {
    if i + 2 <= |t| {
      assert t[i..i + 2] == [t[i], t[i + 1]];
    }
  }

  /** What the decoder reads at the start of a chunk that is cut after `k` characters. */
  lemma SizeLine(raw: string, pos: nat, size: string, ext: string, more: string, k: nat)
    requires GoodLine(size, ext) && HexValue(size) < 0x1_0000_0000_0000_0000
    requires pos <= |raw| && k <= |size| + |ext| + 2 + |more| && raw[pos..] == (size + ext + CRLF + more)[..k]
    ensures var n := |size| + |ext|;
      && Find(raw, CRLF, pos) == (if k >= n + 2 then Some(pos + n) else None)
      && (k >= n + 2 ==> pos + n <= |raw| && Stoul(raw[pos..pos + n]) == Some(HexValue(size)))
  {
    hide Stoul, Find, HexValue, GoodLine, OccursAt;
    LineEndsAt(size, ext, more, k);
    FindInSuffix(raw, CRLF, pos);
    StoulReadsSize(size, ext);
    LineText(raw, pos, size + ext, CRLF + more, k);
    assert size + ext + CRLF + more == size + ext + (CRLF + more);
  }

  lemma LineText(raw: string, pos: nat, line: string, rest: string, k: nat)
    requires pos <= |raw| && k <= |line + rest| && raw[pos..] == (line + rest)[..k]
    ensures k >= |line| ==> pos + |line| <= |raw| && raw[pos..pos + |line|] == line
  {
    if k >= |line| {
      assert raw[pos..pos + |line|] == raw[pos..][..|line|];
    }
  }

  function HexChar(n: nat): char
    requires n < 16
  {
    if n < 10 then '0' + n as char else 'a' + (n - 10) as char
  }

  /** The digits, in lower and in upper case, and no other characters. */
  lemma HexDigits(n: nat, c: char)
    ensures n < 16 ==> HexDigit(HexChar(n)) == Some(n)
    ensures 10 <= n < 16 ==> HexDigit('A' + (n - 10) as char) == Some(n)
    ensures HexDigit(c).Some? <==> '0' <= c <= '9' || 'a' <= c <= 'f' || 'A' <= c <= 'F'
  {
  }

  /** A number in lower-case hex digits. */
  function Hex(n: nat): (s: string)
    ensures |s| > 0
  {
    if n < 16 then [HexChar(n)] else Hex(n / 16) + [HexChar(n % 16)]
  }

  lemma {:induction false} HexIsRead(n: nat)
    ensures IsHex(Hex(n)) && HexValue(Hex(n)) == n
    decreases n
  {
    HexDigits(if n < 16 then n else n % 16, '0');
    if n < 16 {
      assert Hex(n)[..0] == "";
    } else {
      HexIsRead(n / 16);
      var s, d := Hex(n / 16), [HexChar(n % 16)];
      assert (s + d)[..|s|] == s;
      hide HexDigit;
    }
  }

  lemma SampleDigits()
    ensures HexPrefix("1Fg") == 2 && HexValue("1F") == 31 && HexPrefix("1") == 1 && HexValue("1") == 1
    ensures HexPrefix("g") == 0
  {
    assert "1Fg"[1..] == "Fg" && "Fg"[1..] == "g" && "1"[1..] == "";
    assert "1F"[..1] == "1" && "1"[..0] == "";
  }

  /** White space, a sign and a `0x` in front of the digits are taken; a minus negates modulo 2^64. */
  lemma SampleSizes()
    ensures Stoul("1Fg") == Some(31) && Stoul(" +0x1Fg") == Some(31) && Stoul("-1") == Some(0xffff_ffff_ffff_ffff)
    ensures Stoul("g") == None && Stoul("") == None
  {
    SampleDigits();
    assert " +0x1Fg"[1..] == "+0x1Fg" && "+0x1Fg"[1..] == "0x1Fg" && "0x1Fg"[2..] == "1Fg" && "-1"[1..] == "1";
    assert "1Fg"[..2] == "1F" && "1"[..1] == "1";
    assert SkipSpace(" +0x1Fg") == SkipSpace("+0x1Fg") == "+0x1Fg";
    assert SkipSpace("1Fg") == "1Fg" && SkipSpace("-1") == "-1" && SkipSpace("g") == "g" && SkipSpace("") == "";
    hide HexPrefix, HexValue, SkipSpace;
    assert SkipPrefix("0x1Fg") == "1Fg" && SkipPrefix("1Fg") == "1Fg";
    assert SkipPrefix("1") == "1" && SkipPrefix("g") == "g" && SkipPrefix("") == "";
    assert HexPrefix("") == 0;
  }

  // ---- decoding a truncated body ----

  /** The last part yields nothing, however much of it is there. */
  lemma LastYieldsNothing(raw: string, pos: nat, last: Last, k: nat)
    requires pos <= |raw| && GoodLast(last) && k <= |PrintLast(last)| && raw[pos..] == PrintLast(last)[..k]
    ensures Decode(raw, pos) == Body("")
  {
    hide Stoul, Find, GoodLine;
    if pos < |raw| {
      SizeLine(raw, pos, last.zero, last.ext, last.trailers, k);
      hide HexValue;
      assert Round(raw, pos) == Done;
    }
  }

  /** One round over a body that starts with chunk `c` and is cut after `k` characters. */
  lemma RoundOverChunk(raw: string, pos: nat, c: Chunk, more: string, k: nat)
    requires Fits(raw) && pos < |raw| && GoodChunk(c)
    requires k <= |PrintChunk(c) + more| && raw[pos..] == (PrintChunk(c) + more)[..k]
    ensures Round(raw, pos) ==
      if k < |c.size| + |c.ext| + 2 then Done
      else Piece(if k >= |c.size| + |c.ext| + 2 + |c.data| then c.data else "", pos + |PrintChunk(c)|)
  {
    hide Stoul, Find, GoodLine;
    var line := c.size + c.ext;
    var rest := c.data + CRLF + more;
    PrintedParts(c, more);
    SizeLine(raw, pos, c.size, c.ext, rest, k);
    hide HexValue;
    assert |raw| == pos + k;
    if k >= |line| + 2 + |c.data| {
      DataText(raw, pos, line + CRLF, c.data, CRLF + more, k);
    }
  }

  lemma PrintedParts(c: Chunk, more: string)
    ensures PrintChunk(c) + more == c.size + c.ext + CRLF + (c.data + CRLF + more)
    ensures PrintChunk(c) + more == c.size + c.ext + CRLF + c.data + (CRLF + more)
    ensures |PrintChunk(c)| == |c.size| + |c.ext| + 2 + |c.data| + 2
  {
  }

  lemma DataText(raw: string, pos: nat, before: string, data: string, rest: string, k: nat)
    requires pos <= |raw| && |before + data| <= k <= |before + data + rest|
    requires raw[pos..] == (before + data + rest)[..k]
    ensures pos + |before + data| <= |raw| && raw[pos + |before|..pos + |before + data|] == data
  {
    var t := raw[pos..];
    assert t[|before|..|before + data|] == data;
    forall i | 0 <= i < |data| ensures raw[pos + |before| + i] == data[i] {
      assert t[|before| + i] == data[i];
    }
  }

  /**
   Chunked decoding, for every list of chunks, every extension and every truncation: the decoder returns
   exactly the data of the chunks that are wholly present, whatever octets the data contains.
   */
  lemma {:induction false} DecodesWhatIsPresent(raw: string, pos: nat, cs: seq<Chunk>, last: Last, k: nat)
    requires Fits(raw) && GoodChunks(cs) && GoodLast(last)
    requires pos <= |raw| && k <= |PrintChunks(cs, last)| && raw[pos..] == PrintChunks(cs, last)[..k]
    ensures Decode(raw, pos) == Body(Present(cs, k))
    decreases |cs|
  {
    hide Round, PrintChunk, PrintLast, GoodChunk, GoodLast, GoodLine, HexValue;
    if |cs| == 0 {
      LastYieldsNothing(raw, pos, last, k);
    } else if pos < |raw| {
      var c, more := cs[0], PrintChunks(cs[1..], last);
      RoundOverChunk(raw, pos, c, more, k);
      var next := pos + |PrintChunk(c)|;
      PrintedParts(c, more);
      if k >= |PrintChunk(c)| {
        RestOfText(raw, pos, PrintChunk(c), more, k);
        DecodesWhatIsPresent(raw, next, cs[1..], last, k - |PrintChunk(c)|);
      } else {
        NothingPresent(cs[1..], k - |PrintChunk(c)|);
        assert next >= |raw|;
      }
    } else {
      NothingPresent(cs, k);
    }
  }

  lemma RestOfText(raw: string, pos: nat, first: string, more: string, k: nat)
    requires pos <= |raw| && |first| <= k <= |first + more| && raw[pos..] == (first + more)[..k]
    ensures pos + |first| <= |raw| && raw[pos + |first|..] == more[..k - |first|]
  {
    assert raw[pos + |first|..] == raw[pos..][|first|..];
  }

  lemma NothingPresent(cs: seq<Chunk>, k: int)
    requires k <= 0
    ensures Present(cs, k) == ""
  {
  }

  lemma {:induction false} AllPresent(cs: seq<Chunk>, last: Last)
    ensures Present(cs, |PrintChunks(cs, last)|) == Contents(cs)
    decreases |cs|
  {
    if |cs| > 0 {
      AllPresent(cs[1..], last);
    }
  }

  /** A complete chunked body decodes to the concatenation of its chunks. */
  lemma DecodeInvertsPrint(head: string, cs: seq<Chunk>, last: Last)
    requires GoodChunks(cs) && GoodLast(last) && Fits(head + PrintChunks(cs, last))
    ensures Decode(head + PrintChunks(cs, last), |head|) == Body(Contents(cs))
  {
    var full := PrintChunks(cs, last);
    assert (head + full)[|head|..] == full[..|full|];
    DecodesWhatIsPresent(head + full, |head|, cs, last, |full|);
    AllPresent(cs, last);
  }

  // ---- the response ----

  lemma RoundShrinks(raw: string, pos: nat)
    requires pos < |raw|
    ensures var r := Round(raw, pos);
      r.Piece? ==> r.next >= pos + |r.text| + 4 && (r.text != "" ==> r.next <= |raw| + 2)
    ensures Round(raw, pos).Fail? ==> !Round(raw, pos).reason.Body?
  {
    hide Stoul, Find;
  }

  lemma {:induction false} DecodeShrinks(raw: string, pos: nat)
    requires pos <= |raw| && Decode(raw, pos).Body?
    ensures |Decode(raw, pos).text| <= |raw| - pos
    ensures pos < |raw| ==> |Decode(raw, pos).text| < |raw| - pos
    decreases |raw| - pos
  {
    hide Round;
    if pos < |raw| {
      RoundShrinks(raw, pos);
      if Round(raw, pos).Piece? && Round(raw, pos).next < |raw| {
        DecodeShrinks(raw, Round(raw, pos).next);
      }
    }
  }

  lemma NotHex(raw: string, pos: nat, end: nat)
    requires "HTTP/" <= raw && pos <= 1 && pos <= end <= |raw|
    ensures Stoul(raw[pos..end]) == None
  {
    if pos < end {
      assert raw[pos..end][0] == "HTTP/"[pos];
    }
  }

  /** The wrapped position never yields a size in a response that starts as HTTP responses do. */
  lemma {:induction false} HttpNeverRestarts(raw: string, pos: nat)
    requires "HTTP/" <= raw
    ensures Decode(raw, pos) != Restarts
    decreases |raw| - pos
  {
    hide Stoul, Find;
    if pos < |raw| {
      RoundNeverRestarts(raw, pos);
      hide Round;
      if Round(raw, pos).Piece? {
        HttpNeverRestarts(raw, Round(raw, pos).next);
      }
    }
  }

  lemma RoundNeverRestarts(raw: string, pos: nat)
    requires "HTTP/" <= raw && pos < |raw|
    ensures Round(raw, pos) != Fail(Restarts)
  {
    hide Stoul, Find;
    forall p: nat, end: nat | p <= 1 && p <= end <= |raw| ensures Stoul(raw[p..end]) == None {
      NotHex(raw, p, end);
    }
  }

  lemma DecodeAtEnd(raw: string)
    ensures Decode(raw, |raw|) == Body("")
  {
  }

  /**
   A size of 2^63 and more, which no response can hold: the chunk is skipped and the body ends, unless the end of
   the chunk wraps around to a place inside the response, where appending it throws.
   */
  lemma HugeSize(raw: string, pos: nat, line: nat, size: nat)
    requires Fits(raw) && pos < |raw| && Find(raw, "\r\n", pos) == Some(line)
    requires Stoul(raw[pos..line]) == Some(size) && 0x8000_0000_0000_0000 <= size < 0x1_0000_0000_0000_0000
    ensures line + 4 + size < 0x1_0000_0000_0000_0000 ==> Decode(raw, pos) == Body("")
    ensures line + 2 + size >= 0x1_0000_0000_0000_0000 ==> Decode(raw, pos) == Exception
  {
    hide Stoul, Find;
    if line + 4 + size < 0x1_0000_0000_0000_0000 {
      assert Round(raw, pos) == Piece("", line + 4 + size);
    }
  }

  /** Without the end of the headers there is no body. */
  lemma NoHeadersNoBody(raw: string)
    requires !Occurs(raw, "\r\n\r\n")
    ensures ResponseBody(raw) == Body("")
  {
    hide Find, Decode;
    FindIffOccurs(raw, "\r\n\r\n");
  }

  /** The first blank line of `head + "\r\n\r\n"` is the one that ends it. */
  predicate EndsHeaders(head: string) {
    Find(head + "\r\n\r\n", "\r\n\r\n", 0) == Some(|head|)
  }

  lemma BodyStartsAfterHeaders(head: string, body: string)
    requires EndsHeaders(head)
    ensures Find(head + HEADERS_END + body, HEADERS_END, 0) == Some(|head|)
  {
    var h, raw := head + HEADERS_END, head + HEADERS_END + body;
    forall k | 0 <= k <= |head| ensures OccursAt(raw, HEADERS_END, k) <==> OccursAt(h, HEADERS_END, k) {
      OccursInPrefix(h, body, HEADERS_END, k);
    }
    FindIsFirst(h, HEADERS_END, 0);
    FindUnique(raw, HEADERS_END, 0, |head|);
  }

  /** The words that make a response count as chunked. */
  lemma NamesTheEncoding(raw: string)
    ensures SaysChunked(raw) <==>
      Occurs(raw, "Transfer-Encoding: chunked") || Occurs(raw, "transfer-encoding: chunked")
  {
    hide Find, OccursAt;
    FindIffOccurs(raw, "Transfer-Encoding: chunked");
    FindIffOccurs(raw, "transfer-encoding: chunked");
  }

  lemma FindIffOccurs(s: string, pat: string)
    ensures Find(s, pat, 0).Some? <==> Occurs(s, pat)
  {
    hide Find;
    FindIsFirst(s, pat, 0);
  }

  /** A response that names the encoding, in either spelling, yields the concatenation of its chunks. */
  lemma ChunkedResponse(head: string, cs: seq<Chunk>, last: Last, raw: string)
    requires EndsHeaders(head) && GoodChunks(cs) && GoodLast(last)
    requires raw == head + "\r\n\r\n" + PrintChunks(cs, last) && Fits(raw)
    requires Occurs(raw, "Transfer-Encoding: chunked") || Occurs(raw, "transfer-encoding: chunked")
    ensures ResponseBody(raw) == Body(Contents(cs))
  {
    hide Find, Decode, SaysChunked, EndsHeaders, Occurs;
    NamesTheEncoding(raw);
    BodyStartsAfterHeaders(head, PrintChunks(cs, last));
    DecodeInvertsPrint(head + "\r\n\r\n", cs, last);
  }

  /**
   The encoding is looked for in the whole response, not in its headers only. A body that is sent as it
   stands is therefore returned as it stands exactly when neither spelling occurs anywhere in the response,
   body included (or the body is empty).
   */
  lemma PlainResponseIff(head: string, body: string, raw: string)
    requires EndsHeaders(head) && raw == head + "\r\n\r\n" + body
    ensures ResponseBody(raw) == Body(body) <==>
      || body == ""
      || (!Occurs(raw, "Transfer-Encoding: chunked") && !Occurs(raw, "transfer-encoding: chunked"))
  {
    DecodeAtEnd(raw);
    hide Find, Decode, SaysChunked, Occurs, EndsHeaders;
    NamesTheEncoding(raw);
    BodyStartsAfterHeaders(head, body);
    assert raw[|head| + 4..] == body;
    if Decode(raw, |head| + 4).Body? {
      DecodeShrinks(raw, |head| + 4);
    }
  }

  /** A usual response. */
  lemma HelloIsDecoded(raw: string, line: string, words: string, body: string)
    requires line == "HTTP/1.1 200 OK\r\n" && words == "Transfer-Encoding: chunked"
    requires body == "5\r\nhello\r\n0\r\n\r\n" && raw == line + words + "\r\n\r\n" + body
    ensures ResponseBody(raw) == Body("hello")
  {
    var c, last := Chunk("5", "", "hello"), Last("0", "", "\r\n");
    assert Fits(raw);
    HelloParts(c, last);
    TwoLinesEndHeaders(line, words);
    hide GoodChunks, GoodLast, PrintChunks, EndsHeaders, ResponseBody, Occurs, Contents, Fits;
    OccursBetween(raw, line, words, "\r\n\r\n" + body);
    ChunkedResponse(line + words, [c], last, raw);
  }

  lemma OccursBetween(s: string, a: string, pat: string, b: string)
    requires s == a + pat + b
    ensures Occurs(s, pat)
  {
    assert s[|a|..|a| + |pat|] == pat;
    assert OccursAt(s, pat, |a|);
  }

  lemma HelloParts(c: Chunk, last: Last)
    requires c == Chunk("5", "", "hello") && last == Last("0", "", "\r\n")
    ensures GoodChunks([c]) && GoodLast(last) && Contents([c]) == "hello"
    ensures PrintChunks([c], last) == "5\r\nhello\r\n0\r\n\r\n"
  {
    assert "5"[..0] == "" && HexValue("5") == 5;
    assert "0"[..0] == "" && HexValue("0") == 0;
    assert [c][1..] == [];
    assert PrintChunk(c) == "5\r\nhello\r\n" && PrintLast(last) == "0\r\n\r\n";
    assert PrintChunks([], last) == PrintLast(last);
    assert Contents([]) == "" && "hello" + "" == "hello";
  }

  /** Two lines are headers, whatever they say. */
  lemma TwoLinesEndHeaders(line: string, more: string)
    requires |line| >= 2 && '\r' !in line[..|line| - 2] && line[|line| - 2..] == "\r\n"
    requires |more| > 0 && '\r' !in more
    ensures EndsHeaders(line + more)
  {
    var head, n := line + more, |line| - 2;
    var h := head + "\r\n\r\n";
    forall k | 0 <= k < |head| ensures !OccursAt(h, "\r\n\r\n", k) {
      OccurrenceChar(h, "\r\n\r\n", k, 0);
      OccurrenceChar(h, "\r\n\r\n", k, 2);
      if k < n {
        assert h[k] == line[..n][k];
      } else if k == n {
        assert h[k + 2] == more[0];
      } else if k == n + 1 {
        assert h[k] == line[n..][1];
      } else {
        assert h[k] == more[k - |line|];
      }
    }
    assert h[|head|..|head| + 4] == "\r\n\r\n";
    FindUnique(h, "\r\n\r\n", 0, |head|);
  }

  lemma OneLineEndsHeaders(head: string)
    requires '\r' !in head
    ensures EndsHeaders(head)
  {
    var h := head + HEADERS_END;
    forall k | 0 <= k < |head| ensures !OccursAt(h, HEADERS_END, k) {
      assert h[k] == head[k];
      if OccursAt(h, HEADERS_END, k) {
        OccurrenceChar(h, HEADERS_END, k, 0);
      }
    }
    assert h[|head|..|head| + 4] == HEADERS_END;
    FindUnique(h, HEADERS_END, 0, |head|);
  }

  lemma NoBreakNoBody(raw: string, pos: nat)
    requires pos <= |raw| && !Occurs(raw[pos..], CRLF)
    ensures Decode(raw, pos) == Body("")
  {
    FindInSuffix(raw, CRLF, pos);
    FindIsFirst(raw[pos..], CRLF, 0);
    hide Find, Stoul;
  }

  /** A response of one line and an unencoded body that mentions the encoding: the whole body is lost. */
  lemma PlainBodyIsLost(line: string, front: string, back: string)
    requires '\r' !in line
    requires !Occurs(front + "transfer-encoding: chunked" + back, "\r\n")
    ensures ResponseBody(line + "\r\n\r\n" + (front + "transfer-encoding: chunked" + back)) == Body("")
  {
    var words := "transfer-encoding: chunked";
    var body := front + words + back;
    var raw := line + HEADERS_END + body;
    OneLineEndsHeaders(line);
    BodyStartsAfterHeaders(line, body);
    assert raw[|line| + 4..] == body;
    assert raw[|line| + 4 + |front|..|line| + 4 + |front| + |words|] == words;
    FindIsFirst(raw, words, 0);
    assert OccursAt(raw, words, |line| + 4 + |front|);
    hide Find, Decode, OccursAt, Occurs, EndsHeaders;
    NoBreakNoBody(raw, |line| + 4);
  }
}
