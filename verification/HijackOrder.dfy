/**
 Which of a client's outstanding queries is answered next, over every run of other clients' traffic. Removals
 move the last entry of the table into the hole, so such a run can carry a client's newest entries below older
 ones; this module says exactly when it can.
 */
module HijackOrder {
  import opened Bytes
  import opened IpHeader
  import opened UdpPacket
  import opened DnsHijack
  import opened HijackRuns
  import opened HijackIsolation

  // ---- counting entries ----

  function Own(e: Pending, c: Client): nat {
    if ClientOf(e) == c then 1 else 0
  }

  /** How many entries of `s` belong to `c`. */
  function Owned(s: seq<Pending>, c: Client): (n: nat)
    ensures n <= |s|
    ensures n == 0 <==> forall k :: 0 <= k < |s| ==> ClientOf(s[k]) != c
    ensures n == |s| <==> forall k :: 0 <= k < |s| ==> ClientOf(s[k]) == c
  {
    if |s| == 0 then 0 else Owned(s[..|s| - 1], c) + Own(s[|s| - 1], c)
  }

  lemma {:induction false} OwnedConcat(a: seq<Pending>, b: seq<Pending>, c: Client)
    ensures Owned(a + b, c) == Owned(a, c) + Owned(b, c)
    decreases |b|
  {
    if |b| == 0 {
      assert a + b == a;
    } else {
      assert (a + b)[..|a + b| - 1] == a + b[..|b| - 1];
      OwnedConcat(a, b[..|b| - 1], c);
    }
  }

  lemma OwnedOne(x: Pending, c: Client)
    ensures Owned([x], c) == Own(x, c)
  {
    assert [x][..0] == [];
  }

  lemma OwnedPut(s: seq<Pending>, i: nat, x: Pending, c: Client)
    requires i < |s|
    ensures Owned(s[i := x], c) == Owned(s, c) - Own(s[i], c) + Own(x, c)
  {
    hide Owned, Own;
    OwnedAround(s, i, c);
    OwnedAround(s[i := x], i, c);
    assert s[i := x][..i] == s[..i] && s[i := x][i + 1..] == s[i + 1..];
  }

  lemma OwnedAround(s: seq<Pending>, i: nat, c: Client)
    requires i < |s|
    ensures Owned(s, c) == Owned(s[..i], c) + Own(s[i], c) + Owned(s[i + 1..], c)
  {
    hide Owned, Own;
    assert s == s[..i] + [s[i]] + s[i + 1..];
    OwnedConcat(s[..i] + [s[i]], s[i + 1..], c);
    OwnedConcat(s[..i], [s[i]], c);
    OwnedOne(s[i], c);
  }

  lemma OwnedSwapRemove(s: seq<Pending>, i: nat, c: Client)
    requires i < |s|
    ensures Owned(SwapRemove(s, i), c) == Owned(s, c) - Own(s[i], c)
  {
    hide Owned, Own;
    var last := s[|s| - 1];
    var p := s[i := last];
    OwnedPut(s, i, last, c);
    OwnedLast(p, c);
  }

  // ---- the condition ----

  /** The entries of `c` in `s` all ask for `d`. */
  predicate Ask(s: seq<Pending>, c: Client, d: uint32) {
    forall k :: 0 <= k < |s| && ClientOf(s[k]) == c ==> s[k].origDst == d
  }

  /** The highest entry of `c` that asks another server than `d`, or -1. */
  function Rival(t: seq<Pending>, c: Client, d: uint32): (m: int)
    ensures -1 <= m < |t|
    ensures m >= 0 ==> ClientOf(t[m]) == c && t[m].origDst != d
    ensures forall k :: m < k < |t| && ClientOf(t[k]) == c ==> t[k].origDst == d
  {
    if |t| == 0 then -1
    else
      var n := |t| - 1;
      if ClientOf(t[n]) == c && t[n].origDst != d then n else Rival(t[..n], c, d)
  }

  /**
   `d` stays the next answer of `c`: there is an entry of `c`, and if one of them asks another server, fewer
   entries of other clients lie below the highest such entry than entries of `c` lie above it.
   */
  predicate Stays(t: seq<Pending>, c: Client, d: uint32) {
    var m := Rival(t, c, d);
    if m < 0 then Owned(t, c) > 0 else m - Owned(t[..m], c) < Owned(t[m + 1..], c)
  }

  /** `x` is the highest rival of `d`, between `l` and `r`. */
  predicate Split(t: seq<Pending>, c: Client, d: uint32, l: seq<Pending>, x: Pending, r: seq<Pending>) {
    t == l + [x] + r && ClientOf(x) == c && x.origDst != d && Ask(r, c, d)
  }

  lemma SplitStays(t: seq<Pending>, c: Client, d: uint32, l: seq<Pending>, x: Pending, r: seq<Pending>)
    requires Split(t, c, d, l, x, r)
    ensures Rival(t, c, d) == |l| && t[..|l|] == l && t[|l| + 1..] == r
    ensures Stays(t, c, d) <==> |l| - Owned(l, c) < Owned(r, c)
  {
    hide Owned;
    assert t[|l|] == x && t[..|l|] == l && t[|l| + 1..] == r;
    forall k | |l| < k < |t| && ClientOf(t[k]) == c ensures t[k].origDst == d {
      assert t[k] == r[k - |l| - 1];
    }
  }

  lemma RivalSplits(t: seq<Pending>, c: Client, d: uint32)
    requires Rival(t, c, d) >= 0
    ensures var m := Rival(t, c, d); Split(t, c, d, t[..m], t[m], t[m + 1..])
  {
    var m := Rival(t, c, d);
    assert t == t[..m] + [t[m]] + t[m + 1..];
  }

  lemma NoRival(t: seq<Pending>, c: Client, d: uint32)
    ensures Rival(t, c, d) < 0 <==> Ask(t, c, d)
  {
  }

  // ---- one event ----

  /** Removing an entry beside `x` moves the last entry across `x` or leaves its side alone. */
  lemma RemoveBeside(l: seq<Pending>, x: Pending, r: seq<Pending>, i: nat)
    requires |r| > 0 && i < |l| + 1 + |r| && i != |l|
    ensures i < |l| ==> SwapRemove(l + [x] + r, i) == l[i := r[|r| - 1]] + [x] + r[..|r| - 1]
    ensures i > |l| ==> SwapRemove(l + [x] + r, i) == l + [x] + SwapRemove(r, i - |l| - 1)
  {
  }

  /** What is left of the two sides after another client's entry `i` is removed. */
  function Below(l: seq<Pending>, r: seq<Pending>, i: nat): (l': seq<Pending>)
    requires |r| > 0
  {
    if i < |l| then l[i := r[|r| - 1]] else l
  }

  function Above(l: seq<Pending>, r: seq<Pending>, i: nat): (r': seq<Pending>)
    requires |r| > 0 && i != |l| && i <= |l| + |r|
  {
    if i < |l| then r[..|r| - 1] else SwapRemove(r, i - |l| - 1)
  }

  /** Other clients' removals keep the difference between the two counts. */
  lemma RemoveKeepsDifference(t: seq<Pending>, c: Client, d: uint32, l: seq<Pending>, x: Pending, r: seq<Pending>,
                              i: nat)
    requires Split(t, c, d, l, x, r) && |r| > 0 && i < |t| && ClientOf(t[i]) != c
    ensures i != |l|
    ensures var l', r' := Below(l, r, i), Above(l, r, i);
      && Split(SwapRemove(t, i), c, d, l', x, r')
      && |l'| - Owned(l', c) - Owned(r', c) == |l| - Owned(l, c) - Owned(r, c)
  {
    hide Owned;
    RemoveBeside(l, x, r, i);
    if i < |l| {
      assert t[i] == l[i];
      OwnedPut(l, i, r[|r| - 1], c);
      OwnedLast(r, c);
    } else {
      assert t[i] == r[i - |l| - 1];
      OwnedSwapRemove(r, i - |l| - 1, c);
    }
  }

  lemma OwnedLast(s: seq<Pending>, c: Client)
    requires |s| > 0
    ensures Owned(s, c) == Owned(s[..|s| - 1], c) + Own(s[|s| - 1], c)
  {
  }

  lemma StaysStep(target: seq<byte>, t: seq<Pending>, c: Client, d: uint32, e: Event)
    requires Unrelated(target, c, e) && Stays(t, c, d)
    ensures Stays(NextTable(target, t, e), c, d)
  {
    hide Stays, IsUdp, SwapRemove, LastMatch;
    match e
    case Outgoing(p) =>
      if IsQuery(target, p) && |t| < MAX_PENDING {
        StaysAppend(t, c, d, Asked(p));
      }
    case Incoming(p) =>
      if IsAnswered(target, t, p) {
        StaysRemove(t, c, d, LastMatch(t, Addressee(p)));
      }
  }

  lemma StaysAppend(t: seq<Pending>, c: Client, d: uint32, e: Pending)
    requires Stays(t, c, d) && ClientOf(e) != c
    ensures Stays(t + [e], c, d)
  {
    assert Own(e, c) == 0 && Ask([e], c, d);
    hide Owned, Own, Ask, Rival;
    OwnedOne(e, c);
    var m := Rival(t, c, d);
    if m < 0 {
      NoRival(t, c, d);
      AskConcat(t, [e], c, d);
      NoRival(t + [e], c, d);
      OwnedConcat(t, [e], c);
    } else {
      RivalSplits(t, c, d);
      NewestAbove(t, c, d, t[..m], t[m], t[m + 1..], e);
    }
  }

  lemma AskConcat(a: seq<Pending>, b: seq<Pending>, c: Client, d: uint32)
    requires Ask(a, c, d) && Ask(b, c, d)
    ensures Ask(a + b, c, d)
  {
  }

  lemma StaysRemove(t: seq<Pending>, c: Client, d: uint32, i: nat)
    requires Stays(t, c, d) && i < |t| && ClientOf(t[i]) != c
    ensures Stays(SwapRemove(t, i), c, d)
  {
    var m := Rival(t, c, d);
    if m < 0 {
      NoRival(t, c, d);
      NoRival(SwapRemove(t, i), c, d);
      OwnedSwapRemove(t, i, c);
    } else {
      var l, x, r := t[..m], t[m], t[m + 1..];
      RivalSplits(t, c, d);
      hide Ask, Rival, Owned, SwapRemove;
      RemoveKeepsDifference(t, c, d, l, x, r, i);
      SplitStays(SwapRemove(t, i), c, d, Below(l, r, i), x, Above(l, r, i));
    }
  }

  lemma StaysIsNext(t: seq<Pending>, c: Client, d: uint32)
    requires Stays(t, c, d)
    ensures NextAnswer(t, c) == Some(d)
  {
    var m, i := Rival(t, c, d), LastMatch(t, c);
    if m >= 0 {
      var k :| 0 <= k < |t[m + 1..]| && ClientOf(t[m + 1..][k]) == c;
      assert t[m + 1 + k] == t[m + 1..][k];
    }
    assert i > m;
    assert t[i] == t[m + 1..][i - m - 1];
  }

  lemma {:induction false} StaysOverRun(target: seq<byte>, t: seq<Pending>, c: Client, d: uint32, es: seq<Event>)
    requires Stays(t, c, d) && OthersOnly(target, c, es)
    ensures Stays(TableAfter(target, t, es), c, d)
    decreases |es|
  {
    if |es| > 0 {
      StaysOverRun(target, t, c, d, es[..|es| - 1]);
      StaysStep(target, TableAfter(target, t, es[..|es| - 1]), c, d, es[|es| - 1]);
    }
  }

  // ---- packets from and to any client ----

  /** A UDP packet without options and payload. */
  function Datagram(src: seq<byte>, dst: seq<byte>, srcPort: uint16, dstPort: uint16): (p: seq<byte>)
    requires |src| == 4 && |dst| == 4
    ensures |p| == 28 && p[8] == 64 && IsUdp(p) && p[12..16] == src && p[16..20] == dst
    ensures SourcePort(p) == srcPort && DestinationPort(p) == dstPort
  {
    Be16RoundTrip(srcPort);
    Be16RoundTrip(dstPort);
    var header: seq<byte> := [0x45, 0, 0, 28, 0, 0, 0, 0, 64, 17, 0, 0];
    var ports := Be16Bytes(srcPort) + Be16Bytes(dstPort);
    var tail: seq<byte> := [0, 8, 0, 0];
    var p := header + src + dst + ports + tail;
    assert p[0] == 0x45 && p[2] == 0 && p[3] == 28 && p[8] == 64 && p[9] == 17;
    assert p[20] == ports[0] && p[21] == ports[1] && p[22] == ports[2] && p[23] == ports[3];
    p
  }

  function QueryFrom(c: Client, dst: uint32): seq<byte> {
    Datagram(Be32Bytes(c.ip), Be32Bytes(dst), c.port, DNS_PORT)
  }

  function ResponseTo(target: seq<byte>, c: Client): seq<byte>
    requires |target| == 4
  {
    Datagram(target, Be32Bytes(c.ip), DNS_PORT, c.port)
  }

  lemma Be32At(s: seq<byte>, i: nat, v: uint32)
    requires i + 4 <= |s| && s[i..i + 4] == Be32Bytes(v)
    ensures Be32(s, i) == v
  {
    Be32RoundTrip(v);
    var b := s[i..i + 4];
    assert s[i] == b[0] && s[i + 1] == b[1] && s[i + 2] == b[2] && s[i + 3] == b[3];
  }

  lemma QueryFromIs(target: seq<byte>, c: Client, dst: uint32)
    requires Enabled(target)
    ensures IsQuery(target, QueryFrom(c, dst)) && Asked(QueryFrom(c, dst)) == Pending(c.ip, c.port, dst)
  {
    hide IsUdp, Be32, Be32Bytes, SourcePort, DestinationPort;
    var p := QueryFrom(c, dst);
    hide Datagram;
    Be32At(p, 12, c.ip);
    Be32At(p, 16, dst);
  }

  lemma ResponseToIs(target: seq<byte>, c: Client)
    requires Enabled(target)
    ensures IsResponse(target, ResponseTo(target, c)) && Addressee(ResponseTo(target, c)) == c
  {
    hide IsUdp, Be32, Be32Bytes, SourcePort, DestinationPort;
    var p := ResponseTo(target, c);
    hide Datagram;
    Be32At(p, 16, c.ip);
  }

  // ---- a run that changes the answer ----

  lemma {:induction false} AfterFirst(target: seq<byte>, t: seq<Pending>, e: Event, es: seq<Event>)
    ensures TableAfter(target, t, [e] + es) == TableAfter(target, NextTable(target, t, e), es)
    decreases |es|
  {
    var all := [e] + es;
    if |es| == 0 {
      assert all == [e] && all[..0] == [];
    } else {
      assert all[..|all| - 1] == [e] + es[..|es| - 1];
      AfterFirst(target, t, e, es[..|es| - 1]);
    }
  }

  /** Answering another client, by a packet that can arrive. */
  lemma AnswerOther(target: seq<byte>, t: seq<Pending>, c: Client, k: nat) returns (e: Event, i: nat)
    requires Enabled(target) && k < |t| && ClientOf(t[k]) != c
    ensures Unrelated(target, c, e)
    ensures i < |t| && ClientOf(t[i]) != c && NextTable(target, t, e) == SwapRemove(t, i)
  {
    var a := ClientOf(t[k]);
    e := Incoming(ResponseTo(target, a));
    ResponseToIs(target, a);
    i := LastMatch(t, a);
  }

  /** With enough entries of other clients below a rival, answering them brings the rival to the top. */
  lemma {:induction false} Unseat(target: seq<byte>, t: seq<Pending>, c: Client, d: uint32,
                                  l: seq<Pending>, x: Pending, r: seq<Pending>) returns (es: seq<Event>)
    requires Enabled(target) && Split(t, c, d, l, x, r) && Owned(r, c) <= |l| - Owned(l, c)
    ensures OthersOnly(target, c, es) && NextAnswer(TableAfter(target, t, es), c) == Some(x.origDst)
    decreases |t|
  {
    hide TableAfter, Owned, SwapRemove, Unrelated, Below, Above;
    if Owned(r, c) == 0 {
      es := [];
      assert TableAfter(target, t, []) == t by { EmptyRun(target, t); }
      TopIsNext(t, c, l, x, r);
    } else {
      var k :| 0 <= k < |l| && ClientOf(l[k]) != c;
      assert t[k] == l[k];
      var e, i := AnswerOther(target, t, c, k);
      RemoveKeepsDifference(t, c, d, l, x, r, i);
      var rest := Unseat(target, SwapRemove(t, i), c, d, Below(l, r, i), x, Above(l, r, i));
      es := [e] + rest;
      AfterFirst(target, t, e, rest);
    }
  }

  lemma EmptyRun(target: seq<byte>, t: seq<Pending>)
    ensures TableAfter(target, t, []) == t
  {
  }

  lemma TopIsNext(t: seq<Pending>, c: Client, l: seq<Pending>, x: Pending, r: seq<Pending>)
    requires t == l + [x] + r && ClientOf(x) == c && Owned(r, c) == 0
    ensures NextAnswer(t, c) == Some(x.origDst)
  {
    assert t[|l|] == x;
    assert forall k :: |l| < k < |t| ==> t[k] == r[k - |l| - 1];
  }

  // ---- over every run ----

  /** Whatever other clients do, the next answer of `c` is `d`. */
  ghost predicate AlwaysNext(target: seq<byte>, t: seq<Pending>, c: Client, d: uint32) {
    forall es :: OthersOnly(target, c, es) ==> NextAnswer(TableAfter(target, t, es), c) == Some(d)
  }

  /** A run of other clients' traffic after which `d` is not the next answer of `c`. */
  lemma OtherAnswer(target: seq<byte>, t: seq<Pending>, c: Client, d: uint32) returns (es: seq<Event>)
    requires Enabled(target) && !Stays(t, c, d)
    ensures OthersOnly(target, c, es) && NextAnswer(TableAfter(target, t, es), c) != Some(d)
  {
    hide TableAfter, Owned, Unrelated;
    var m := Rival(t, c, d);
    if m < 0 {
      es := [];
      EmptyRun(target, t);
    } else {
      RivalSplits(t, c, d);
      es := Unseat(target, t, c, d, t[..m], t[m], t[m + 1..]);
    }
  }

  /** The next answer of `c` is `d` after every run of other clients' traffic exactly when `Stays` says so. */
  lemma NextOverRunsIff(target: seq<byte>, t: seq<Pending>, c: Client, d: uint32)
    requires Enabled(target)
    ensures AlwaysNext(target, t, c, d) <==> Stays(t, c, d)
  {
    hide Stays, OthersOnly, NextAnswer, TableAfter;
    if Stays(t, c, d) {
      forall es | OthersOnly(target, c, es) ensures NextAnswer(TableAfter(target, t, es), c) == Some(d) {
        StaysOverRun(target, t, c, d, es);
        StaysIsNext(TableAfter(target, t, es), c, d);
      }
    } else {
      var es := OtherAnswer(target, t, c, d);
    }
  }

  /** The response `r`, arriving after the run `es`, comes back from `d` with nothing else changed. */
  ghost predicate Restored(target: seq<byte>, t: seq<Pending>, es: seq<Event>, r: seq<byte>, d: uint32)
    requires IsUdp(r)
  {
    var u := TableAfter(target, t, es);
    IsAnswered(target, u, r) && OnlySourceChanged(r, ResponsePacket(target, u, r), Be32Bytes(d))
  }

  /** Whatever other clients do, the next response to `c` comes back from `d`. */
  ghost predicate AlwaysRestored(target: seq<byte>, t: seq<Pending>, c: Client, d: uint32) {
    forall es, r :: OthersOnly(target, c, es) && IsResponse(target, r) && Addressee(r) == c ==>
      Restored(target, t, es, r, d)
  }

  /**
   Restoration, exactly: the next response to `c` comes back from `d` after every run of other clients'
   traffic if and only if no entry of `c` asks another server, or fewer entries of other clients lie below the
   highest one that does than entries of `c` lie above it.
   */
  lemma RestoredOverRunsIff(target: seq<byte>, t: seq<Pending>, c: Client, d: uint32)
    requires Enabled(target)
    ensures AlwaysRestored(target, t, c, d) <==> Stays(t, c, d)
  {
    hide Stays, OthersOnly, TableAfter, IsAnswered, OnlySourceChanged, ResponsePacket, NextAnswer, IsUdp, Be32Bytes;
    NextOverRunsIff(target, t, c, d);
    forall es, r | OthersOnly(target, c, es) && IsResponse(target, r) && Addressee(r) == c
      ensures Restored(target, t, es, r, d) <==> NextAnswer(TableAfter(target, t, es), c) == Some(d)
    {
      RestoredToIff(target, TableAfter(target, t, es), r, d);
    }
    ResponseToIs(target, c);
    var r := ResponseTo(target, c);
    if AlwaysRestored(target, t, c, d) {
      forall es | OthersOnly(target, c, es) ensures NextAnswer(TableAfter(target, t, es), c) == Some(d) {
        assert Restored(target, t, es, r, d);
      }
    }
  }

  lemma StaysWithNewest(t: seq<Pending>, c: Client, d: uint32, e: Pending)
    requires ClientOf(e) == c && e.origDst == d
    ensures Stays(t + [e], c, d) <==>
      var m := Rival(t, c, d);
      m < 0 || m - Owned(t[..m], c) <= Owned(t[m + 1..], c)
  {
    assert Own(e, c) == 1 && Ask([e], c, d);
    hide Owned, Own, Rival, Ask;
    OwnedOne(e, c);
    var m := Rival(t, c, d);
    if m < 0 {
      NoRival(t, c, d);
      AskConcat(t, [e], c, d);
      NoRival(t + [e], c, d);
      OwnedConcat(t, [e], c);
    } else {
      RivalSplits(t, c, d);
      NewestAbove(t, c, d, t[..m], t[m], t[m + 1..], e);
    }
  }

  lemma NewestAbove(t: seq<Pending>, c: Client, d: uint32, l: seq<Pending>, x: Pending, r: seq<Pending>, e: Pending)
    requires Split(t, c, d, l, x, r) && Ask([e], c, d)
    ensures Stays(t + [e], c, d) <==> |l| - Owned(l, c) < Owned(r, c) + Own(e, c)
  {
    hide Owned, Own, Stays, Ask;
    OwnedOne(e, c);
    OwnedConcat(r, [e], c);
    AskConcat(r, [e], c, d);
    Associative(l + [x], r, [e]);
    SplitStays(t + [e], c, d, l, x, r + [e]);
  }

  /**
   What a query can rely on, exactly. If the table has room, the next response to its client comes back from
   the server it asked after every run of other clients' traffic if and only if no older entry of the client
   asks another server, or at most as many entries of other clients lie below the highest one that does as
   entries of the client lie above it. If the table is full, the query itself does not matter.
   */
  lemma QueryRestoredIff(target: seq<byte>, t: seq<Pending>, q: seq<byte>)
    requires IsQuery(target, q)
    ensures var c, d, m := ClientOf(Asked(q)), Asked(q).origDst, Rival(t, ClientOf(Asked(q)), Asked(q).origDst);
      && Be32Bytes(d) == q[16..20]
      && (AlwaysRestored(target, NextTable(target, t, Outgoing(q)), c, d) <==>
            if |t| < MAX_PENDING then m < 0 || m - Owned(t[..m], c) <= Owned(t[m + 1..], c) else Stays(t, c, d))
  {
    Be32Inverse(q, 16);
    hide AlwaysRestored, Stays, Be32, Be32Bytes, IsUdp, Rival, Owned;
    var e := Asked(q);
    RestoredOverRunsIff(target, NextTable(target, t, Outgoing(q)), ClientOf(e), e.origDst);
    StaysWithNewest(t, ClientOf(e), e.origDst, e);
  }

  // ---- two families of runs from an empty table ----

  lemma RunStep(target: seq<byte>, t: seq<Pending>, es: seq<Event>, e: Event)
    ensures TableAfter(target, t, es + [e]) == NextTable(target, TableAfter(target, t, es), e)
  {
    assert (es + [e])[..|es|] == es;
  }

  lemma QueryStep(target: seq<byte>, t: seq<Pending>, es: seq<Event>, c: Client, dst: uint32)
    requires Enabled(target) && |TableAfter(target, t, es)| < MAX_PENDING
    ensures TableAfter(target, t, es + [Outgoing(QueryFrom(c, dst))]) ==
      TableAfter(target, t, es) + [Pending(c.ip, c.port, dst)]
  {
    QueryFromIs(target, c, dst);
    hide QueryFrom, TableAfter, IsUdp;
    RunStep(target, t, es, Outgoing(QueryFrom(c, dst)));
  }

  lemma ResponseStep(target: seq<byte>, t: seq<Pending>, es: seq<Event>, c: Client)
    requires Enabled(target) && LastMatch(TableAfter(target, t, es), c) >= 0
    ensures TableAfter(target, t, es + [Incoming(ResponseTo(target, c))]) ==
      SwapRemove(TableAfter(target, t, es), LastMatch(TableAfter(target, t, es), c))
  {
    ResponseToIs(target, c);
    hide ResponseTo, TableAfter, IsUdp, SwapRemove, LastMatch;
    RunStep(target, t, es, Incoming(ResponseTo(target, c)));
  }

  /** Queries from `n` ports of one host. */
  function Flood(ip: uint32, dst: uint32, n: nat): (es: seq<Event>)
    requires n <= MAX_PENDING
    ensures |es| == n
  {
    if n == 0 then [] else Flood(ip, dst, n - 1) + [Outgoing(QueryFrom(Client(ip, n), dst))]
  }

  lemma {:induction false} FloodFills(target: seq<byte>, ip: uint32, dst: uint32, n: nat)
    requires Enabled(target) && n <= MAX_PENDING
    ensures var t := TableAfter(target, [], Flood(ip, dst, n)); |t| == n && forall e :: e in t ==> e.srcIp == ip
  {
    if n == 0 {
      EmptyRun(target, []);
    } else {
      FloodFills(target, ip, dst, n - 1);
      hide TableAfter, QueryFrom;
      QueryStep(target, [], Flood(ip, dst, n - 1), Client(ip, n), dst);
    }
  }

  /**
   A run that fills the table: 256 queries of one host. The next query, of any other host, is redirected but
   not remembered, and its response arrives unchanged, from the hijack server's own address.
   */
  lemma FullTableLosesAnswer(target: seq<byte>, ip: uint32, c: Client, dst: uint32)
    requires Enabled(target) && c.ip != ip && Be32Bytes(dst) != target
    ensures var es, q, r := Flood(ip, dst, MAX_PENDING), QueryFrom(c, dst), ResponseTo(target, c);
      && |TableAfter(target, [], es)| == MAX_PENDING
      && q[16..20] != target && QueryPacket(target, q)[16..20] == target
      && ResponsePacket(target, TableAfter(target, [], es + [Outgoing(q)]), r) == r && r[12..16] == target
  {
    var es, q, r := Flood(ip, dst, MAX_PENDING), QueryFrom(c, dst), ResponseTo(target, c);
    var t := TableAfter(target, [], es);
    QueryFromIs(target, c, dst);
    ResponseToIs(target, c);
    FloodFills(target, ip, dst, MAX_PENDING);
    RunStep(target, [], es, Outgoing(q));
    EmptyRun(target, NextTable(target, t, Outgoing(q)));
    RedirectFrame(q, 16, target);
    hide QueryFrom, ResponseTo, Flood, TableAfter, Redirect, IsUdp, Be32, Be32Bytes, ResponsePacket, IsAnswered;
    AnsweredIffRoom(target, t, q, [], r);
  }

  /** A query of `other`, then two of `c` to different servers. */
  function ThreeQueries(c: Client, other: Client, older: uint32, newer: uint32): seq<Event> {
    [Outgoing(QueryFrom(other, older)), Outgoing(QueryFrom(c, older)), Outgoing(QueryFrom(c, newer))]
  }

  lemma AfterThreeQueries(target: seq<byte>, c: Client, other: Client, older: uint32, newer: uint32)
    requires Enabled(target)
    ensures TableAfter(target, [], ThreeQueries(c, other, older, newer)) ==
      [Pending(other.ip, other.port, older), Pending(c.ip, c.port, older), Pending(c.ip, c.port, newer)]
  {
    EmptyRun(target, []);
    hide QueryFrom, TableAfter;
    var a, b, d := Outgoing(QueryFrom(other, older)), Outgoing(QueryFrom(c, older)), Outgoing(QueryFrom(c, newer));
    assert [] + [a] == [a];
    QueryStep(target, [], [], other, older);
    QueryStep(target, [], [a], c, older);
    assert [a] + [b] == [a, b];
    QueryStep(target, [], [a, b], c, newer);
    assert [a, b] + [d] == ThreeQueries(c, other, older, newer);
  }

  lemma ShuffledTable(x: Pending, y: Pending, z: Pending)
    requires ClientOf(x) != ClientOf(y) == ClientOf(z)
    ensures LastMatch([x, y, z], ClientOf(x)) == 0
    ensures NextAnswer(SwapRemove([x, y, z], 0), ClientOf(y)) == Some(y.origDst)
  {
    var t := [x, y, z];
    assert ClientOf(t[0]) == ClientOf(x) && ClientOf(t[1]) != ClientOf(x) && ClientOf(t[2]) != ClientOf(x);
    assert SwapRemove(t, 0) == [z, y];
    assert ClientOf([z, y][1]) == ClientOf(y);
  }

  /**
   The most recent query need not be answered first. Another client's query is outstanding when `c` asks
   `older` and then `newer`; once the other client is answered, the response to `c` comes back from `older`.
   */
  lemma MostRecentMayLose(target: seq<byte>, c: Client, other: Client, older: uint32, newer: uint32)
    requires Enabled(target) && c != other
    ensures var es := ThreeQueries(c, other, older, newer) + [Incoming(ResponseTo(target, other))];
      var r := ResponseTo(target, c);
      OnlySourceChanged(r, Output(target, TableAfter(target, [], es), Incoming(r)), Be32Bytes(older))
  {
    var x, y, z := Pending(other.ip, other.port, older), Pending(c.ip, c.port, older), Pending(c.ip, c.port, newer);
    var es, r := ThreeQueries(c, other, older, newer), ResponseTo(target, c);
    AfterThreeQueries(target, c, other, older, newer);
    ShuffledTable(x, y, z);
    ResponseToIs(target, c);
    hide ThreeQueries, ResponseTo, IsUdp, OnlySourceChanged, Be32, Be32Bytes, TableAfter, SwapRemove, NextAnswer;
    ResponseStep(target, [], es, other);
    RestoredToIff(target, SwapRemove([x, y, z], 0), r, older);
  }
}
