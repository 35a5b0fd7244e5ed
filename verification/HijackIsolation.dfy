/** What one client of the DNS hijack sees while other clients' traffic goes through the same table. */
module HijackIsolation {
  import opened Bytes
  import opened IpHeader
  import opened OnesComplement
  import opened UdpPacket
  import opened UdpReceiver
  import opened DnsHijack
  import opened HijackRuns

  /** Neither a query of `c` nor a response to `c`. */
  predicate Unrelated(target: seq<byte>, c: Client, e: Event) {
    match e
    case Outgoing(p) => IsQuery(target, p) ==> ClientOf(Asked(p)) != c
    case Incoming(p) => IsResponse(target, p) ==> Addressee(p) != c
  }

  /** A run of other clients' traffic. */
  predicate OthersOnly(target: seq<byte>, c: Client, es: seq<Event>) {
    forall e :: e in es ==> Unrelated(target, c, e)
  }

  /** Some entry of `c` is outstanding, and all of them ask for `dst`. */
  ghost predicate AllAsk(t: seq<Pending>, c: Client, dst: uint32) {
    && (exists e :: e in t && ClientOf(e) == c)
    && (forall e :: e in t && ClientOf(e) == c ==> e.origDst == dst)
  }

  /** The destination that the next response to `c` would be restored to. */
  function NextAnswer(t: seq<Pending>, c: Client): Option<uint32> {
    var i := LastMatch(t, c);
    if i >= 0 then Some(t[i].origDst) else None
  }

  lemma AnswerIffOutstanding(t: seq<Pending>, c: Client)
    ensures NextAnswer(t, c).Some? <==> exists e :: e in t && ClientOf(e) == c
    ensures NextAnswer(t, c).Some? ==>
      exists e :: e in t && ClientOf(e) == c && NextAnswer(t, c) == Some(e.origDst)
  {
    var i := LastMatch(t, c);
    if i >= 0 {
      assert t[i] in t;
    }
  }

  // ---- isolation ----

  lemma UnrelatedStep(target: seq<byte>, t: seq<Pending>, c: Client, e: Event, x: Pending)
    requires Unrelated(target, c, e) && ClientOf(x) == c
    ensures multiset(NextTable(target, t, e))[x] == multiset(t)[x]
  {
    match e
    case Outgoing(p) =>
      if IsQuery(target, p) && |t| < MAX_PENDING {
        assert multiset(t + [Asked(p)]) == multiset(t) + multiset{Asked(p)};
      }
    case Incoming(p) =>
      if IsAnswered(target, t, p) {
        var i := LastMatch(t, Addressee(p));
        SwapRemoveMultiset(t, i);
      }
  }

  /**
   Other clients' traffic, of any length and with all its reordering, neither adds nor removes an entry
   of `c`.
   */
  lemma {:induction false} Isolation(target: seq<byte>, t: seq<Pending>, c: Client, es: seq<Event>, x: Pending)
    requires OthersOnly(target, c, es)
    requires ClientOf(x) == c
    ensures multiset(TableAfter(target, t, es))[x] == multiset(t)[x]
    decreases |es|
  {
    if |es| > 0 {
      Isolation(target, t, c, es[..|es| - 1], x);
      UnrelatedStep(target, TableAfter(target, t, es[..|es| - 1]), c, es[|es| - 1], x);
    }
  }

  lemma SameEntries(target: seq<byte>, t: seq<Pending>, c: Client, es: seq<Event>)
    requires OthersOnly(target, c, es)
    ensures forall x :: ClientOf(x) == c ==> (x in TableAfter(target, t, es) <==> x in t)
  {
    var u := TableAfter(target, t, es);
    forall x | ClientOf(x) == c ensures x in u <==> x in t {
      Isolation(target, t, c, es, x);
      assert x in u <==> x in multiset(u);
      assert x in t <==> x in multiset(t);
    }
  }

  /**
   `a` is `r` with the source address `src`: octets 12 to 15, the header checksum and the UDP checksum
   differ, nothing else. The header checksum verifies, and the receiver accepts the datagram, with whatever
   further fragments it has, exactly when the lengths of `r` reconcile.
   */
  ghost predicate OnlySourceChanged(r: seq<byte>, a: seq<byte>, src: seq<byte>)
    requires IsUdp(r)
  {
    var n := HeaderLength(r);
    && |a| == |r| && |a| >= 20 && a[12..16] == src
    && (forall k :: 0 <= k < |r| && !(10 <= k < 16) && k != n + 6 && k != n + 7 ==> a[k] == r[k])
    && Verifies(a[..20])
    && (forall rest :: Accepted(a, rest) <==> Reconciles(r, rest))
  }

  lemma RedirectChangesSource(r: seq<byte>, src: seq<byte>)
    requires IsUdp(r) && |src| == 4
    ensures OnlySourceChanged(r, Redirect(r, 12, src), src)
  {
    assert |r| >= 20 && HeaderLength(r) >= 20;
    hide Redirect, Verifies, Accepted, Reconciles, HeaderLength, IsUdp;
    RedirectFrame(r, 12, src);
    RedirectVerifies(r, 12, src, []);
    forall rest ensures Accepted(Redirect(r, 12, src), rest) <==> Reconciles(r, rest) {
      RedirectVerifies(r, 12, src, rest);
    }
  }

  /** Where the Length field agrees with the Total Length, the restored datagram verifies. */
  lemma EqualLengthsVerify(r: seq<byte>, a: seq<byte>, src: seq<byte>)
    requires IsUdp(r) && LengthField(r) as int == UdpLength(r) && OnlySourceChanged(r, a, src)
    ensures UdpVerifies(a)
  {
    EqualLengthsReconcile(r, []);
    hide Accepted, Reconciles;
  }

  /** A response to `c` is restored to `d` exactly when `d` is the next answer of `c`. */
  lemma RestoredToIff(target: seq<byte>, u: seq<Pending>, r: seq<byte>, d: uint32)
    requires IsResponse(target, r)
    ensures IsAnswered(target, u, r) && OnlySourceChanged(r, ResponsePacket(target, u, r), Be32Bytes(d)) <==>
      NextAnswer(u, Addressee(r)) == Some(d)
  {
    hide IsUdp, OnlySourceChanged, Be32Bytes, Be32, Addressee, Redirect;
    if IsAnswered(target, u, r) {
      var x := u[LastMatch(u, Addressee(r))].origDst;
      var a := Redirect(r, 12, Be32Bytes(x));
      RedirectChangesSource(r, Be32Bytes(x));
      Be32RoundTrip(x);
      Be32RoundTrip(d);
      if OnlySourceChanged(r, a, Be32Bytes(d)) {
        SourceIsUnique(r, a, Be32Bytes(x), Be32Bytes(d));
      }
    }
  }

  lemma SourceIsUnique(r: seq<byte>, a: seq<byte>, src: seq<byte>, other: seq<byte>)
    requires IsUdp(r) && OnlySourceChanged(r, a, src) && OnlySourceChanged(r, a, other)
    ensures src == other
  {
  }

  /**
   Exact restoration. While an entry of `c` is outstanding and all its entries ask for the same server, the
   next response of the hijack server to `c`, after any run of other clients' traffic, comes back from exactly
   that server, with nothing else changed but the checksums.
   */
  lemma ExactRestoration(target: seq<byte>, t: seq<Pending>, c: Client, d: uint32, es: seq<Event>, r: seq<byte>)
    requires AllAsk(t, c, d) && OthersOnly(target, c, es)
    requires IsResponse(target, r) && Addressee(r) == c
    ensures var u := TableAfter(target, t, es);
      IsAnswered(target, u, r) && OnlySourceChanged(r, ResponsePacket(target, u, r), Be32Bytes(d))
  {
    hide Unrelated, OthersOnly;
    var u := TableAfter(target, t, es);
    SameEntries(target, t, c, es);
    AnswerIffOutstanding(u, c);
    hide TableAfter, Addressee, IsAnswered, OnlySourceChanged;
    RestoredToIff(target, u, r, d);
  }

  /**
   After a query of `c` and any run of other clients' traffic, the response to `c` is restored exactly when
   the table had room for the query or already held one of `c`; otherwise it passes unchanged, from the
   hijack server's own address, although the query was redirected all the same.
   */
  lemma AnsweredIffRoom(target: seq<byte>, t: seq<Pending>, q: seq<byte>, es: seq<Event>, r: seq<byte>)
    requires IsQuery(target, q) && OthersOnly(target, ClientOf(Asked(q)), es)
    requires IsResponse(target, r) && Addressee(r) == ClientOf(Asked(q))
    ensures var u := TableAfter(target, NextTable(target, t, Outgoing(q)), es);
      && QueryPacket(target, q) == Redirect(q, 16, target)
      && (IsAnswered(target, u, r) <==> |t| < MAX_PENDING || exists e :: e in t && ClientOf(e) == ClientOf(Asked(q)))
      && (!IsAnswered(target, u, r) ==> ResponsePacket(target, u, r) == r && r[12..16] == target)
  {
    hide Redirect, IsUdp, Unrelated, OthersOnly;
    var c := ClientOf(Asked(q));
    var t1 := NextTable(target, t, Outgoing(q));
    SameEntries(target, t1, c, es);
    AnswerIffOutstanding(TableAfter(target, t1, es), c);
    if |t| < MAX_PENDING {
      assert t1 == t + [Asked(q)] && Asked(q) in t1;
    }
  }

  // ---- which of several outstanding queries is answered ----

  lemma LastIsAnswered(t: seq<Pending>, e: Pending)
    ensures NextAnswer(t + [e], ClientOf(e)) == Some(e.origDst)
  {
  }

  /**
   Which answer does not depend on the order of the table at all: the next response to `c` is restored to
   `dst` in every arrangement of the same entries, reachable or not, exactly when all entries of `c` ask for
   `dst` (and there is one). What runs can do to the order is in HijackOrder.
   */
  lemma AnswerInEveryOrderIff(t: seq<Pending>, c: Client, dst: uint32)
    ensures (forall u :: multiset(u) == multiset(t) ==> NextAnswer(u, c) == Some(dst)) <==> AllAsk(t, c, dst)
  {
    if AllAsk(t, c, dst) {
      forall u | multiset(u) == multiset(t) ensures NextAnswer(u, c) == Some(dst) {
        assert forall e :: e in u <==> e in multiset(u);
        assert forall e :: e in t <==> e in multiset(t);
        AnswerIffOutstanding(u, c);
      }
    }
    if forall u :: multiset(u) == multiset(t) ==> NextAnswer(u, c) == Some(dst) {
      assert NextAnswer(t, c) == Some(dst);
      AnswerIffOutstanding(t, c);
      forall k | 0 <= k < |t| && ClientOf(t[k]) == c ensures t[k].origDst == dst {
        var u := t[..k] + t[k + 1..];
        assert t == t[..k] + [t[k]] + t[k + 1..];
        assert multiset(u + [t[k]]) == multiset(t);
        LastIsAnswered(u, t[k]);
      }
    }
  }

  /**
   The entry that is next in line for `c` stays next in line when another client's entry `i` is removed,
   except in one case: it is the last of the table, and moving it into the hole puts it below another
   entry of `c`.
   */
  lemma NextInLineKeptIff(t: seq<Pending>, c: Client, i: nat)
    requires i < |t| && ClientOf(t[i]) != c && LastMatch(t, c) >= 0
    ensures var j, u, n := LastMatch(t, c), SwapRemove(t, i), |t| - 1;
      var movedTo := if j == n then i else j;
      && movedTo < |u| && u[movedTo] == t[j]
      && (LastMatch(u, c) == movedTo <==> j < n || LastMatch(t[..n], c) < i)
  {
    var j, u, n := LastMatch(t, c), SwapRemove(t, i), |t| - 1;
    var movedTo := if j == n then i else j;
    if j == n {
      var m := LastMatch(t[..n], c);
      if m > i {
        assert u[m] == t[m];
      } else {
        assert forall k :: i < k < n ==> u[k] == t[..n][k];
      }
    } else {
      assert forall k :: j < k < n ==> ClientOf(u[k]) != c;
    }
  }
}
