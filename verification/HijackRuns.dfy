/** The DNS hijack over whole runs: every interleaving of outgoing queries and incoming responses. */
module HijackRuns {
  import opened Bytes
  import opened UdpPacket
  import opened DnsHijack

  /** A packet handed to RewriteQuery or to RewriteResponse. */
  datatype Event = Outgoing(pkt: seq<byte>) | Incoming(pkt: seq<byte>)

  function NextTable(target: seq<byte>, t: seq<Pending>, e: Event): seq<Pending> {
    match e
    case Outgoing(p) => QueryTable(target, t, p)
    case Incoming(p) => ResponseTable(target, t, p)
  }

  function Output(target: seq<byte>, t: seq<Pending>, e: Event): seq<byte> {
    match e
    case Outgoing(p) => QueryPacket(target, p)
    case Incoming(p) => ResponsePacket(target, t, p)
  }

  /** The table after a run that starts from `t`. */
  function TableAfter(target: seq<byte>, t: seq<Pending>, es: seq<Event>): seq<Pending> {
    if |es| == 0 then t
    else NextTable(target, TableAfter(target, t, es[..|es| - 1]), es[|es| - 1])
  }

  /** The table just before event `j` of a run that starts from an empty table. */
  function TableAt(target: seq<byte>, es: seq<Event>, j: nat): seq<Pending>
    requires j <= |es|
  {
    TableAfter(target, [], es[..j])
  }

  predicate RecordsAt(target: seq<byte>, es: seq<Event>, j: nat) {
    j < |es| && es[j].Outgoing? && IsQuery(target, es[j].pkt) && |TableAt(target, es, j)| < MAX_PENDING
  }

  predicate AnswersAt(target: seq<byte>, es: seq<Event>, j: nat) {
    j < |es| && es[j].Incoming? && IsAnswered(target, TableAt(target, es, j), es[j].pkt)
  }

  // ---- bookkeeping: which query each answer consumes ----

  /**
   The run with its history: `tags[k]` is the event that recorded entry `k` of the table, `recorded` lists
   the recording events, and answer `k` was event `answered[k]` and used up the query of `consumed[k]`.
   */
  datatype Ledger = Ledger(tags: seq<nat>, recorded: seq<nat>, answered: seq<nat>, consumed: seq<nat>)

  function LedgerOf(target: seq<byte>, es: seq<Event>): (l: Ledger)
    ensures |l.tags| == |TableAt(target, es, |es|)|
  {
    if |es| == 0 then Ledger([], [], [], [])
    else
      var n := |es| - 1;
      LastEvent(target, es);
      LedgerStep(target, es, LedgerOf(target, es[..n]))
  }

  lemma LastEvent(target: seq<byte>, es: seq<Event>)
    requires |es| > 0
    ensures TableAt(target, es[..|es| - 1], |es| - 1) == TableAt(target, es, |es| - 1)
    ensures TableAt(target, es, |es|) == NextTable(target, TableAt(target, es, |es| - 1), es[|es| - 1])
  {
    assert es[..|es|] == es && es[..|es| - 1][..|es| - 1] == es[..|es| - 1];
  }

  function LedgerStep(target: seq<byte>, es: seq<Event>, l: Ledger): (r: Ledger)
    requires |es| > 0 && |l.tags| == |TableAt(target, es, |es| - 1)|
    ensures |r.tags| == |NextTable(target, TableAt(target, es, |es| - 1), es[|es| - 1])|
  {
    var n := |es| - 1;
    if RecordsAt(target, es, n) then WithRecording(l, n)
    else if AnswersAt(target, es, n) then WithAnswer(l, n, LastMatch(TableAt(target, es, n), Addressee(es[n].pkt)))
    else l
  }

  function WithRecording(l: Ledger, n: nat): Ledger {
    l.(tags := l.tags + [n], recorded := l.recorded + [n])
  }

  function WithAnswer(l: Ledger, n: nat, i: nat): Ledger
    requires i < |l.tags|
  {
    l.(tags := SwapRemove(l.tags, i), answered := l.answered + [n], consumed := l.consumed + [l.tags[i]])
  }

  /** Event `q` recorded a query that asked what `e` says. */
  predicate RecordedAs(target: seq<byte>, es: seq<Event>, q: nat, e: Pending) {
    RecordsAt(target, es, q) && Asked(es[q].pkt) == e
  }

  /** Event `a` is a response restored to the destination that the query of event `q` had asked. */
  predicate RestoredFrom(target: seq<byte>, es: seq<Event>, a: nat, q: nat) {
    && q < a && AnswersAt(target, es, a) && RecordsAt(target, es, q)
    && ClientOf(Asked(es[q].pkt)) == Addressee(es[a].pkt)
    && Output(target, TableAt(target, es, a), es[a]) == Redirect(es[a].pkt, 12, es[q].pkt[16..20])
  }

  ghost predicate Faithful(target: seq<byte>, es: seq<Event>, t: seq<Pending>, l: Ledger) {
    && |t| <= MAX_PENDING
    && |l.tags| == |t| && |l.answered| == |l.consumed|
    && (forall k :: 0 <= k < |t| ==> RecordedAs(target, es, l.tags[k], t[k]))
    && (forall k :: 0 <= k < |l.answered| ==> RestoredFrom(target, es, l.answered[k], l.consumed[k]))
    && multiset(l.recorded) == multiset(l.tags) + multiset(l.consumed)
  }

  lemma {:induction false} SwapRemoveMultiset<T>(t: seq<T>, i: nat)
    requires i < |t|
    ensures multiset(SwapRemove(t, i)) + multiset{t[i]} == multiset(t)
  {
    var n := |t| - 1;
    assert t == t[..n] + [t[n]];
    if i < n {
      assert t[..n] == t[..i] + [t[i]] + t[i + 1..n];
      assert SwapRemove(t, i) == t[..i] + [t[n]] + t[i + 1..n];
    } else {
      assert SwapRemove(t, i) == t[..n];
    }
  }

  /** What held of the events of a prefix still holds in a longer run. */
  lemma PrefixEvents(target: seq<byte>, es: seq<Event>, n: nat, j: nat)
    requires j < n <= |es|
    ensures RecordsAt(target, es, j) == RecordsAt(target, es[..n], j)
    ensures AnswersAt(target, es, j) == AnswersAt(target, es[..n], j)
    ensures TableAt(target, es[..n], j) == TableAt(target, es, j) && es[..n][j] == es[j]
  {
    assert es[..n][..j] == es[..j];
  }

  lemma FaithfulExtends(target: seq<byte>, es: seq<Event>, n: nat, t: seq<Pending>, l: Ledger)
    requires n <= |es| && Faithful(target, es[..n], t, l)
    ensures Faithful(target, es, t, l)
  {
    hide Redirect, IsUdp, IsAnswered, IsQuery, TableAt;
    forall k | 0 <= k < |t| ensures RecordedAs(target, es, l.tags[k], t[k]) {
      PrefixEvents(target, es, n, l.tags[k]);
    }
    forall k | 0 <= k < |l.answered| ensures RestoredFrom(target, es, l.answered[k], l.consumed[k]) {
      PrefixEvents(target, es, n, l.answered[k]);
      PrefixEvents(target, es, n, l.consumed[k]);
    }
  }

  lemma RecordStep(target: seq<byte>, es: seq<Event>, t: seq<Pending>, l: Ledger, n: nat, e: Pending)
    requires Faithful(target, es, t, l) && |t| < MAX_PENDING && RecordedAs(target, es, n, e)
    ensures Faithful(target, es, t + [e], WithRecording(l, n))
  {
    hide RecordedAs, RestoredFrom;
    assert multiset(l.recorded + [n]) == multiset(l.recorded) + multiset{n};
    assert multiset(l.tags + [n]) == multiset(l.tags) + multiset{n};
  }

  lemma AnswerIsRestored(target: seq<byte>, es: seq<Event>, a: nat, q: nat)
    requires q < a < |es| && AnswersAt(target, es, a)
    requires var t := TableAt(target, es, a);
      RecordedAs(target, es, q, t[LastMatch(t, Addressee(es[a].pkt))])
    ensures RestoredFrom(target, es, a, q)
  {
    Be32Inverse(es[q].pkt, 16);
    hide Redirect, TableAt, IsUdp, LastMatch;
  }

  lemma AnswerStep(target: seq<byte>, es: seq<Event>, t: seq<Pending>, l: Ledger, n: nat, i: nat)
    requires i < |t| && Faithful(target, es, t, l)
    requires RestoredFrom(target, es, n, l.tags[i])
    ensures Faithful(target, es, SwapRemove(t, i), WithAnswer(l, n, i))
  {
    hide RestoredFrom, RecordedAs;
    SwapRemoveMultiset(l.tags, i);
    assert multiset(l.consumed + [l.tags[i]]) == multiset(l.consumed) + multiset{l.tags[i]};
    var r := WithAnswer(l, n, i);
    forall k | 0 <= k < |t| - 1 ensures RecordedAs(target, es, r.tags[k], SwapRemove(t, i)[k]) {
      var j := if k == i then |t| - 1 else k;
      assert RecordedAs(target, es, l.tags[j], t[j]);
    }
  }

  lemma TagOf(target: seq<byte>, es: seq<Event>, n: nat, t: seq<Pending>, l: Ledger, i: nat)
    requires n <= |es| && i < |t| && Faithful(target, es[..n], t, l) && Faithful(target, es, t, l)
    ensures l.tags[i] < n && RecordedAs(target, es, l.tags[i], t[i])
  {
    assert RecordedAs(target, es[..n], l.tags[i], t[i]);
  }

  lemma FaithfulStep(target: seq<byte>, es: seq<Event>, t: seq<Pending>, l: Ledger)
    requires |es| > 0 && t == TableAt(target, es, |es| - 1)
    requires Faithful(target, es[..|es| - 1], t, l)
    ensures Faithful(target, es, NextTable(target, t, es[|es| - 1]), LedgerStep(target, es, l))
  {
    hide Redirect, IsUdp, TableAt, LastMatch;
    var n := |es| - 1;
    FaithfulExtends(target, es, n, t, l);
    if RecordsAt(target, es, n) {
      hide Faithful;
      RecordStep(target, es, t, l, n, Asked(es[n].pkt));
    } else if AnswersAt(target, es, n) {
      hide Faithful, SwapRemove;
      var i := LastMatch(t, Addressee(es[n].pkt));
      TagOf(target, es, n, t, l, i);
      AnswerIsRestored(target, es, n, l.tags[i]);
      AnswerStep(target, es, t, l, n, i);
    }
  }

  /**
   Over every interleaving of queries and responses the table holds exactly the recorded queries that are
   still unanswered, each restored response got the destination of an earlier recorded query of the same
   client, and recorded = restored + pending, with multiplicities, as sets of events.
   */
  lemma {:induction false} RunIsFaithful(target: seq<byte>, es: seq<Event>)
    ensures Faithful(target, es, TableAt(target, es, |es|), LedgerOf(target, es))
    decreases |es|
  {
    if |es| == 0 { return; }
    var n := |es| - 1;
    RunIsFaithful(target, es[..n]);
    LastEvent(target, es);
    FaithfulStep(target, es, TableAt(target, es, n), LedgerOf(target, es[..n]));
  }

  // ---- consequences ----

  ghost predicate Increasing(s: seq<nat>, bound: nat) {
    && (forall i :: 0 <= i < |s| ==> s[i] < bound)
    && (forall i, j :: 0 <= i < j < |s| ==> s[i] < s[j])
  }

  /** The two kinds of events that the ledger lists. */
  datatype Kind = Recording | Answering

  predicate HappensAt(target: seq<byte>, es: seq<Event>, j: nat, kind: Kind) {
    match kind
    case Recording => RecordsAt(target, es, j)
    case Answering => AnswersAt(target, es, j)
  }

  function Listed(l: Ledger, kind: Kind): seq<nat> {
    match kind
    case Recording => l.recorded
    case Answering => l.answered
  }

  lemma LedgerGrows(target: seq<byte>, es: seq<Event>, kind: Kind)
    requires |es| > 0
    ensures var n := |es| - 1;
      var l, r := Listed(LedgerOf(target, es[..n]), kind), Listed(LedgerOf(target, es), kind);
      r == if HappensAt(target, es, n, kind) then l + [n] else l
  {
    hide IsQuery, IsAnswered;
    LastEvent(target, es);
    assert LedgerOf(target, es) == LedgerStep(target, es, LedgerOf(target, es[..|es| - 1]));
  }

  lemma Appended(l: seq<nat>, r: seq<nat>, n: nat, now: bool)
    requires Increasing(l, n) && r == if now then l + [n] else l
    ensures Increasing(r, n + 1)
    ensures forall j: nat :: j in r <==> j in l || (now && j == n)
  {
  }

  lemma {:induction false} KindIsComplete(target: seq<byte>, es: seq<Event>, kind: Kind)
    ensures Increasing(Listed(LedgerOf(target, es), kind), |es|)
    ensures forall j :: HappensAt(target, es, j, kind) <==> j in Listed(LedgerOf(target, es), kind)
    decreases |es|
  {
    if |es| == 0 { return; }
    var n := |es| - 1;
    var l, r := Listed(LedgerOf(target, es[..n]), kind), Listed(LedgerOf(target, es), kind);
    KindIsComplete(target, es[..n], kind);
    LedgerGrows(target, es, kind);
    hide LedgerOf, Listed, TableAt, IsQuery, IsAnswered;
    Appended(l, r, n, HappensAt(target, es, n, kind));
    forall j: nat ensures HappensAt(target, es, j, kind) <==> j in r {
      if j < n {
        PrefixEvents(target, es, n, j);
      }
    }
  }

  /** The ledger lists every recording event and every answering event once, in order of time. */
  lemma LedgerIsComplete(target: seq<byte>, es: seq<Event>)
    ensures var l := LedgerOf(target, es);
      && Increasing(l.recorded, |es|) && Increasing(l.answered, |es|)
      && (forall j :: RecordsAt(target, es, j) <==> j in l.recorded)
      && (forall j :: AnswersAt(target, es, j) <==> j in l.answered)
  {
    KindIsComplete(target, es, Recording);
    KindIsComplete(target, es, Answering);
    hide LedgerOf, TableAt, IsQuery, IsAnswered;
    assert forall j :: RecordsAt(target, es, j) == HappensAt(target, es, j, Recording);
    assert forall j :: AnswersAt(target, es, j) == HappensAt(target, es, j, Answering);
  }

  lemma TwiceInMultiset(s: seq<nat>, i: nat, j: nat)
    requires i < j < |s| && s[i] == s[j]
    ensures multiset(s)[s[i]] >= 2
  {
    assert s == s[..i] + [s[i]] + s[i + 1..j] + [s[j]] + s[j + 1..];
  }

  lemma OnceInMultiset(s: seq<nat>, bound: nat, x: nat)
    requires Increasing(s, bound)
    ensures multiset(s)[x] <= 1
  {
    if i :| 0 <= i < |s| && s[i] == x {
      assert s == s[..i] + [x] + s[i + 1..];
      assert x !in s[..i] && x !in s[i + 1..];
    } else {
      assert x !in s;
    }
  }

  lemma SplitOfDistinct(all: seq<nat>, bound: nat, left: seq<nat>, right: seq<nat>)
    requires Increasing(all, bound) && multiset(all) == multiset(left) + multiset(right)
    ensures |all| == |left| + |right|
    ensures forall i, j :: 0 <= i < j < |right| ==> right[i] != right[j]
    ensures forall i, k :: 0 <= i < |right| && 0 <= k < |left| ==> right[i] != left[k]
  {
    assert |multiset(all)| == |multiset(left)| + |multiset(right)|;
    forall i, j | 0 <= i < j < |right| ensures right[i] != right[j] {
      if right[i] == right[j] {
        TwiceInMultiset(right, i, j);
        OnceInMultiset(all, bound, right[i]);
      }
    }
    forall i, k | 0 <= i < |right| && 0 <= k < |left| ensures right[i] != left[k] {
      assert right[i] in multiset(right) && left[k] in multiset(left);
      OnceInMultiset(all, bound, right[i]);
    }
  }

  /**
   No recorded query is consumed twice, none is both consumed and pending, and the counts balance:
   recorded = restored + pending <= restored + 256.
   */
  lemma NoQueryConsumedTwice(target: seq<byte>, es: seq<Event>)
    ensures var l, t := LedgerOf(target, es), TableAt(target, es, |es|);
      && |l.recorded| == |l.answered| + |t| && |t| <= MAX_PENDING
      && (forall i, j :: 0 <= i < j < |l.consumed| ==> l.consumed[i] != l.consumed[j])
      && (forall i, k :: 0 <= i < |l.consumed| && 0 <= k < |l.tags| ==> l.consumed[i] != l.tags[k])
  {
    var l := LedgerOf(target, es);
    RunIsFaithful(target, es);
    LedgerIsComplete(target, es);
    SplitOfDistinct(l.recorded, |es|, l.tags, l.consumed);
  }

  /** Each restored response has a query of its own to answer, recorded earlier by the same client. */
  lemma EveryAnswerHasItsQuery(target: seq<byte>, es: seq<Event>, a: nat)
    requires AnswersAt(target, es, a)
    ensures exists q :: RestoredFrom(target, es, a, q)
  {
    RunIsFaithful(target, es);
    LedgerIsComplete(target, es);
    var l := LedgerOf(target, es);
    var k :| 0 <= k < |l.answered| && l.answered[k] == a;
    assert RestoredFrom(target, es, a, l.consumed[k]);
  }
}
