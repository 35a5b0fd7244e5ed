/**
 The gate and the DNS hijack together, over whole runs with reconnects: on_tun_read of tunnel.cpp records a
 query before it tries to send it, so a query can be pending that never left.
 */
module TunnelRuns {
  import opened Bytes
  import opened UdpPacket
  import opened Varint
  import opened ConnectIp
  import opened DnsHijack
  import opened HijackOrder
  import opened Outbound
  import Gate

  /** A library callback or timer, a packet read from the TUN device, or a datagram of the peer. */
  datatype Event = Callback(e: Gate.Event) | TunRead(pkt: seq<byte>) | Arrival(datagram: seq<byte>)

  /** The flags, the pending table, and for each entry the event that recorded it. */
  datatype System = System(gate: Gate.State, table: seq<Pending>, tags: seq<nat>)

  /** The packet in an acceptable datagram. */
  function Payload(d: seq<byte>): seq<byte>
    requires Accepts(d)
  {
    d[DecodeVarint(d).value.length..]
  }

  /** A new attempt that gets past the TUN device, and a cleanup, leave an empty table. */
  predicate Resets(e: Event) {
    e.Callback? && (e.e.Finish? || (e.e.Start? && e.e.setup != Gate.NoDevice))
  }

  function AfterCallback(s: System, e: Gate.Event): System {
    if Resets(Callback(e)) then System(Gate.Next(s.gate, e), [], []) else s.(gate := Gate.Next(s.gate, e))
  }

  function AfterRead(target: seq<byte>, s: System, p: seq<byte>, j: nat): System {
    System(Gate.AfterPacket(s.gate, QueryPacket(target, p)), QueryTable(target, s.table, p),
           if IsQuery(target, p) && |s.table| < MAX_PENDING then s.tags + [j] else s.tags)
  }

  function AfterArrival(target: seq<byte>, s: System, d: seq<byte>): System
    requires |s.tags| == |s.table|
  {
    if Accepts(d) && IsAnswered(target, s.table, Payload(d)) then
      var i := LastMatch(s.table, Addressee(Payload(d)));
      s.(table := SwapRemove(s.table, i), tags := SwapRemove(s.tags, i))
    else s
  }

  function Step(target: seq<byte>, s: System, e: Event, j: nat): (r: System)
    requires |s.tags| == |s.table|
    ensures |r.tags| == |r.table|
  {
    match e
    case Callback(g) => AfterCallback(s, g)
    case TunRead(p) => AfterRead(target, s, p, j)
    case Arrival(d) => AfterArrival(target, s, d)
  }

  predicate Enabled(s: System, e: Event) {
    if e.Callback? then Gate.Enabled(s.gate, e.e) else s.gate.live
  }

  function After(target: seq<byte>, es: seq<Event>): (s: System)
    ensures |s.tags| == |s.table|
  {
    if |es| == 0 then System(Gate.INITIAL, [], [])
    else Step(target, After(target, es[..|es| - 1]), es[|es| - 1], |es| - 1)
  }

  predicate Run(target: seq<byte>, es: seq<Event>) {
    |es| > 0 ==> Run(target, es[..|es| - 1]) && Enabled(After(target, es[..|es| - 1]), es[|es| - 1])
  }

  lemma OneMore(target: seq<byte>, es: seq<Event>, e: Event)
    ensures Run(target, es + [e]) <==> Run(target, es) && Enabled(After(target, es), e)
    ensures After(target, es + [e]) == Step(target, After(target, es), e, |es|)
  {
    assert (es + [e])[..|es|] == es;
  }

  // ---- what the gate sees ----

  function GateEvent(target: seq<byte>, e: Event): seq<Gate.Event> {
    match e
    case Callback(g) => [g]
    case TunRead(p) => [Gate.Packet(QueryPacket(target, p))]
    case Arrival(_) => []
  }

  function GateEvents(target: seq<byte>, es: seq<Event>): seq<Gate.Event> {
    if |es| == 0 then [] else GateEvents(target, es[..|es| - 1]) + GateEvent(target, es[|es| - 1])
  }

  /** What the libraries have seen before event `j`. */
  function LogAt(target: seq<byte>, es: seq<Event>, j: nat): seq<Gate.Obs>
    requires j <= |es|
  {
    Gate.Log(GateEvents(target, es[..j]))
  }

  lemma {:induction false} GateProjection(target: seq<byte>, es: seq<Event>)
    requires Run(target, es)
    ensures Gate.Run(GateEvents(target, es))
    ensures Gate.StateAfter(GateEvents(target, es)) == After(target, es).gate
    decreases |es|
  {
    hide Gate.Run, Gate.StateAfter, Gate.Next, Gate.Enabled, Gate.AfterPacket, QueryPacket, QueryTable, IsQuery,
         IsAnswered, Accepts, SwapRemove, LastMatch;
    if |es| == 0 {
      NoGateEvents();
    } else {
      var front, e := es[..|es| - 1], es[|es| - 1];
      GateProjection(target, front);
      ProjectStep(target, After(target, front), e, |es| - 1, GateEvents(target, front));
    }
  }

  lemma NoGateEvents()
    ensures Gate.Run([]) && Gate.StateAfter([]) == Gate.INITIAL
  {
  }

  lemma ProjectStep(target: seq<byte>, s: System, e: Event, j: nat, gs: seq<Gate.Event>)
    requires |s.tags| == |s.table| && Enabled(s, e) && Gate.Run(gs) && Gate.StateAfter(gs) == s.gate
    ensures Gate.Run(gs + GateEvent(target, e))
    ensures Gate.StateAfter(gs + GateEvent(target, e)) == Step(target, s, e, j).gate
  {
    hide Gate.Run, Gate.StateAfter, Gate.AfterPacket, QueryPacket, QueryTable, IsQuery, IsAnswered, Accepts;
    match e
    case Callback(g) => Gate.OneMore(gs, g);
    case TunRead(p) => Gate.OneMore(gs, Gate.Packet(QueryPacket(target, p)));
    case Arrival(_) => assert gs + [] == gs;
  }

  // ---- where pending entries come from ----

  /** Event `j` read the query that entry `e` remembers, and nothing has emptied the table since. */
  ghost predicate ReadAt(target: seq<byte>, es: seq<Event>, j: nat, e: Pending) {
    && j < |es| && es[j].TunRead? && IsQuery(target, es[j].pkt) && Asked(es[j].pkt) == e
    && forall m :: j < m < |es| ==> !Resets(es[m])
  }

  ghost predicate Traced(target: seq<byte>, es: seq<Event>, s: System) {
    && |s.tags| == |s.table|
    && (forall k :: 0 <= k < |s.table| ==> ReadAt(target, es, s.tags[k], s.table[k]))
    && (forall i, k :: 0 <= i < k < |s.tags| ==> s.tags[i] != s.tags[k])
  }

  lemma ReadAtExtends(target: seq<byte>, es: seq<Event>, e: Event, j: nat, x: Pending)
    requires ReadAt(target, es, j, x) && !Resets(e)
    ensures ReadAt(target, es + [e], j, x)
  {
  }

  lemma TracedExtends(target: seq<byte>, es: seq<Event>, e: Event, s: System)
    requires Traced(target, es, s) && !Resets(e)
    ensures Traced(target, es + [e], s)
  {
    forall k | 0 <= k < |s.table| ensures ReadAt(target, es + [e], s.tags[k], s.table[k]) {
      ReadAtExtends(target, es, e, s.tags[k], s.table[k]);
    }
  }

  lemma TracedAfterRead(target: seq<byte>, es: seq<Event>, s: System, p: seq<byte>)
    requires Traced(target, es, s)
    ensures Traced(target, es + [TunRead(p)], AfterRead(target, s, p, |es|))
  {
    hide IsQuery, QueryPacket, Gate.AfterPacket, Asked;
    TracedExtends(target, es, TunRead(p), s);
    TagsBelow(target, es, s);
    if IsQuery(target, p) && |s.table| < MAX_PENDING {
      NewestRead(target, es, p);
      hide ReadAt;
    }
  }

  lemma TagsBelow(target: seq<byte>, es: seq<Event>, s: System)
    requires Traced(target, es, s)
    ensures forall k :: 0 <= k < |s.tags| ==> s.tags[k] < |es|
  {
    forall k | 0 <= k < |s.tags| ensures s.tags[k] < |es| {
      assert ReadAt(target, es, s.tags[k], s.table[k]);
    }
  }

  lemma NewestRead(target: seq<byte>, es: seq<Event>, p: seq<byte>)
    requires IsQuery(target, p)
    ensures ReadAt(target, es + [TunRead(p)], |es|, Asked(p))
  {
  }

  lemma TracedAfterArrival(target: seq<byte>, es: seq<Event>, s: System, d: seq<byte>)
    requires Traced(target, es, s)
    ensures Traced(target, es + [Arrival(d)], AfterArrival(target, s, d))
  {
    TracedExtends(target, es, Arrival(d), s);
    hide IsResponse, IsUdp, Accepts, Payload, Addressee, SwapRemove;
    if Accepts(d) && IsAnswered(target, s.table, Payload(d)) {
      TracedRemove(target, es + [Arrival(d)], s, LastMatch(s.table, Addressee(Payload(d))));
    }
  }

  lemma TracedRemove(target: seq<byte>, es: seq<Event>, s: System, i: nat)
    requires Traced(target, es, s) && i < |s.table|
    ensures Traced(target, es, s.(table := SwapRemove(s.table, i), tags := SwapRemove(s.tags, i)))
  {
    hide ReadAt;
    var table, tags, n := SwapRemove(s.table, i), SwapRemove(s.tags, i), |s.table| - 1;
    assert forall k :: 0 <= k < n ==> table[k] == s.table[if k == i then n else k];
    assert forall k :: 0 <= k < n ==> tags[k] == s.tags[if k == i then n else k];
  }

  /** Every pending entry remembers a query that was read on this connection, each its own. */
  lemma {:induction false} PendingIsTraced(target: seq<byte>, es: seq<Event>)
    ensures Traced(target, es, After(target, es))
    decreases |es|
  {
    if |es| > 0 {
      var front, e := es[..|es| - 1], es[|es| - 1];
      PendingIsTraced(target, front);
      assert es == front + [e];
      hide After, Traced;
      OneMore(target, front, e);
      TracedStep(target, front, After(target, front), e);
    }
  }

  lemma TracedStep(target: seq<byte>, es: seq<Event>, s: System, e: Event)
    requires Traced(target, es, s) && |s.tags| == |s.table|
    ensures Traced(target, es + [e], Step(target, s, e, |es|))
  {
    hide Traced, AfterRead, AfterArrival, AfterCallback;
    match e
    case TunRead(p) => TracedAfterRead(target, es, s, p);
    case Arrival(d) => TracedAfterArrival(target, es, s, d);
    case Callback(g) => TracedAfterCallback(target, es, s, g);
  }

  lemma TracedAfterCallback(target: seq<byte>, es: seq<Event>, s: System, g: Gate.Event)
    requires Traced(target, es, s)
    ensures Traced(target, es + [Callback(g)], AfterCallback(s, g))
  {
    hide Gate.Next;
    if !Resets(Callback(g)) {
      TracedExtends(target, es, Callback(g), s);
    }
  }

  // ---- which of them were sent ----

  /** Event `j`, a packet read from the TUN device, was handed to QUIC. */
  predicate HandedAt(target: seq<byte>, es: seq<Event>, j: nat) {
    j < |es| && es[j].TunRead? && Gate.Sends(After(target, es[..j]).gate, QueryPacket(target, es[j].pkt))
  }

  lemma {:induction false} PrefixRuns(target: seq<byte>, es: seq<Event>, j: nat)
    requires Run(target, es) && j < |es|
    ensures Run(target, es[..j]) && Enabled(After(target, es[..j]), es[j])
    decreases |es|
  {
    var front := es[..|es| - 1];
    if j < |front| {
      PrefixRuns(target, front, j);
      assert front[..j] == es[..j];
    }
  }

  lemma ReadIsSentIff(s: Gate.State, target: seq<byte>, p: seq<byte>)
    requires IsQuery(target, p) && s.conn
    ensures |p| >= 20 && (Gate.Sends(s, QueryPacket(target, p)) <==> s.tunnelReady && p[8] >= 2 && |p| <= 1499)
  {
    QueryStaysForwardable(target, p);
    hide QueryPacket, Forwardable;
  }

  /**
   A pending entry belongs to a query that was handed to QUIC exactly when, at the time it was read, the log
   showed the connection ready, and the query had a hop to spare and fitted the buffers.
   */
  lemma PendingWasHandedIff(target: seq<byte>, es: seq<Event>, k: nat)
    requires Run(target, es) && k < |After(target, es).table|
    ensures var j := After(target, es).tags[k];
      && ReadAt(target, es, j, After(target, es).table[k]) && |es[j].pkt| >= 20
      && (HandedAt(target, es, j) <==>
            Gate.Ready(LogAt(target, es, j), |LogAt(target, es, j)|) && es[j].pkt[8] >= 2 && |es[j].pkt| <= 1499)
  {
    var s := After(target, es);
    var j := s.tags[k];
    PendingIsTraced(target, es);
    assert ReadAt(target, es, j, s.table[k]);
    PrefixRuns(target, es, j);
    GateProjection(target, es[..j]);
    Gate.LiveFlags(GateEvents(target, es[..j]));
    hide After, Run, Gate.Run, Gate.Log, Gate.StateAfter, Gate.Ready, Gate.Sends, QueryPacket, IsQuery, GateEvents;
    ReadIsSentIff(After(target, es[..j]).gate, target, es[j].pkt);
  }

  // ---- a table full of queries that never left ----

  /** A connection is set up, and `n` queries of one host are read before any answer of the peer. */
  function Waiting(ip: uint32, dst: uint32, n: nat): seq<Event>
    requires n <= MAX_PENDING
  {
    if n == 0 then [Callback(Gate.Start(Gate.SetUp))]
    else Waiting(ip, dst, n - 1) + [TunRead(QueryFrom(Client(ip, n), dst))]
  }

  const STARTED: Gate.State := Gate.INITIAL.(conn := true, live := true)

  lemma FirstStart(target: seq<byte>)
    ensures var es := [Callback(Gate.Start(Gate.SetUp))];
      && Run(target, es) && After(target, es) == System(STARTED, [], [])
      && Gate.Log(GateEvents(target, es)) == [Gate.Started]
  {
    NothingYet(target);
    Gate.FirstStart();
    hide Run, After, GateEvents, Gate.Log, Gate.StateAfter, Gate.Run;
    var e := Callback(Gate.Start(Gate.SetUp));
    OneMore(target, [], e);
    GateEventsAppend(target, [], e);
    assert [] + [e] == [e] && [] + [Gate.Start(Gate.SetUp)] == [Gate.Start(Gate.SetUp)];
  }

  lemma NothingYet(target: seq<byte>)
    ensures Run(target, []) && After(target, []) == System(Gate.INITIAL, [], []) && GateEvents(target, []) == []
  {
  }

  /** One query before readiness: remembered, and nothing handed over. */
  lemma WaitingStep(target: seq<byte>, es: seq<Event>, c: Client, dst: uint32)
    requires DnsHijack.Enabled(target) && Run(target, es)
    requires After(target, es).gate == STARTED && |After(target, es).table| < MAX_PENDING
    ensures var r := es + [TunRead(QueryFrom(c, dst))];
      && Run(target, r) && After(target, r).gate == STARTED
      && After(target, r).table == After(target, es).table + [Pending(c.ip, c.port, dst)]
      && Gate.Log(GateEvents(target, r)) == Gate.Log(GateEvents(target, es))
  {
    var q := QueryFrom(c, dst);
    QueryFromIs(target, c, dst);
    GateProjection(target, es);
    GateEventsAppend(target, es, TunRead(q));
    hide QueryFrom, QueryPacket, IsQuery, Run, After, Gate.Log, Gate.StateAfter, Gate.Run, Gate.AfterPacket,
         Gate.Next, GateEvents;
    NothingLogged(GateEvents(target, es), QueryPacket(target, q));
    OneMore(target, es, TunRead(q));
    NothingSent(QueryPacket(target, q));
  }

  lemma NothingLogged(gs: seq<Gate.Event>, p: seq<byte>)
    requires Gate.StateAfter(gs) == STARTED
    ensures Gate.Log(gs + [Gate.Packet(p)]) == Gate.Log(gs)
  {
    NothingSent(p);
    hide Gate.Log, Gate.StateAfter, Gate.Run, Gate.AfterPacket, Gate.PacketObs;
    Gate.OneMore(gs, Gate.Packet(p));
  }

  lemma NothingSent(p: seq<byte>)
    ensures Gate.AfterPacket(STARTED, p) == STARTED && Gate.PacketObs(STARTED, p) == []
  {
  }

  lemma GateEventsAppend(target: seq<byte>, es: seq<Event>, e: Event)
    ensures GateEvents(target, es + [e]) == GateEvents(target, es) + GateEvent(target, e)
  {
    assert (es + [e])[..|es|] == es;
  }

  lemma {:induction false} WaitingFills(target: seq<byte>, ip: uint32, dst: uint32, n: nat)
    requires DnsHijack.Enabled(target) && n <= MAX_PENDING
    ensures var es := Waiting(ip, dst, n);
      && Run(target, es) && After(target, es).gate == STARTED
      && |After(target, es).table| == n && (forall x :: x in After(target, es).table ==> x.srcIp == ip)
      && Gate.Log(GateEvents(target, es)) == [Gate.Started]
  {
    hide Run, After, Gate.Log, GateEvents, QueryFrom;
    if n == 0 {
      FirstStart(target);
    } else {
      WaitingFills(target, ip, dst, n - 1);
      WaitingStep(target, Waiting(ip, dst, n - 1), Client(ip, n), dst);
    }
  }

  /** The rest of the opening of the gate. */
  function Opened(es: seq<Event>): seq<Event> {
    es + [Callback(Gate.StreamsAvailable(Gate.Submitted))] + [Callback(Gate.Header(true, "200"))]
    + [Callback(Gate.EndOfHeaders)]
  }

  lemma OpenedKeepsTable(target: seq<byte>, es: seq<Event>)
    requires Run(target, es) && After(target, es).gate == STARTED
    ensures Run(target, Opened(es)) && After(target, Opened(es)).table == After(target, es).table
    ensures After(target, Opened(es)).gate == STARTED.(httpConn := true, connected := true, tunnelReady := true)
  {
    hide Run, After;
    var e1, e2 := Callback(Gate.StreamsAvailable(Gate.Submitted)), Callback(Gate.Header(true, "200"));
    OneMore(target, es, e1);
    assert Gate.Next(STARTED, e1.e) == STARTED.(httpConn := true);
    OneMore(target, es + [e1], e2);
    assert Gate.Next(STARTED.(httpConn := true), e2.e) == STARTED.(httpConn := true, connected := true);
    OneMore(target, es + [e1] + [e2], Callback(Gate.EndOfHeaders));
  }

  /**
   256 queries that are read before the peer has answered fill the table although none is sent. When the gate
   opens, the next query of another host is sent, but there is no room to remember it.
   */
  lemma UnsentQueriesFillTable(target: seq<byte>, ip: uint32, c: Client, dst: uint32)
    requires DnsHijack.Enabled(target) && c.ip != ip
    ensures var es, q := Waiting(ip, dst, MAX_PENDING), TunRead(QueryFrom(c, dst));
      && Run(target, es) && |After(target, es).table| == MAX_PENDING
      && Gate.Log(GateEvents(target, es)) == [Gate.Started]
      && Run(target, Opened(es) + [q]) && HandedAt(target, Opened(es) + [q], |Opened(es)|)
      && After(target, Opened(es) + [q]).table == After(target, es).table
      && (forall x :: x in After(target, es).table ==> ClientOf(x) != c)
  {
    var es, p := Waiting(ip, dst, MAX_PENDING), QueryFrom(c, dst);
    WaitingFills(target, ip, dst, MAX_PENDING);
    OpenedKeepsTable(target, es);
    QueryFromIs(target, c, dst);
    assert p[8] == 64 && |p| == 28;
    hide Run, After, Gate.Log, GateEvents, QueryFrom, IsQuery, Waiting, Opened, Gate.Sends, Gate.AfterPacket,
         QueryPacket;
    var all := Opened(es);
    OneMore(target, all, TunRead(p));
    assert (all + [TunRead(p)])[..|all|] == all;
    ReadIsSentIff(After(target, all).gate, target, p);
  }
}
