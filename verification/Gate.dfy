/**
 The readiness gate of the tunnel as a step system: quic_engine.cpp, http3_connect.cpp and the timer of
 tunnel.cpp, driven by library callbacks in any order, over any number of reconnects.
 */
module Gate {
  import opened Bytes
  import opened ConnectIp

  /** The flags that the callbacks share; `live` holds between a successful setup and the cleanup. */
  datatype State = State(
    live: bool, conn: bool, httpConn: bool, connected: bool, handshakeDone: bool, tunnelReady: bool,
    datagramId: uint64, postNoiseSent: bool)

  const INITIAL := State(false, false, false, false, false, false, 0, false)

  /** How far an attempt got: no TUN device, no connection, a connection without a TLS session, or all of it. */
  datatype SetupOutcome = NoDevice | NoConnection | NoSession | SetUp

  /** Which of the library calls of the stream callback failed, if any. */
  datatype StreamOutcome = Http3Failed | UniStreamFailed | BidiStreamFailed | SubmitFailed | Submitted

  datatype Event =
    | Start(setup: SetupOutcome)
    | HandshakeCompleted
    | StreamsAvailable(outcome: StreamOutcome)
    | Header(isStatus: bool, value: string)
    | EndOfHeaders
    | Packet(pkt: seq<byte>)
    | Timer(noise: seq<seq<byte>>)
    | Finish

  /** What an observer of the libraries sees. */
  datatype Obs =
    | Started
    | ConnectSubmitted
    | Status200
    | HeadersEnded
    | Burst
    | Handed(id: uint64, datagram: seq<byte>)
    | CleanedUp

  // ---- the callbacks, on values ----

  predicate IsStatus200(isStatus: bool, value: string) {
    isStatus && |value| >= 3 && value[..3] == "200"
  }

  function AfterStart(s: State, setup: SetupOutcome): State {
    match setup
    case NoDevice => s
    case NoConnection => s
    case NoSession => s.(conn := true)
    case SetUp => s.(conn := true, live := true, postNoiseSent := false)
  }

  function AfterStreams(s: State, outcome: StreamOutcome): State {
    if s.httpConn || outcome == Http3Failed then s else s.(httpConn := true)
  }

  function AfterHeader(s: State, isStatus: bool, value: string): State {
    if IsStatus200(isStatus, value) then s.(connected := true) else s
  }

  function AfterEndOfHeaders(s: State): State {
    if s.connected then s.(tunnelReady := true) else s
  }

  function AfterFinish(s: State): State {
    s.(live := false, conn := false, httpConn := false, connected := false, handshakeDone := false,
       tunnelReady := false)
  }

  function NextId(id: uint64): uint64 {
    if id == 0xffff_ffff_ffff_ffff then 0 else id + 1
  }

  /** The packets that `send_packet` turns into a datagram; its buffers hold 1500 octets. */
  predicate Sends(s: State, p: seq<byte>) {
    s.tunnelReady && s.conn && Forwardable(p) && |p| + 1 <= 1500
  }

  function AfterPacket(s: State, p: seq<byte>): State {
    if Sends(s, p) then s.(datagramId := NextId(s.datagramId)) else s
  }

  function PacketObs(s: State, p: seq<byte>): seq<Obs> {
    if Sends(s, p) then [Handed(s.datagramId, [0] + Forwarded(p))] else []
  }

  function AfterPackets(s: State, ps: seq<seq<byte>>): State {
    if |ps| == 0 then s else AfterPacket(AfterPackets(s, ps[..|ps| - 1]), ps[|ps| - 1])
  }

  function PacketsObs(s: State, ps: seq<seq<byte>>): seq<Obs> {
    if |ps| == 0 then []
    else PacketsObs(s, ps[..|ps| - 1]) + PacketObs(AfterPackets(s, ps[..|ps| - 1]), ps[|ps| - 1])
  }

  predicate BurstDue(s: State) {
    s.tunnelReady && !s.postNoiseSent
  }

  function Next(s: State, e: Event): State {
    match e
    case Start(setup) => AfterStart(s, setup)
    case HandshakeCompleted => s.(handshakeDone := true)
    case StreamsAvailable(outcome) => AfterStreams(s, outcome)
    case Header(isStatus, value) => AfterHeader(s, isStatus, value)
    case EndOfHeaders => AfterEndOfHeaders(s)
    case Packet(p) => AfterPacket(s, p)
    case Timer(noise) => if BurstDue(s) then AfterPackets(s.(postNoiseSent := true), noise) else s
    case Finish => AfterFinish(s)
  }

  function Observed(s: State, e: Event): seq<Obs> {
    match e
    case Start(setup) => if setup == SetUp then [Started] else []
    case HandshakeCompleted => []
    case StreamsAvailable(outcome) =>
      if !s.httpConn && outcome in {SubmitFailed, Submitted} then [ConnectSubmitted] else []
    case Header(isStatus, value) => if IsStatus200(isStatus, value) then [Status200] else []
    case EndOfHeaders => [HeadersEnded]
    case Packet(p) => PacketObs(s, p)
    case Timer(noise) => if BurstDue(s) then [Burst] + PacketsObs(s.(postNoiseSent := true), noise) else []
    case Finish => [CleanedUp]
  }

  /**
   What the libraries promise: callbacks and timers run only inside the event loop of a set-up connection,
   and the HTTP/3 callbacks only while the HTTP/3 connection object exists.
   */
  predicate Enabled(s: State, e: Event) {
    match e
    case Start(_) => !s.live
    case Header(_, _) => s.live && s.httpConn
    case EndOfHeaders => s.live && s.httpConn
    case _ => s.live
  }

  // ---- runs ----

  function StateAfter(es: seq<Event>): State {
    if |es| == 0 then INITIAL else Next(StateAfter(es[..|es| - 1]), es[|es| - 1])
  }

  function Log(es: seq<Event>): seq<Obs> {
    if |es| == 0 then []
    else Log(es[..|es| - 1]) + Observed(StateAfter(es[..|es| - 1]), es[|es| - 1])
  }

  predicate Run(es: seq<Event>) {
    |es| > 0 ==> Run(es[..|es| - 1]) && Enabled(StateAfter(es[..|es| - 1]), es[|es| - 1])
  }

  // ---- what the log shows ----

  /** The two observations that may come only once per connection. */
  datatype Single = TheConnect | TheBurst

  predicate Is(x: Obs, y: Single) {
    match y
    case TheConnect => x.ConnectSubmitted?
    case TheBurst => x.Burst?
  }

  /** No connection starts or ends strictly between the observations `i` and `j`. */
  predicate SameConnection(log: seq<Obs>, i: nat, j: nat) {
    forall k :: i < k < j && k < |log| ==> !log[k].Started? && !log[k].CleanedUp?
  }

  /** A connection was started before `j` and has been neither cleaned up nor restarted since. */
  ghost predicate Alive(log: seq<Obs>, j: nat) {
    exists s :: 0 <= s < j && s < |log| && log[s].Started? && SameConnection(log, s, j)
  }

  /** That connection has received a 200 status. */
  ghost predicate Accepted(log: seq<Obs>, j: nat) {
    exists s, a :: 0 <= s < a < j <= |log| && log[s].Started? && log[a].Status200? && SameConnection(log, s, j)
  }

  /** That connection has received a 200 status and, later, an end of headers. */
  ghost predicate Ready(log: seq<Obs>, j: nat) {
    exists s, a, b :: 0 <= s < a < b < j <= |log|
      && log[s].Started? && log[a].Status200? && log[b].HeadersEnded? && SameConnection(log, s, j)
  }

  /** `x` was observed since the last start. */
  ghost predicate SinceStart(log: seq<Obs>, x: Single) {
    exists a :: 0 <= a < |log| && Is(log[a], x) && forall k :: a < k < |log| ==> !log[k].Started?
  }

  /** `x` occurs at most once per connection. */
  ghost predicate OncePerConnection(log: seq<Obs>, x: Single) {
    forall i, j :: 0 <= i < j < |log| && Is(log[i], x) && Is(log[j], x) ==> exists k :: i < k < j && log[k].Started?
  }

  function HandedIds(log: seq<Obs>): seq<uint64> {
    if |log| == 0 then []
    else
      var x := log[|log| - 1];
      HandedIds(log[..|log| - 1]) + (if x.Handed? then [x.id] else [])
  }

  /** Datagram ids count 0, 1, 2, ... in the 64-bit counter, whatever connection they belong to. */
  ghost predicate CountedIds(log: seq<Obs>) {
    forall k :: 0 <= k < |HandedIds(log)| ==> HandedIds(log)[k] == k % 0x1_0000_0000_0000_0000
  }

  /** Datagrams and noise bursts only on a connection that is ready; CONNECT and the burst at most once on each. */
  ghost predicate Safe(log: seq<Obs>) {
    && OnlyWhenReady(log)
    && OncePerConnection(log, TheConnect)
    && OncePerConnection(log, TheBurst)
    && CountedIds(log)
  }

  /** What the flags say about the log: neither more nor less than what it shows. */
  ghost predicate Reflects(s: State, log: seq<Obs>) {
    && (s.live <==> Alive(log, |log|))
    && (s.connected <==> Accepted(log, |log|))
    && (s.tunnelReady <==> Ready(log, |log|))
    && (s.live && SinceStart(log, TheConnect) ==> s.httpConn)
    && (s.live ==> (s.postNoiseSent <==> SinceStart(log, TheBurst)))
    && (s.live ==> s.conn)
    && (!s.live ==> !s.connected && !s.tunnelReady && !s.httpConn)
    && s.datagramId == |HandedIds(log)| % 0x1_0000_0000_0000_0000
  }

  // ---- appending one observation ----

  lemma ReadyInPrefix(log: seq<Obs>, more: seq<Obs>, j: nat)
    requires j <= |log| && Ready(log, j)
    ensures Ready(log + more, j)
  {
    var s, a, b :| 0 <= s < a < b < j <= |log|
      && log[s].Started? && log[a].Status200? && log[b].HeadersEnded? && SameConnection(log, s, j);
    var r := log + more;
    assert r[s].Started? && r[a].Status200? && r[b].HeadersEnded? && SameConnection(r, s, j);
  }

  lemma HandedIdsAppend(log: seq<Obs>, x: Obs)
    ensures HandedIds(log + [x]) == HandedIds(log) + (if x.Handed? then [x.id] else [])
  {
    assert (log + [x])[..|log|] == log;
  }

  lemma OnceAppend(log: seq<Obs>, x: Obs, y: Single)
    requires OncePerConnection(log, y) && (Is(x, y) ==> !SinceStart(log, y))
    ensures OncePerConnection(log + [x], y)
  {
    var r := log + [x];
    forall i, j | 0 <= i < j < |r| && Is(r[i], y) && Is(r[j], y)
      ensures exists k :: i < k < j && r[k].Started?
    {
      assert Is(log[i], y);
      if j < |log| {
        assert Is(log[j], y);
        var k :| i < k < j && log[k].Started?;
        assert r[k].Started?;
      } else {
        assert Is(x, y) && !SinceStart(log, y);
        var k :| i < k < |log| && log[k].Started?;
        assert r[k].Started?;
      }
    }
  }

  ghost predicate OnlyWhenReady(log: seq<Obs>) {
    forall i :: 0 <= i < |log| && (log[i].Handed? || log[i].Burst?) ==> Ready(log, i)
  }

  lemma OnlyWhenReadyAppend(log: seq<Obs>, x: Obs)
    requires OnlyWhenReady(log) && (x.Handed? || x.Burst? ==> Ready(log, |log|))
    ensures OnlyWhenReady(log + [x])
  {
    hide Ready;
    var r := log + [x];
    forall i | 0 <= i < |r| && (r[i].Handed? || r[i].Burst?) ensures Ready(r, i) {
      if i < |log| {
        assert r[i] == log[i];
      }
      ReadyInPrefix(log, [x], i);
    }
  }

  lemma CountedIdsAppend(log: seq<Obs>, x: Obs)
    requires CountedIds(log) && (x.Handed? ==> x.id == |HandedIds(log)| % 0x1_0000_0000_0000_0000)
    ensures CountedIds(log + [x])
  {
    HandedIdsAppend(log, x);
    hide HandedIds;
  }

  lemma SafeAppend(log: seq<Obs>, x: Obs)
    requires Safe(log)
    requires x.Handed? || x.Burst? ==> Ready(log, |log|)
    requires forall y :: Is(x, y) ==> !SinceStart(log, y)
    requires x.Handed? ==> x.id == |HandedIds(log)| % 0x1_0000_0000_0000_0000
    ensures Safe(log + [x])
  {
    hide OnlyWhenReady, OncePerConnection, CountedIds, Ready, SinceStart, HandedIds;
    OnlyWhenReadyAppend(log, x);
    OnceAppend(log, x, TheConnect);
    OnceAppend(log, x, TheBurst);
    CountedIdsAppend(log, x);
  }

  lemma SameConnectionAppend(log: seq<Obs>, x: Obs, s: nat)
    requires s < |log|
    ensures SameConnection(log + [x], s, |log| + 1) <==>
      SameConnection(log, s, |log|) && !x.Started? && !x.CleanedUp?
  {
    var r := log + [x];
    assert r[|log|] == x;
    assert forall k :: s < k < |log| ==> r[k] == log[k];
  }

  lemma OneConnection(log: seq<Obs>, n: nat)
    ensures SameConnection(log, n, n + 1)
  {
  }

  lemma AliveAppend(log: seq<Obs>, x: Obs)
    ensures Alive(log + [x], |log| + 1) <==> x.Started? || (!x.CleanedUp? && Alive(log, |log|))
  {
    hide SameConnection;
    var n, r := |log|, log + [x];
    if x.Started? {
      assert r[n].Started? && SameConnection(r, n, n + 1) by { OneConnection(r, n); }
    }
    if !x.CleanedUp? && !x.Started? && Alive(log, n) {
      var s :| 0 <= s < n && s < |log| && log[s].Started? && SameConnection(log, s, n);
      SameConnectionAppend(log, x, s);
      assert r[s].Started?;
    }
    if !x.Started? && Alive(r, n + 1) {
      var s :| 0 <= s < n + 1 && s < |r| && r[s].Started? && SameConnection(r, s, n + 1);
      SameConnectionAppend(log, x, s);
      assert log[s].Started?;
    }
  }

  lemma AcceptedAppend(log: seq<Obs>, x: Obs)
    ensures Accepted(log + [x], |log| + 1) <==>
      !x.Started? && !x.CleanedUp? && (Accepted(log, |log|) || (x.Status200? && Alive(log, |log|)))
  {
    hide SameConnection;
    var n, r := |log|, log + [x];
    if !x.Started? && !x.CleanedUp? && Accepted(log, n) {
      var s, a :| 0 <= s < a < n && log[s].Started? && log[a].Status200? && SameConnection(log, s, n);
      SameConnectionAppend(log, x, s);
      assert r[s].Started? && r[a].Status200?;
    }
    if x.Status200? && Alive(log, n) {
      var s :| 0 <= s < n && s < |log| && log[s].Started? && SameConnection(log, s, n);
      SameConnectionAppend(log, x, s);
      assert r[s].Started? && r[n].Status200?;
    }
    if Accepted(r, n + 1) {
      var s, a :| 0 <= s < a < n + 1 && r[s].Started? && r[a].Status200? && SameConnection(r, s, n + 1);
      SameConnectionAppend(log, x, s);
      assert log[s].Started?;
      if a < n {
        assert log[a].Status200?;
      }
    }
  }

  lemma ReadyAppend(log: seq<Obs>, x: Obs)
    ensures Ready(log + [x], |log| + 1) <==>
      !x.Started? && !x.CleanedUp? && (Ready(log, |log|) || (x.HeadersEnded? && Accepted(log, |log|)))
  {
    hide SameConnection;
    var n, r := |log|, log + [x];
    if !x.Started? && !x.CleanedUp? && Ready(log, n) {
      var s, a, b :| 0 <= s < a < b < n
        && log[s].Started? && log[a].Status200? && log[b].HeadersEnded? && SameConnection(log, s, n);
      SameConnectionAppend(log, x, s);
      assert r[s].Started? && r[a].Status200? && r[b].HeadersEnded?;
    }
    if x.HeadersEnded? && Accepted(log, n) {
      var s, a :| 0 <= s < a < n && log[s].Started? && log[a].Status200? && SameConnection(log, s, n);
      SameConnectionAppend(log, x, s);
      assert r[s].Started? && r[a].Status200? && r[n].HeadersEnded?;
    }
    if Ready(r, n + 1) {
      var s, a, b :| 0 <= s < a < b < n + 1
        && r[s].Started? && r[a].Status200? && r[b].HeadersEnded? && SameConnection(r, s, n + 1);
      SameConnectionAppend(log, x, s);
      assert log[s].Started? && log[a].Status200?;
      if b < n {
        assert log[b].HeadersEnded?;
      }
    }
  }

  lemma SinceStartAppend(log: seq<Obs>, x: Obs, y: Single)
    ensures SinceStart(log + [x], y) <==> Is(x, y) || (!x.Started? && SinceStart(log, y))
  {
    var r := log + [x];
    if Is(x, y) {
      assert Is(r[|log|], y);
    }
    if !x.Started? && SinceStart(log, y) {
      var a :| 0 <= a < |log| && Is(log[a], y) && forall k :: a < k < |log| ==> !log[k].Started?;
      assert Is(r[a], y);
    }
    if !Is(x, y) && SinceStart(r, y) {
      var a :| 0 <= a < |r| && Is(r[a], y) && forall k :: a < k < |r| ==> !r[k].Started?;
      assert Is(log[a], y) && !r[|log|].Started?;
      assert forall k :: a < k < |log| ==> log[k] == r[k];
    }
  }

  lemma NextIdCounts(n: nat)
    ensures NextId(n % 0x1_0000_0000_0000_0000) == (n + 1) % 0x1_0000_0000_0000_0000
  {
  }

  // ---- one event ----

  ghost predicate Invariant(s: State, log: seq<Obs>) {
    Safe(log) && Reflects(s, log)
  }

  /** What the log shows after one more observation. */
  lemma AppendFacts(log: seq<Obs>, x: Obs)
    ensures var r, n := log + [x], |log|;
      && (Alive(r, |r|) <==> x.Started? || (!x.CleanedUp? && Alive(log, n)))
      && (Accepted(r, |r|) <==>
            !x.Started? && !x.CleanedUp? && (Accepted(log, n) || (x.Status200? && Alive(log, n))))
      && (Ready(r, |r|) <==>
            !x.Started? && !x.CleanedUp? && (Ready(log, n) || (x.HeadersEnded? && Accepted(log, n))))
      && (SinceStart(r, TheConnect) <==> x.ConnectSubmitted? || (!x.Started? && SinceStart(log, TheConnect)))
      && (SinceStart(r, TheBurst) <==> x.Burst? || (!x.Started? && SinceStart(log, TheBurst)))
      && |HandedIds(r)| == |HandedIds(log)| + if x.Handed? then 1 else 0
  {
    hide Alive, Accepted, Ready, SinceStart, HandedIds;
    AliveAppend(log, x);
    AcceptedAppend(log, x);
    ReadyAppend(log, x);
    SinceStartAppend(log, x, TheConnect);
    SinceStartAppend(log, x, TheBurst);
    HandedIdsAppend(log, x);
  }

  lemma PacketKeeps(s: State, log: seq<Obs>, p: seq<byte>)
    requires Invariant(s, log)
    ensures Invariant(AfterPacket(s, p), log + PacketObs(s, p))
  {
    hide Alive, Accepted, Ready, SinceStart, Safe, HandedIds, Forwardable, Forwarded;
    if Sends(s, p) {
      var x := Handed(s.datagramId, [0] + Forwarded(p));
      SafeAppend(log, x);
      AppendFacts(log, x);
      NextIdCounts(|HandedIds(log)|);
    } else {
      assert log + [] == log;
    }
  }

  lemma {:induction false} PacketsKeep(s: State, log: seq<Obs>, ps: seq<seq<byte>>)
    requires Invariant(s, log)
    ensures Invariant(AfterPackets(s, ps), log + PacketsObs(s, ps))
    decreases |ps|
  {
    hide Safe, Reflects;
    if |ps| == 0 {
      assert log + [] == log;
    } else {
      var front, p := ps[..|ps| - 1], ps[|ps| - 1];
      PacketsKeep(s, log, front);
      var t := AfterPackets(s, front);
      PacketKeeps(t, log + PacketsObs(s, front), p);
      assert log + PacketsObs(s, ps) == log + PacketsObs(s, front) + PacketObs(t, p);
    }
  }

  lemma TimerKeeps(s: State, log: seq<Obs>, noise: seq<seq<byte>>)
    requires Invariant(s, log) && s.live
    ensures Invariant(Next(s, Timer(noise)), log + Observed(s, Timer(noise)))
  {
    hide Alive, Accepted, Ready, SinceStart, Safe, AfterPackets, PacketsObs;
    if BurstDue(s) {
      var t := s.(postNoiseSent := true);
      SafeAppend(log, Burst);
      AppendFacts(log, Burst);
      PacketsKeep(t, log + [Burst], noise);
      assert log + Observed(s, Timer(noise)) == log + [Burst] + PacketsObs(t, noise);
    } else {
      assert log + [] == log;
    }
  }

  lemma StartKeeps(s: State, log: seq<Obs>, setup: SetupOutcome)
    requires Invariant(s, log) && !s.live
    ensures Invariant(AfterStart(s, setup), log + Observed(s, Start(setup)))
  {
    hide Alive, Accepted, Ready, SinceStart, Safe, HandedIds;
    if setup == SetUp {
      SafeAppend(log, Started);
      AppendFacts(log, Started);
    } else {
      assert log + [] == log;
    }
  }

  lemma FinishKeeps(s: State, log: seq<Obs>)
    requires Invariant(s, log)
    ensures Invariant(AfterFinish(s), log + [CleanedUp])
  {
    hide Alive, Accepted, Ready, SinceStart, Safe, HandedIds;
    SafeAppend(log, CleanedUp);
    AppendFacts(log, CleanedUp);
  }

  /** Every enabled event keeps the log safe and the flags honest. */
  lemma EventKeeps(s: State, log: seq<Obs>, e: Event)
    requires Invariant(s, log) && Enabled(s, e)
    ensures Invariant(Next(s, e), log + Observed(s, e))
  {
    hide Alive, Accepted, Ready, SinceStart, Safe, AfterPackets, PacketsObs, SameConnection, HandedIds;
    match e
    case Start(setup) => StartKeeps(s, log, setup);
    case Packet(p) => PacketKeeps(s, log, p);
    case Timer(noise) => TimerKeeps(s, log, noise);
    case Finish => FinishKeeps(s, log);
    case HandshakeCompleted => assert log + [] == log;
    case StreamsAvailable(outcome) =>
      if Observed(s, e) == [] {
        assert log + [] == log;
      } else {
        SafeAppend(log, ConnectSubmitted);
        AppendFacts(log, ConnectSubmitted);
      }
    case Header(isStatus, value) =>
      if Observed(s, e) == [] {
        assert log + [] == log;
      } else {
        SafeAppend(log, Status200);
        AppendFacts(log, Status200);
      }
    case EndOfHeaders =>
      SafeAppend(log, HeadersEnded);
      AppendFacts(log, HeadersEnded);
  }

  /** The gate over whole runs, with any number of reconnects. */
  lemma {:induction false} RunIsSafe(es: seq<Event>)
    requires Run(es)
    ensures Safe(Log(es)) && Reflects(StateAfter(es), Log(es))
    decreases |es|
  {
    if |es| > 0 {
      RunIsSafe(es[..|es| - 1]);
      EventKeeps(StateAfter(es[..|es| - 1]), Log(es[..|es| - 1]), es[|es| - 1]);
    }
  }

  lemma LiveFlags(es: seq<Event>)
    requires Run(es) && StateAfter(es).live
    ensures var s, log := StateAfter(es), Log(es);
      && s.conn && (s.tunnelReady <==> Ready(log, |log|)) && (s.postNoiseSent <==> SinceStart(log, TheBurst))
      && s.datagramId == |HandedIds(log)| % 0x1_0000_0000_0000_0000
  {
    RunIsSafe(es);
    hide Run, Log, StateAfter, HandedIds, Ready, Alive, Accepted, SinceStart, Safe;
  }

  /** On a live connection a packet is handed to QUIC exactly when the log shows it ready and compose has room. */
  lemma HandedIff(es: seq<Event>, p: seq<byte>)
    requires Run(es) && Enabled(StateAfter(es), Packet(p))
    ensures Observed(StateAfter(es), Packet(p)) ==
      if Ready(Log(es), |Log(es)|) && Forwardable(p) && |p| <= 1499
      then [Handed(|HandedIds(Log(es))| % 0x1_0000_0000_0000_0000, [0] + Forwarded(p))] else []
  {
    hide Run, Log, StateAfter, HandedIds, Ready, SinceStart, Forwardable, Forwarded;
    LiveFlags(es);
  }

  /** A timer starts the noise burst exactly when the log shows the connection ready and no burst on it yet. */
  lemma BurstIff(es: seq<Event>, noise: seq<seq<byte>>)
    requires Run(es) && Enabled(StateAfter(es), Timer(noise))
    ensures var x := Observed(StateAfter(es), Timer(noise));
      && (Ready(Log(es), |Log(es)|) && !SinceStart(Log(es), TheBurst) <==> |x| > 0)
      && (|x| > 0 ==> x[0] == Burst)
  {
    hide Run, Log, StateAfter, HandedIds, Ready, SinceStart, PacketsObs;
    LiveFlags(es);
  }

  lemma CountersIncreaseIff(ids: seq<uint64>)
    requires forall k :: 0 <= k < |ids| ==> ids[k] == k % 0x1_0000_0000_0000_0000
    ensures (forall i, j :: 0 <= i < j < |ids| ==> ids[i] < ids[j]) <==> |ids| <= 0x1_0000_0000_0000_0000
  {
    if |ids| > 0x1_0000_0000_0000_0000 {
      assert ids[0] == 0 && ids[0x1_0000_0000_0000_0000] == 0;
    } else {
      assert forall k :: 0 <= k < |ids| ==> ids[k] == k;
    }
  }

  /** Datagram ids strictly increase, across reconnects too, as long as no more than 2^64 datagrams are sent. */
  lemma IdsNeverReused(es: seq<Event>)
    requires Run(es)
    ensures var ids := HandedIds(Log(es));
      (forall i, j :: 0 <= i < j < |ids| ==> ids[i] < ids[j]) <==> |ids| <= 0x1_0000_0000_0000_0000
  {
    RunIsSafe(es);
    hide Run, Log, HandedIds, OncePerConnection, Ready, Reflects;
    CountersIncreaseIff(HandedIds(Log(es)));
  }

  // ---- runs that send ----

  lemma OneMore(es: seq<Event>, e: Event)
    ensures Run(es + [e]) <==> Run(es) && Enabled(StateAfter(es), e)
    ensures StateAfter(es + [e]) == Next(StateAfter(es), e)
    ensures Log(es + [e]) == Log(es) + Observed(StateAfter(es), e)
  {
    assert (es + [e])[..|es|] == es;
  }

  /** A connection is set up and submits CONNECT, and a 200 status and the end of the headers come back. */
  function Opening(): seq<Event> {
    [Start(SetUp)] + [StreamsAvailable(Submitted)] + [Header(true, "200")] + [EndOfHeaders]
  }

  lemma FirstStart()
    ensures var es := [Start(SetUp)];
      Run(es) && Log(es) == [Started] && StateAfter(es) == INITIAL.(conn := true, live := true)
  {
    assert [Start(SetUp)][..0] == [];
  }

  lemma GateOpens()
    ensures Run(Opening()) && StateAfter(Opening()).tunnelReady && StateAfter(Opening()).live
    ensures Log(Opening()) == [Started, ConnectSubmitted, Status200, HeadersEnded]
  {
    hide Run, StateAfter, Log;
    FirstStart();
    var s := INITIAL.(conn := true, live := true);
    var e1, e2 := StreamsAvailable(Submitted), Header(true, "200");
    assert Next(s, e1) == s.(httpConn := true) && Observed(s, e1) == [ConnectSubmitted];
    var s1 := s.(httpConn := true);
    assert Next(s1, e2) == s1.(connected := true) && Observed(s1, e2) == [Status200];
    OneMore([Start(SetUp)], e1);
    OneMore([Start(SetUp)] + [e1], e2);
    OneMore([Start(SetUp)] + [e1] + [e2], EndOfHeaders);
  }

  /** The gate opens, and the same packet is sent `n` times. */
  function Sending(p: seq<byte>, n: nat): seq<Event> {
    if n == 0 then Opening() else Sending(p, n - 1) + [Packet(p)]
  }

  /** Any number of datagrams can be handed over. */
  lemma {:induction false} SendingHands(p: seq<byte>, n: nat)
    requires Forwardable(p) && |p| <= 1499
    ensures Run(Sending(p, n)) && StateAfter(Sending(p, n)).live && StateAfter(Sending(p, n)).tunnelReady
    ensures |HandedIds(Log(Sending(p, n)))| == n
  {
    hide Run, StateAfter, Log, HandedIds, Forwardable;
    if n == 0 {
      GateOpens();
      NoneHanded([Started, ConnectSubmitted, Status200, HeadersEnded]);
    } else {
      SendingHands(p, n - 1);
      SendOne(Sending(p, n - 1), p);
    }
  }

  lemma SendOne(es: seq<Event>, p: seq<byte>)
    requires Run(es) && StateAfter(es).live && StateAfter(es).tunnelReady && Forwardable(p) && |p| <= 1499
    ensures var r := es + [Packet(p)];
      && Run(r) && StateAfter(r).live && StateAfter(r).tunnelReady
      && |HandedIds(Log(r))| == |HandedIds(Log(es))| + 1
  {
    hide Run, StateAfter, Log, HandedIds, Forwarded, Forwardable;
    var s := StateAfter(es);
    assert s.conn by { LiveFlags(es); }
    OneMore(es, Packet(p));
    HandedIdsAppend(Log(es), Handed(s.datagramId, [0] + Forwarded(p)));
  }

  lemma {:induction false} NoneHanded(log: seq<Obs>)
    requires forall x :: x in log ==> !x.Handed?
    ensures HandedIds(log) == []
    decreases |log|
  {
    if |log| > 0 {
      NoneHanded(log[..|log| - 1]);
    }
  }

  /** After 2^64 datagrams the counter starts again, and the first id is used twice. */
  lemma IdsRepeat(p: seq<byte>)
    requires Forwardable(p) && |p| <= 1499
    ensures var es := Sending(p, 0x1_0000_0000_0000_0001);
      var ids := HandedIds(Log(es));
      Run(es) && |ids| == 0x1_0000_0000_0000_0001 && ids[0] == ids[0x1_0000_0000_0000_0000] == 0
  {
    var es := Sending(p, 0x1_0000_0000_0000_0001);
    SendingHands(p, 0x1_0000_0000_0000_0001);
    RunIsSafe(es);
    hide Sending, Run, Log, HandedIds, OncePerConnection, OnlyWhenReady, Reflects;
  }

  // ---- the flags, over the events ----

  /** Event `s` set up the connection that the run is still in. */
  predicate OpenSince(es: seq<Event>, s: int) {
    0 <= s < |es| && es[s] == Start(SetUp) && forall k :: s < k < |es| ==> !es[k].Start? && !es[k].Finish?
  }

  /** A status header whose value starts with the characters 2, 0 and 0. */
  predicate SaysOk(e: Event) {
    e.Header? && e.isStatus && |e.value| >= 3 && e.value[0] == '2' && e.value[1] == '0' && e.value[2] == '0'
  }

  ghost predicate LiveByEvents(es: seq<Event>) {
    exists s :: OpenSince(es, s)
  }

  ghost predicate ConnectedByEvents(es: seq<Event>) {
    exists s, a :: OpenSince(es, s) && 0 <= s < a < |es| && SaysOk(es[a])
  }

  ghost predicate ReadyByEvents(es: seq<Event>) {
    exists s, a, b :: OpenSince(es, s) && 0 <= s < a < b < |es| && SaysOk(es[a]) && es[b] == EndOfHeaders
  }

  ghost predicate Http3ByEvents(es: seq<Event>) {
    exists s, a :: OpenSince(es, s) && 0 <= s < a < |es| && es[a].StreamsAvailable? && es[a].outcome != Http3Failed
  }

  ghost predicate HandshakeByEvents(es: seq<Event>) {
    exists s, a :: OpenSince(es, s) && 0 <= s < a < |es| && es[a] == HandshakeCompleted
  }

  lemma OpenAppend(es: seq<Event>, e: Event, s: int)
    ensures OpenSince(es + [e], s) <==>
      (s == |es| && e == Start(SetUp)) || (OpenSince(es, s) && !e.Start? && !e.Finish?)
  {
    var r := es + [e];
    assert r[|es|] == e && forall k :: 0 <= k < |es| ==> r[k] == es[k];
  }

  lemma LiveAppend(es: seq<Event>, e: Event)
    ensures LiveByEvents(es + [e]) <==> e == Start(SetUp) || (LiveByEvents(es) && !e.Start? && !e.Finish?)
  {
    hide OpenSince;
    forall s ensures OpenSince(es + [e], s) <==>
      (s == |es| && e == Start(SetUp)) || (OpenSince(es, s) && !e.Start? && !e.Finish?)
    {
      OpenAppend(es, e, s);
    }
    if e == Start(SetUp) {
      assert OpenSince(es + [e], |es|);
    }
  }

  lemma OpenBelow(es: seq<Event>, s: int)
    requires OpenSince(es, s)
    ensures 0 <= s < |es|
  {
  }

  lemma ConnectedAppend(es: seq<Event>, e: Event)
    ensures ConnectedByEvents(es + [e]) <==>
      !e.Start? && !e.Finish? && (ConnectedByEvents(es) || (LiveByEvents(es) && SaysOk(e)))
  {
    hide OpenSince, SaysOk;
    var n, r := |es|, es + [e];
    if !e.Start? && !e.Finish? && ConnectedByEvents(es) {
      var s, a :| OpenSince(es, s) && 0 <= s < a < n && SaysOk(es[a]);
      OpenAppend(es, e, s);
      assert SaysOk(r[a]);
    }
    if !e.Start? && !e.Finish? && LiveByEvents(es) && SaysOk(e) {
      var s :| OpenSince(es, s);
      OpenAppend(es, e, s);
      OpenBelow(es, s);
      assert SaysOk(r[n]);
    }
    if ConnectedByEvents(r) {
      var s, a :| OpenSince(r, s) && 0 <= s < a < n + 1 && SaysOk(r[a]);
      OpenAppend(es, e, s);
      if a < n {
        assert SaysOk(es[a]);
      }
    }
  }

  lemma ReadyByAppend(es: seq<Event>, e: Event)
    ensures ReadyByEvents(es + [e]) <==>
      !e.Start? && !e.Finish? && (ReadyByEvents(es) || (ConnectedByEvents(es) && e == EndOfHeaders))
  {
    hide OpenSince, SaysOk;
    var n, r := |es|, es + [e];
    if !e.Start? && !e.Finish? && ReadyByEvents(es) {
      var s, a, b :| OpenSince(es, s) && 0 <= s < a < b < n && SaysOk(es[a]) && es[b] == EndOfHeaders;
      OpenAppend(es, e, s);
      assert SaysOk(r[a]) && r[b] == EndOfHeaders;
    }
    if e == EndOfHeaders && ConnectedByEvents(es) {
      var s, a :| OpenSince(es, s) && 0 <= s < a < n && SaysOk(es[a]);
      OpenAppend(es, e, s);
      assert SaysOk(r[a]) && r[n] == EndOfHeaders;
    }
    if ReadyByEvents(r) {
      var s, a, b :| OpenSince(r, s) && 0 <= s < a < b < n + 1 && SaysOk(r[a]) && r[b] == EndOfHeaders;
      OpenAppend(es, e, s);
      assert SaysOk(es[a]);
      if b < n {
        assert es[b] == EndOfHeaders;
      }
    }
  }

  lemma Http3Append(es: seq<Event>, e: Event)
    ensures Http3ByEvents(es + [e]) <==>
      && !e.Start? && !e.Finish?
      && (Http3ByEvents(es) || (LiveByEvents(es) && e.StreamsAvailable? && e.outcome != Http3Failed))
  {
    hide OpenSince;
    var n, r := |es|, es + [e];
    if !e.Start? && !e.Finish? && Http3ByEvents(es) {
      var s, a :| OpenSince(es, s) && 0 <= s < a < n && es[a].StreamsAvailable? && es[a].outcome != Http3Failed;
      OpenAppend(es, e, s);
      assert r[a] == es[a];
    }
    if LiveByEvents(es) && e.StreamsAvailable? && e.outcome != Http3Failed {
      var s :| OpenSince(es, s);
      OpenAppend(es, e, s);
      OpenBelow(es, s);
      assert r[n] == e;
    }
    if Http3ByEvents(r) {
      var s, a :| OpenSince(r, s) && 0 <= s < a < n + 1 && r[a].StreamsAvailable? && r[a].outcome != Http3Failed;
      OpenAppend(es, e, s);
      if a < n {
        assert es[a] == r[a];
      }
    }
  }

  lemma HandshakeAppend(es: seq<Event>, e: Event)
    ensures HandshakeByEvents(es + [e]) <==>
      && !e.Start? && !e.Finish?
      && (HandshakeByEvents(es) || (LiveByEvents(es) && e == HandshakeCompleted))
  {
    hide OpenSince;
    var n, r := |es|, es + [e];
    if !e.Start? && !e.Finish? && HandshakeByEvents(es) {
      var s, a :| OpenSince(es, s) && 0 <= s < a < n && es[a] == HandshakeCompleted;
      OpenAppend(es, e, s);
      assert r[a] == es[a];
    }
    if LiveByEvents(es) && e == HandshakeCompleted {
      var s :| OpenSince(es, s);
      OpenAppend(es, e, s);
      OpenBelow(es, s);
      assert r[n] == e;
    }
    if HandshakeByEvents(r) {
      var s, a :| OpenSince(r, s) && 0 <= s < a < n + 1 && r[a] == HandshakeCompleted;
      OpenAppend(es, e, s);
      if a < n {
        assert es[a] == r[a];
      }
    }
  }

  /** The flags say exactly what the events of the current connection show. */
  ghost predicate FlagsMatch(s: State, es: seq<Event>) {
    && (s.live <==> LiveByEvents(es))
    && (s.connected <==> ConnectedByEvents(es))
    && (s.tunnelReady <==> ReadyByEvents(es))
    && (s.httpConn <==> Http3ByEvents(es))
    && (s.handshakeDone <==> HandshakeByEvents(es))
    && (!s.live ==> !s.connected && !s.tunnelReady && !s.httpConn && !s.handshakeDone)
  }

  lemma PacketsKeepFlags(s: State, ps: seq<seq<byte>>)
    ensures var r := AfterPackets(s, ps);
      && r.live == s.live && r.connected == s.connected && r.tunnelReady == s.tunnelReady && r.httpConn == s.httpConn
      && r.conn == s.conn && r.handshakeDone == s.handshakeDone
    decreases |ps|
  {
    hide Forwardable;
    if |ps| > 0 {
      PacketsKeepFlags(s, ps[..|ps| - 1]);
    }
  }

  lemma HeaderSaysOk(isStatus: bool, value: string)
    ensures IsStatus200(isStatus, value) <==> SaysOk(Header(isStatus, value))
  {
    if |value| >= 3 {
      assert value[..3] == [value[0], value[1], value[2]];
    }
  }

  lemma FlagsStep(s: State, es: seq<Event>, e: Event)
    requires FlagsMatch(s, es) && Enabled(s, e)
    ensures FlagsMatch(Next(s, e), es + [e])
  {
    hide LiveByEvents, ConnectedByEvents, ReadyByEvents, Http3ByEvents, HandshakeByEvents, SaysOk, IsStatus200,
         AfterPackets, Sends;
    LiveAppend(es, e);
    ConnectedAppend(es, e);
    ReadyByAppend(es, e);
    Http3Append(es, e);
    HandshakeAppend(es, e);
    if e.Header? {
      HeaderSaysOk(e.isStatus, e.value);
    } else {
      assert !SaysOk(e) by { NotAHeader(e); }
    }
    if e.Timer? {
      PacketsKeepFlags(s.(postNoiseSent := true), e.noise);
    }
  }

  lemma NotAHeader(e: Event)
    requires !e.Header?
    ensures !SaysOk(e)
  {
  }

  /**
   The gate over whole runs, told by the events alone: it is open exactly when the current connection, set up
   and not cleaned up since, has received a status header that starts with 200 and, later, an end of headers.
   */
  lemma {:induction false} OpenExactlyAfterOk(es: seq<Event>)
    requires Run(es)
    ensures StateAfter(es).tunnelReady <==>
      exists s, a, b :: OpenSince(es, s) && 0 <= s < a < b < |es| && SaysOk(es[a]) && es[b] == EndOfHeaders
    ensures FlagsMatch(StateAfter(es), es)
    decreases |es|
  {
    hide FlagsMatch;
    if |es| == 0 {
      NoFlags();
    } else {
      var front, e := es[..|es| - 1], es[|es| - 1];
      OpenExactlyAfterOk(front);
      FlagsStep(StateAfter(front), front, e);
      assert es == front + [e];
    }
    FlagsReady(StateAfter(es), es);
  }

  lemma NoFlags()
    ensures FlagsMatch(INITIAL, [])
  {
  }

  lemma FlagsReady(s: State, es: seq<Event>)
    requires FlagsMatch(s, es)
    ensures s.tunnelReady <==> ReadyByEvents(es)
  {
  }

  /** What each way an attempt can go, and a cleanup, leave of the flags. */
  lemma StartAndFinish(s: State)
    ensures AfterStart(s, NoDevice) == AfterStart(s, NoConnection) == s
    ensures AfterStart(s, NoSession) == s.(conn := true)
    ensures AfterStart(s, SetUp) == s.(live := true, conn := true, postNoiseSent := false)
    ensures AfterFinish(s) == State(false, false, false, false, false, false, s.datagramId, s.postNoiseSent)
  {
  }

  /** The first characters of a status decide: with any other than 2, 0 and 0 nothing is handed to QUIC. */
  lemma OtherStatusStaysClosed(value: string, p: seq<byte>)
    requires |value| < 3 || value[0] != '2' || value[1] != '0' || value[2] != '0'
    ensures var es := [Start(SetUp)] + [StreamsAvailable(Submitted)] + [Header(true, value)] + [EndOfHeaders];
      Run(es) && !StateAfter(es).tunnelReady && Observed(StateAfter(es), Packet(p)) == []
  {
    hide Run, StateAfter, Log;
    FirstStart();
    HeaderSaysOk(true, value);
    var s := INITIAL.(conn := true, live := true);
    var e1, e2 := StreamsAvailable(Submitted), Header(true, value);
    assert Next(s, e1) == s.(httpConn := true);
    OneMore([Start(SetUp)], e1);
    OneMore([Start(SetUp)] + [e1], e2);
    OneMore([Start(SetUp)] + [e1] + [e2], EndOfHeaders);
  }
}
