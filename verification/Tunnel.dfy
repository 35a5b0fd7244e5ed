/** The tunnel object: the flags of tunnel.cpp, quic_engine.cpp and http3_connect.cpp and the packet path over them. */
module Tunnel {
  import opened Bytes
  import opened ConnectIp
  import opened DnsHijack
  import opened Gate
  import IpHeader
  import Varint

  const INVALID_STATE: int := -1000  // stands for NGTCP2_ERR_INVALID_STATE

  /** `usque_tunnel`, with its embedded `QuicEngine` and `Http3Connect`; pointers are kept as "is set" flags. */
  class UsqueTunnel {
    var hijack: Hijack?
    var postNoiseSent: bool
    // QuicEngine
    var conn: bool
    var handshakeDone: bool
    var tunnelReady: bool
    var datagramId: uint64
    // Http3Connect
    var httpConn: bool
    var connectStreamId: int
    var connected: bool
    /** The event loop of a set-up connection is running. */
    ghost var live: bool

    ghost function View(): State
      reads this
    {
      State(live, conn, httpConn, connected, handshakeDone, tunnelReady, datagramId, postNoiseSent)
    }

    ghost predicate Valid()
      reads this, hijack
    {
      hijack != null ==> hijack.Valid()
    }

    /** `usque_tunnel_new` clears the whole object, the stream id included. */
    constructor ()
      ensures Valid() && View() == INITIAL && hijack == null && connectStreamId == 0
    {
      hijack := null;
      postNoiseSent, conn, handshakeDone, tunnelReady, datagramId := false, false, false, false, 0;
      httpConn, connectStreamId, connected := false, 0, false;
      live := false;
    }

    /** Steps 1, 2, 7 and 9 of `run_connection`; early exits leave what was already set up. */
    method Connect(dns: Option<uint32>, outcome: SetupOutcome) returns (ok: bool)
      requires !live && Valid()
      modifies this
      ensures ok == (outcome == SetUp)
      ensures View() == AfterStart(old(View()), outcome)
      ensures Valid() && connectStreamId == old(connectStreamId)
      ensures outcome == NoDevice ==> hijack == old(hijack)
      ensures outcome != NoDevice ==>
        && hijack != null && fresh(hijack) && hijack.Table() == []
        && hijack.hijackV4 == if dns.Some? then Be32Bytes(dns.value) else [0, 0, 0, 0]
    {
      if outcome == NoDevice { return false; }
      hijack := new Hijack(dns);
      if outcome == NoConnection { return false; }
      conn := true;
      if outcome == NoSession { return false; }
      postNoiseSent := false;
      live := true;
      return true;
    }

    /** `cb_handshake_completed`. */
    method OnHandshake()
      modifies this`handshakeDone
      ensures View() == Next(old(View()), HandshakeCompleted)
    {
      handshakeDone := true;
    }

    /** `cb_extend_max_local_streams_bidi`: HTTP/3 setup and CONNECT, once per HTTP/3 connection object. */
    method OnStreamsAvailable(outcome: StreamOutcome, streamId: int) returns (ok: bool, submitted: bool)
      modifies this`httpConn, this`connectStreamId
      ensures View() == AfterStreams(old(View()), outcome)
      ensures submitted <==> !old(httpConn) && outcome in {SubmitFailed, Submitted}
      ensures ok <==> old(httpConn) || outcome == Submitted
      ensures connectStreamId == if !old(httpConn) && outcome == Submitted then streamId else old(connectStreamId)
    {
      submitted := false;
      if !httpConn {
        if outcome == Http3Failed { return false, submitted; }
        httpConn := true;
        if outcome == UniStreamFailed || outcome == BidiStreamFailed { return false, submitted; }
        submitted := true;
        if outcome == SubmitFailed { return false, submitted; }
        connectStreamId := streamId;
      }
      return true, submitted;
    }

    /** `h3_recv_header`. */
    method OnHeader(isStatus: bool, value: string)
      modifies this`connected
      ensures View() == AfterHeader(old(View()), isStatus, value)
      ensures connected <==>
        old(connected) || (isStatus && |value| >= 3 && value[0] == '2' && value[1] == '0' && value[2] == '0')
    {
      HeaderSaysOk(isStatus, value);
      if isStatus {
        if |value| >= 3 && value[..3] == "200" {
          connected := true;
        }
      }
    }

    /** `h3_end_headers`. */
    method OnEndOfHeaders()
      modifies this`tunnelReady
      ensures View() == AfterEndOfHeaders(old(View()))
    {
      if connected {
        tunnelReady := true;
      }
    }

    /** `QuicEngine::send_packet`: the caller's packet is copied, so composing never touches it. */
    method SendPacket(ipPkt: array<byte>, pktLen: nat, nwrite: int) returns (rc: int, sent: seq<Obs>)
      requires pktLen <= ipPkt.Length
      modifies this`datagramId
      ensures View() == AfterPacket(old(View()), ipPkt[..pktLen])
      ensures sent == PacketObs(old(View()), ipPkt[..pktLen])
      ensures rc ==
        if !tunnelReady || !conn || pktLen > 1500 then -1
        else if !Forwardable(ipPkt[..pktLen]) then Rejection(ipPkt[..pktLen]).Code()
        else if pktLen + 1 > 1500 then Overflow.Code()
        else if nwrite < 0 && nwrite != INVALID_STATE then -1 else 0
    {
      hide Forwardable, Forwarded, Rejection;
      sent := [];
      if !tunnelReady || !conn { return -1, sent; }
      var dg := new byte[1500](_ => 0);
      var pktCopy := new byte[1500](_ => 0);
      if pktLen > pktCopy.Length { return -1, sent; }
      Append(pktCopy, 0, ipPkt[..pktLen], pktLen);
      assert pktCopy[..pktLen] == ipPkt[..pktLen];
      var status, dgLen := ComposeDatagram(dg, pktCopy, pktLen);
      if status != Ok { return status.Code(), sent; }
      ForwardedEffect(ipPkt[..pktLen]);
      assert dg[..dgLen] == dg[..][..dgLen] == [0] + Forwarded(ipPkt[..pktLen]);
      sent := [Handed(datagramId, dg[..dgLen])];
      datagramId := NextId(datagramId);
      if nwrite < 0 {
        if nwrite == INVALID_STATE { return 0, sent; }
        return -1, sent;
      }
      return 0, sent;
    }

    /** The timer callback of `update_timer` with `inject_post_noise`; `noise` are the packets it builds. */
    method OnTimer(noise: seq<seq<byte>>) returns (sent: seq<Obs>)
      modifies this`postNoiseSent, this`datagramId
      ensures View() == Next(old(View()), Timer(noise))
      ensures sent == Observed(old(View()), Timer(noise))
    {
      hide Forwardable, Forwarded, Rejection, AfterPacket, PacketObs;
      sent := [];
      if tunnelReady && !postNoiseSent {
        postNoiseSent := true;
        sent := [Burst];
        ghost var s := View();
        var i := 0;
        assert noise[..0] == [];
        while i < |noise|
          invariant 0 <= i <= |noise|
          invariant View() == AfterPackets(s, noise[..i])
          invariant sent == [Burst] + PacketsObs(s, noise[..i])
        {
          assert noise[..i + 1][..i] == noise[..i];
          var pkt := new byte[|noise[i]|];
          Memcpy(pkt, 0, noise[i]);
          assert pkt[..|noise[i]|] == noise[i];
          var rc, more := SendPacket(pkt, |noise[i]|, 0);
          sent := sent + more;
          i := i + 1;
        }
        assert noise[..i] == noise;
      }
    }

    /** `QuicEngine::cleanup` and the end of `run_connection`. The datagram id counter is not reset. */
    method Cleanup()
      modifies this
      ensures View() == AfterFinish(old(View()))
      ensures hijack == null && Valid() && connectStreamId == -1
    {
      httpConn, connectStreamId, connected := false, -1, false;
      conn := false;
      handshakeDone := false;
      tunnelReady := false;
      hijack := null;
      live := false;
    }

    /** What leaves towards the tunnel for a packet read from the TUN device. */
    ghost function Outgoing(p: seq<byte>): seq<byte>
      reads this, hijack
    {
      if hijack == null then p else QueryPacket(hijack.hijackV4, p)
    }

    /** `on_tun_read`: rewrite a DNS query in place, then send. */
    method OnTunRead(buf: array<byte>, nread: nat, nwrite: int) returns (rc: int, sent: seq<Obs>)
      requires Valid() && nread <= buf.Length
      modifies this`datagramId, buf, hijack, if hijack == null then {} else {hijack.pending}
      ensures Valid() && hijack == old(hijack)
      ensures View() == AfterPacket(old(View()), old(Outgoing(buf[..nread])))
      ensures sent == PacketObs(old(View()), old(Outgoing(buf[..nread])))
      ensures hijack != null ==>
        hijack.Table() ==
          QueryTable(hijack.hijackV4, old(if hijack == null then [] else hijack.Table()), old(buf[..nread]))
    {
      hide QueryPacket, QueryTable, AfterPacket, PacketObs, Rejection, Forwardable;
      if hijack != null {
        var rewritten := hijack.RewriteQuery(buf, nread);
      }
      rc, sent := SendPacket(buf, nread, nwrite);
    }

    /**
     `cb_recv_datagram` with the receive callback of `run_connection`: parse, copy, restore a DNS answer,
     deliver. Datagrams are at most 65535 octets long, the limit that the transport parameters announce.
     */
    method OnDatagram(d: array<byte>) returns (delivered: Option<seq<byte>>)
      requires Valid() && d.Length <= 65535
      modifies hijack, if hijack == null then {} else {hijack.pending}
      ensures Valid() && hijack == old(hijack)
      ensures delivered.Some? <==> Accepts(d[..])
      ensures delivered.Some? ==>
        var p := d[..][Varint.DecodeVarint(d[..]).value.length..];
        delivered.value ==
          if hijack == null then p
          else ResponsePacket(hijack.hijackV4, old(if hijack == null then [] else hijack.Table()), p)
      ensures hijack != null ==>
        hijack.Table() ==
          if delivered.None? then old(if hijack == null then [] else hijack.Table())
          else ResponseTable(hijack.hijackV4, old(if hijack == null then [] else hijack.Table()),
                             d[..][Varint.DecodeVarint(d[..]).value.length..])
    {
      hide ResponsePacket, ResponseTable, IpHeader.WellFormed, Varint.DecodeVarint;
      var status, offset, len := ParseDatagram(d);
      if status != Ok { return None; }
      var buf := new byte[65536](_ => 0);
      ghost var p := d[..][offset..];
      assert d[offset..] == p;
      Append(buf, 0, d[offset..], len);
      assert buf[..len] == p;
      if hijack != null {
        var rewritten := hijack.RewriteResponse(buf, len);
      }
      return Some(buf[..len]);
    }
  }
}
