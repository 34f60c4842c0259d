/** Delivery of packets to the sessions of a streamer (src/CStreamer.cpp:100-119), on values. */
module FanOut {
  import opened Bytes
  import opened Rtp
  import opened RtspReplies
  import opened Sequences
  import Units
  import opened Wrappers

  /** What rtpSendData looks at in a session. */
  datatype Client = Client(socket: nat, streaming: bool, stopped: bool, tcp: bool, rtpPort: nat)
  {
    predicate Active() { streaming && !stopped }
  }

  /** The socket calls, in order: media written to a TCP socket, a datagram from the RTP socket to the peer of a
      session's socket at the session's RTP port, or a reply written to a TCP socket. */
  datatype Sent =
    | TcpSend(socket: nat, bytes: seq<byte>)
    | UdpSend(source: nat, peerOf: nat, port: nat, bytes: seq<byte>)
    | ReplySend(socket: nat, reply: Reply, words: PlainWords)

  function Deliver(c: Client, source: nat, p: Packet): seq<Sent>
    requires p.Fits()
  {
    if !c.Active() then []
    else if c.tcp then [TcpSend(c.socket, Frame(p))]
    else [UdpSend(source, c.socket, c.rtpPort, Datagram(p))]
  }

  function DeliverAll(cs: seq<Client>, source: nat, p: Packet): seq<Sent>
    requires p.Fits()
  {
    if cs == [] then [] else Deliver(cs[0], source, p) + DeliverAll(cs[1..], source, p)
  }

  lemma {:induction false} DeliverNone(cs: seq<Client>, source: nat, p: Packet)
    requires p.Fits()
    ensures DeliverAll(cs[..0], source, p) == []
  {
  }

  lemma {:induction false} DeliverNext(cs: seq<Client>, i: nat, source: nat, p: Packet)
    requires p.Fits() && i < |cs|
    ensures DeliverAll(cs[..i + 1], source, p) == DeliverAll(cs[..i], source, p) + Deliver(cs[i], source, p)
  {
    hide Deliver;
    assert cs[..i + 1] == cs[..i] + [cs[i]];
    DeliverAppend(cs[..i], [cs[i]], source, p);
    assert [cs[i]][1..] == [];
  }

  /** One packet with the sessions that existed, and the RTP socket, when it was sent. */
  datatype Round = Round(clients: seq<Client>, source: nat, packet: Packet)

  predicate RoundsFit(rs: seq<Round>) {
    forall r <- rs :: r.packet.Fits()
  }

  function Log(rs: seq<Round>): seq<Sent>
    requires RoundsFit(rs)
  {
    if rs == [] then [] else DeliverAll(rs[0].clients, rs[0].source, rs[0].packet) + Log(rs[1..])
  }

  /** Rounds that share sessions and socket. */
  function SameClients(cs: seq<Client>, source: nat, ps: seq<Packet>): (rs: seq<Round>)
    ensures |rs| == |ps|
    ensures forall i :: 0 <= i < |ps| ==> rs[i] == Round(cs, source, ps[i])
  {
    seq(|ps|, i requires 0 <= i < |ps| => Round(cs, source, ps[i]))
  }

  function PacketsOf(rs: seq<Round>): (ps: seq<Packet>)
    requires RoundsFit(rs)
    ensures |ps| == |rs| && forall i :: 0 <= i < |rs| ==> ps[i] == rs[i].packet
    ensures AllFit(ps)
  {
    if rs == [] then [] else [rs[0].packet] + PacketsOf(rs[1..])
  }

  lemma {:induction false} LogAppend(rs: seq<Round>, qs: seq<Round>)
    requires RoundsFit(rs) && RoundsFit(qs)
    ensures RoundsFit(rs + qs) && Log(rs + qs) == Log(rs) + Log(qs)
  {
    hide DeliverAll;
    if rs == [] {
      assert rs + qs == qs;
    } else {
      assert rs[0] in rs && forall r <- rs[1..] :: r in rs;
      LogAppend(rs[1..], qs);
      HeadTail(rs, qs);
      Associative(DeliverAll(rs[0].clients, rs[0].source, rs[0].packet), Log(rs[1..]), Log(qs));
    }
  }

  lemma {:induction false} DeliverAppend(cs: seq<Client>, ds: seq<Client>, source: nat, p: Packet)
    requires p.Fits()
    ensures DeliverAll(cs + ds, source, p) == DeliverAll(cs, source, p) + DeliverAll(ds, source, p)
  {
    hide Deliver;
    if cs == [] {
      assert cs + ds == ds;
    } else {
      DeliverAppend(cs[1..], ds, source, p);
      HeadTail(cs, ds);
      Associative(Deliver(cs[0], source, p), DeliverAll(cs[1..], source, p), DeliverAll(ds, source, p));
    }
  }

  /** Payloads sent unmarked, one packet each, to the same sessions. */
  function Broadcast(cs: seq<Client>, source: nat, seqno: nat, timestamp: nat, ssrc: nat, payloads: seq<seq<byte>>)
    : seq<Sent>
    requires timestamp < 0x1_0000_0000 && ssrc < 0x1_0000_0000 && forall p <- payloads :: |p| <= Units.MAX
  {
    Log(SameClients(cs, source, Plain(seqno, timestamp, ssrc, payloads)))
  }

  function Plain(seqno: nat, timestamp: nat, ssrc: nat, payloads: seq<seq<byte>>): (ps: seq<Packet>)
    ensures |ps| == |payloads|
    ensures forall k :: 0 <= k < |ps| ==>
      ps[k] == Packet(false, (seqno + k) % 0x1_0000, timestamp, ssrc, payloads[k])
  {
    Numbered(seqno, timestamp, ssrc, seq(|payloads|, k requires 0 <= k < |payloads| => Outgoing(payloads[k], false)))
  }

  lemma PlainAppend(seqno: nat, timestamp: nat, ssrc: nat, payloads: seq<seq<byte>>, more: seq<seq<byte>>)
    ensures Plain(seqno, timestamp, ssrc, payloads + more)
      == Plain(seqno, timestamp, ssrc, payloads) + Plain((seqno + |payloads|) % 0x1_0000, timestamp, ssrc, more)
  {
    var all, a := Plain(seqno, timestamp, ssrc, payloads + more), Plain(seqno, timestamp, ssrc, payloads);
    var b := Plain((seqno + |payloads|) % 0x1_0000, timestamp, ssrc, more);
    hide Plain;
    forall i | 0 <= i < |all| ensures all[i] == (a + b)[i] {
      if i >= |payloads| { ModAdd(seqno + |payloads|, i - |payloads|); }
    }
  }

  lemma BroadcastNothing(cs: seq<Client>, source: nat, seqno: nat, timestamp: nat, ssrc: nat)
    requires timestamp < 0x1_0000_0000 && ssrc < 0x1_0000_0000
    ensures Broadcast(cs, source, seqno, timestamp, ssrc, []) == []
  {
  }

  lemma {:induction false} BroadcastOne(cs: seq<Client>, source: nat, seqno: nat, timestamp: nat, ssrc: nat,
                                        payloads: seq<seq<byte>>, payload: seq<byte>)
    requires timestamp < 0x1_0000_0000 && ssrc < 0x1_0000_0000
    requires |payload| <= Units.MAX && forall p <- payloads :: |p| <= Units.MAX
    ensures forall p <- payloads + [payload] :: |p| <= Units.MAX
    ensures Broadcast(cs, source, seqno, timestamp, ssrc, payloads + [payload])
      == Broadcast(cs, source, seqno, timestamp, ssrc, payloads)
        + DeliverAll(cs, source, Packet(false, (seqno + |payloads|) % 0x1_0000, timestamp, ssrc, payload))
  {
    hide DeliverAll, Plain, Log, SameClients;
    var p := Packet(false, (seqno + |payloads|) % 0x1_0000, timestamp, ssrc, payload);
    var ps := Plain(seqno, timestamp, ssrc, payloads);
    var rs, r := SameClients(cs, source, ps), Round(cs, source, p);
    PlainAppend(seqno, timestamp, ssrc, payloads, [payload]);
    assert Plain((seqno + |payloads|) % 0x1_0000, timestamp, ssrc, [payload]) == [p];
    SameClientsOne(cs, source, ps, p);
    LogAppend(rs, [r]);
    LogOne(r);
  }

  lemma SameClientsOne(cs: seq<Client>, source: nat, ps: seq<Packet>, p: Packet)
    ensures SameClients(cs, source, ps + [p]) == SameClients(cs, source, ps) + [Round(cs, source, p)]
  {
  }

  lemma LogOne(r: Round)
    requires r.packet.Fits()
    ensures Log([r]) == DeliverAll(r.clients, r.source, r.packet)
  {
    hide DeliverAll;
    assert [r][1..] == [];
  }

  // ----- what arrives at one session

  /** The media written to a TCP socket; the replies that share the connection are left aside. */
  function TcpBytes(log: seq<Sent>, socket: nat): seq<byte> {
    if log == [] then []
    else (if log[0].TcpSend? && log[0].socket == socket then log[0].bytes else []) + TcpBytes(log[1..], socket)
  }

  /** A datagram that reaches a port of the peer of a socket: it leaves from a socket, which it does not if its source
      is 0, and is addressed to that port, which is not 0. Different sockets are taken to have different peers. */
  function Reaching(s: Sent, socket: nat, port: nat): seq<seq<byte>> {
    if s.UdpSend? && s.peerOf == socket && s.source != 0 && s.port == port && port != 0 then [s.bytes] else []
  }

  /** The datagrams that reach this port of the peer of a socket. */
  function UdpTo(log: seq<Sent>, socket: nat, port: nat): seq<seq<byte>> {
    if log == [] then []
    else Reaching(log[0], socket, port) + UdpTo(log[1..], socket, port)
  }

  lemma {:induction false} TcpAppend(a: seq<Sent>, b: seq<Sent>, socket: nat)
    ensures TcpBytes(a + b, socket) == TcpBytes(a, socket) + TcpBytes(b, socket)
  {
    if a == [] {
      assert a + b == b;
    } else {
      TcpAppend(a[1..], b, socket);
      HeadTail(a, b);
      var first := if a[0].TcpSend? && a[0].socket == socket then a[0].bytes else [];
      Associative(first, TcpBytes(a[1..], socket), TcpBytes(b, socket));
    }
  }

  lemma {:induction false} UdpAppend(a: seq<Sent>, b: seq<Sent>, socket: nat, port: nat)
    ensures UdpTo(a + b, socket, port) == UdpTo(a, socket, port) + UdpTo(b, socket, port)
  {
    hide Reaching;
    if a == [] {
      assert a + b == b;
    } else {
      UdpAppend(a[1..], b, socket, port);
      HeadTail(a, b);
      Associative(Reaching(a[0], socket, port), UdpTo(a[1..], socket, port), UdpTo(b, socket, port));
    }
  }

  lemma {:induction false} ViewsAppend(a: seq<Sent>, b: seq<Sent>, socket: nat, port: nat)
    ensures TcpBytes(a + b, socket) == TcpBytes(a, socket) + TcpBytes(b, socket)
    ensures UdpTo(a + b, socket, port) == UdpTo(a, socket, port) + UdpTo(b, socket, port)
  {
    TcpAppend(a, b, socket);
    UdpAppend(a, b, socket, port);
  }

  /** How packets get to the viewer of a session, if they do: over UDP they need a socket to leave from and a port
      that a SETUP has named. */
  datatype Way = Nowhere | OverTcp | OverUdp(port: nat)

  function WayTo(c: Client, source: nat): Way {
    if !c.Active() then Nowhere
    else if c.tcp then OverTcp
    else if source != 0 && c.rtpPort != 0 then OverUdp(c.rtpPort)
    else Nowhere
  }

  /** A session that does not stream, or is stopped, is sent nothing at all. */
  lemma Silent(c: Client, source: nat, p: Packet)
    requires p.Fits() && (!c.streaming || c.stopped)
    ensures Deliver(c, source, p) == []
  {
  }

  predicate DistinctSockets(cs: seq<Client>) {
    forall i, j :: 0 <= i < j < |cs| ==> cs[i].socket != cs[j].socket
  }

  lemma {:induction false} DeliverOne(c: Client, source: nat, p: Packet, socket: nat, port: nat)
    requires p.Fits()
    ensures var log := Deliver(c, source, p);
      && TcpBytes(log, socket) == (if c.socket == socket && WayTo(c, source) == OverTcp then Frame(p) else [])
      && UdpTo(log, socket, port)
        == (if c.socket == socket && WayTo(c, source) == OverUdp(port) then [Datagram(p)] else [])
  {
    hide Frame, Datagram;
    var log := Deliver(c, source, p);
    if log != [] { assert log[1..] == []; }
  }

  lemma {:induction false} DeliverElsewhere(cs: seq<Client>, source: nat, p: Packet, socket: nat, port: nat)
    requires p.Fits() && forall c <- cs :: c.socket != socket
    ensures TcpBytes(DeliverAll(cs, source, p), socket) == [] && UdpTo(DeliverAll(cs, source, p), socket, port) == []
  {
    hide Deliver;
    if cs != [] {
      DeliverElsewhere(cs[1..], source, p, socket, port);
      DeliverOne(cs[0], source, p, socket, port);
      ViewsAppend(Deliver(cs[0], source, p), DeliverAll(cs[1..], source, p), socket, port);
    }
  }

  /** One packet, seen from the k-th session. */
  lemma {:induction false} DeliverAt(cs: seq<Client>, k: nat, source: nat, p: Packet, port: nat)
    requires p.Fits() && k < |cs| && DistinctSockets(cs)
    ensures var log, c := DeliverAll(cs, source, p), cs[k];
      && TcpBytes(log, c.socket) == (if WayTo(c, source) == OverTcp then Frame(p) else [])
      && UdpTo(log, c.socket, port) == (if WayTo(c, source) == OverUdp(port) then [Datagram(p)] else [])
  {
    hide Deliver, WayTo;
    hide Frame, Datagram, TcpBytes, UdpTo;
    var s, tail := cs[k].socket, cs[1..];
    DeliverOne(cs[0], source, p, s, port);
    if k == 0 {
      DeliverElsewhere(tail, source, p, s, port);
    } else {
      DeliverAt(tail, k - 1, source, p, port);
    }
    ViewsAppend(Deliver(cs[0], source, p), DeliverAll(tail, source, p), s, port);
  }

  /** In every round some session uses this socket, no other one does, and packets get to its viewer in this way. */
  ghost predicate Throughout(rs: seq<Round>, socket: nat, way: Way) {
    forall r <- rs :: DistinctSockets(r.clients) &&
      exists c <- r.clients :: c.socket == socket && WayTo(c, r.source) == way
  }

  lemma {:induction false} LogViews(rs: seq<Round>, socket: nat, way: Way, port: nat)
    requires RoundsFit(rs) && Throughout(rs, socket, way)
    ensures TcpBytes(Log(rs), socket) == if way == OverTcp then Frames(PacketsOf(rs)) else []
    ensures UdpTo(Log(rs), socket, port) == if way == OverUdp(port) then Datagrams(PacketsOf(rs)) else []
  {
    hide Frame, Datagram, DeliverAll, WayTo;
    if rs != [] {
      var r := rs[0];
      LogViews(rs[1..], socket, way, port);
      var c :| c in r.clients && c.socket == socket && WayTo(c, r.source) == way;
      var k :| 0 <= k < |r.clients| && r.clients[k] == c;
      DeliverAt(r.clients, k, r.source, r.packet, port);
      ViewsAppend(DeliverAll(r.clients, r.source, r.packet), Log(rs[1..]), socket, port);
      assert PacketsOf(rs)[1..] == PacketsOf(rs[1..]);
    }
  }

  /** Two sessions active throughout, one over TCP and one over UDP: the first reads every packet off its
      byte stream, and the datagrams that reach the other's port are those packets without the 4-byte prefix. */
  lemma {:induction false} FanOutAgrees(rs: seq<Round>, tcpSocket: nat, udpSocket: nat, port: nat)
    requires RoundsFit(rs) && Throughout(rs, tcpSocket, OverTcp) && Throughout(rs, udpSocket, OverUdp(port))
    ensures ReadFrames(TcpBytes(Log(rs), tcpSocket)) == Some(PacketsOf(rs))
    ensures UdpTo(Log(rs), udpSocket, port) == Datagrams(PacketsOf(rs))
    ensures TcpBytes(Log(rs), udpSocket) == [] && UdpTo(Log(rs), tcpSocket, port) == []
  {
    LogViews(rs, tcpSocket, OverTcp, port);
    LogViews(rs, udpSocket, OverUdp(port), port);
    FramesRoundTrip(PacketsOf(rs));
  }

  /** A session that is inactive, or over UDP without a socket to send from or a port to send to, gets nothing. */
  lemma {:induction false} InactiveGetsNothing(rs: seq<Round>, socket: nat, port: nat)
    requires RoundsFit(rs) && Throughout(rs, socket, Nowhere)
    ensures TcpBytes(Log(rs), socket) == [] && UdpTo(Log(rs), socket, port) == []
  {
    LogViews(rs, socket, Nowhere, port);
  }
}
