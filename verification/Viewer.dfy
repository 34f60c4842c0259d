/** What reaches the viewer of a connection that workerThread serves. */
module Viewer {
  import opened AnnexB
  import opened Bytes
  import opened Connection
  import opened FanOut
  import opened Rtp
  import opened RtpContext
  import opened RtspMessages
  import opened RtspParser
  import opened RtspReplies
  import opened RtspRequest
  import opened RtspSession
  import opened Sequences
  import opened SimStreamer
  import opened Streamer
  import opened UdpTransport
  import opened Units
  import opened Worker
  import opened Wrappers
  import H265

  // ----- the packets a session gets

  /** A unit is sent while packets get to the viewer in the given way. */
  predicate Gets(b: Beat, way: Way) {
    b.nal.Some? && way != Nowhere && WayTo(b.client, b.source) == way
  }

  function UnitPackets(k: Setting, y: Sender, nal: Nal): (ps: seq<Packet>)
    requires k.Fits() && y.Fits()
    ensures Rtp.AllFit(ps)
  {
    H265.SendSmall(k.aggregation, y.pending, nal, false);
    Plain(y.seqno, y.timestamp, k.ssrc, H265.Send(k.aggregation, y.pending, nal, false).packets)
  }

  function GotPackets(k: Setting, y: Sender, b: Beat, way: Way): (ps: seq<Packet>)
    requires k.Fits() && y.Fits()
    ensures Rtp.AllFit(ps)
  {
    if Gets(b, way) then UnitPackets(k, y, b.nal.value) else []
  }

  /** The packets that get there in that way. */
  function PacketsTo(k: Setting, x: Sender, beats: seq<Beat>, way: Way): (ps: seq<Packet>)
    requires k.Fits() && x.Fits()
    ensures Rtp.AllFit(ps)
  {
    if beats == [] then [] else
      var n := |beats| - 1;
      PacketsTo(k, x, beats[..n], way) + GotPackets(k, AfterBeats(k, x, beats[..n]), beats[n], way)
  }

  // ----- the connection

  /** How replies are put: what messages they are. */
  type Say = (Reply, PlainWords) -> Message

  /** They are proper messages, but for the end that some lack. */
  ghost predicate Proper(say: Say) {
    forall r: Reply, w: PlainWords :: PlainReply(r) ==> RtspMessages.Proper(say(r, w), HasEnd(r))
  }

  /** Everything that is written to a TCP socket, replies and media. */
  function Received(log: seq<Sent>, socket: nat, say: Say): seq<byte> {
    if log == [] then [] else WrittenTo(log[0], socket, say) + Received(log[1..], socket, say)
  }

  function WrittenTo(s: Sent, socket: nat, say: Say): seq<byte> {
    match s
    case TcpSend(to, bytes) => if to == socket then bytes else []
    case UdpSend(_, _, _, _) => []
    case ReplySend(to, reply, words) => if to == socket then Text(say(reply, words), HasEnd(reply)) else []
  }

  lemma {:induction false} ReceivedAppend(a: seq<Sent>, b: seq<Sent>, socket: nat, say: Say)
    ensures Received(a + b, socket, say) == Received(a, socket, say) + Received(b, socket, say)
  {
    hide WrittenTo;
    if a == [] {
      assert a + b == b;
    } else {
      ReceivedAppend(a[1..], b, socket, say);
      HeadTail(a, b);
      Associative(WrittenTo(a[0], socket, say), Received(a[1..], socket, say), Received(b, socket, say));
    }
  }

  predicate NoReplies(log: seq<Sent>) {
    forall s <- log :: !s.ReplySend?
  }

  /** Where there are no replies the media is all there is. */
  lemma {:induction false} OnlyMedia(log: seq<Sent>, socket: nat, say: Say)
    requires NoReplies(log)
    ensures Received(log, socket, say) == TcpBytes(log, socket)
  {
    if log != [] {
      assert log[0] in log && forall s <- log[1..] :: s in log;
      OnlyMedia(log[1..], socket, say);
    }
  }

  lemma {:induction false} DeliverNoReplies(cs: seq<Client>, source: nat, p: Packet)
    requires p.Fits()
    ensures NoReplies(DeliverAll(cs, source, p))
  {
    hide Frame, Datagram;
    if cs != [] { DeliverNoReplies(cs[1..], source, p); }
  }

  lemma {:induction false} LogNoReplies(rs: seq<Round>)
    requires RoundsFit(rs)
    ensures NoReplies(Log(rs))
  {
    hide DeliverAll;
    if rs != [] {
      DeliverNoReplies(rs[0].clients, rs[0].source, rs[0].packet);
      LogNoReplies(rs[1..]);
    }
  }

  /** The items a beat puts on the connection: the reply, then the packets. */
  function AnswerTo(b: Beat, say: Say): seq<Item> {
    if b.reply.None? then [] else [Answer(say(b.reply.value, b.words), HasEnd(b.reply.value))]
  }

  function AsMedia(ps: seq<Packet>): (items: seq<Item>)
    ensures |items| == |ps| && forall i :: 0 <= i < |ps| ==> items[i] == Media(ps[i])
  {
    if ps == [] then [] else [Media(ps[0])] + AsMedia(ps[1..])
  }

  function ItemsTo(k: Setting, x: Sender, beats: seq<Beat>, say: Say): seq<Item>
    requires k.Fits() && x.Fits()
  {
    if beats == [] then [] else
      var n := |beats| - 1;
      ItemsTo(k, x, beats[..n], say)
        + (AnswerTo(beats[n], say) + AsMedia(GotPackets(k, AfterBeats(k, x, beats[..n]), beats[n], OverTcp)))
  }

  /** The beats of one session, whose replies say nothing that breaks a line. */
  predicate Served(beats: seq<Beat>, socket: nat) {
    forall b <- beats :: b.client.socket == socket && (b.reply.Some? ==> PlainReply(b.reply.value))
  }

  // ----- one beat

  /** Packets sent to one session, seen from its socket. */
  lemma {:induction false} PacketViews(c: Client, source: nat, ps: seq<Packet>, say: Say, port: nat)
    requires Rtp.AllFit(ps)
    ensures var log := Log(SameClients([c], source, ps));
      && Received(log, c.socket, say) == (if WayTo(c, source) == OverTcp then Frames(ps) else [])
      && UdpTo(log, c.socket, port) == (if WayTo(c, source) == OverUdp(port) then Datagrams(ps) else [])
  {
    hide Frame, Datagram, TcpBytes, UdpTo, Log, Frames, Datagrams, Received;
    var rs := SameClients([c], source, ps);
    forall r <- rs ensures DistinctSockets(r.clients) && c in r.clients {
    }
    LogViews(rs, c.socket, WayTo(c, source), port);
    LogNoReplies(rs);
    OnlyMedia(Log(rs), c.socket, say);
    assert PacketsOf(rs) == ps;
  }

  lemma {:induction false} StreamOfMedia(ps: seq<Packet>)
    requires Rtp.AllFit(ps)
    ensures Connection.AllFit(AsMedia(ps)) && Stream(AsMedia(ps)) == Frames(ps)
  {
    hide Frame;
    if ps != [] {
      StreamOfMedia(ps[1..]);
      assert AsMedia(ps)[1..] == AsMedia(ps[1..]);
    }
  }

  lemma {:induction false} UnitViews(k: Setting, y: Sender, b: Beat, say: Say, port: nat)
    requires k.Fits() && y.Fits() && b.nal.Some?
    ensures var z, s := OneUnit(k, y, b.client, b.source, b.nal.value), b.client.socket;
      && Received(z.wire, s, say) == Received(y.wire, s, say) + Frames(GotPackets(k, y, b, OverTcp))
      && UdpTo(z.wire, s, port) == UdpTo(y.wire, s, port) + Datagrams(GotPackets(k, y, b, OverUdp(port)))
  {
    hide UdpTo, Log, Frames, Datagrams, SameClients, Plain, H265.Send, Received, TcpBytes;
    var ps := UnitPackets(k, y, b.nal.value);
    var log := Log(SameClients([b.client], b.source, ps));
    PacketViews(b.client, b.source, ps, say, port);
    ReceivedAppend(y.wire, log, b.client.socket, say);
    UdpAppend(y.wire, log, b.client.socket, port);
    FramesNone();
  }

  lemma FramesNone()
    ensures Frames([]) == [] && Datagrams([]) == []
  {
  }

  lemma {:induction false} AnswerViews(b: Beat, say: Say, port: nat)
    requires Proper(say) && (b.reply.Some? ==> PlainReply(b.reply.value))
    ensures Connection.AllFit(AnswerTo(b, say))
    ensures var log := ReplySent(b.client.socket, b.reply, b.words);
      Received(log, b.client.socket, say) == Stream(AnswerTo(b, say)) && UdpTo(log, b.client.socket, port) == []
  {
    hide Text, RtspMessages.Proper;
    if b.reply.Some? {
      var log, items := ReplySent(b.client.socket, b.reply, b.words), AnswerTo(b, say);
      assert log[1..] == [] && items[1..] == [];
    }
  }

  lemma {:induction false} StreamAppend(a: seq<Item>, b: seq<Item>)
    requires Connection.AllFit(a) && Connection.AllFit(b)
    ensures Connection.AllFit(a + b) && Stream(a + b) == Stream(a) + Stream(b)
  {
    hide Item.Bytes, Item.Fits;
    if a == [] {
      assert a + b == b;
    } else {
      assert a[0] in a && forall i <- a[1..] :: i in a;
      StreamAppend(a[1..], b);
      HeadTail(a, b);
      Associative(a[0].Bytes(), Stream(a[1..]), Stream(b));
    }
  }

  /** What one beat adds to what is seen. */
  lemma {:induction false} BeatViews(k: Setting, y: Sender, b: Beat, say: Say, port: nat)
    requires k.Fits() && y.Fits() && Proper(say) && (b.reply.Some? ==> PlainReply(b.reply.value))
    ensures var items, s := AnswerTo(b, say) + AsMedia(GotPackets(k, y, b, OverTcp)), b.client.socket;
      && Connection.AllFit(items)
      && Received(OneBeat(k, y, b).wire, s, say) == Received(y.wire, s, say) + Stream(items)
      && UdpTo(OneBeat(k, y, b).wire, s, port)
        == UdpTo(y.wire, s, port) + Datagrams(GotPackets(k, y, b, OverUdp(port)))
  {
    hide UdpTo, Received, Stream, Frames, Datagrams, AnswerTo, AsMedia, ReplySent, OneUnit, Proper, UnitPackets;
    var s := b.client.socket;
    var said := ReplySent(s, b.reply, b.words);
    var z := y.(wire := y.wire + said);
    AnswerViews(b, say, port);
    ReceivedAppend(y.wire, said, s, say);
    UdpAppend(y.wire, said, s, port);
    assert UdpTo(y.wire, s, port) + [] == UdpTo(y.wire, s, port);
    FramesNone();
    var ps := GotPackets(k, y, b, OverTcp);
    StreamOfMedia(ps);
    StreamAppend(AnswerTo(b, say), AsMedia(ps));
    Associative(Received(y.wire, s, say), Stream(AnswerTo(b, say)), Frames(ps));
    if b.nal.Some? {
      UnitViews(k, z, b, say, port);
      SamePackets(k, y, z, b, OverTcp);
      SamePackets(k, y, z, b, OverUdp(port));
    } else {
      assert Received(z.wire, s, say) + [] == Received(z.wire, s, say);
      assert UdpTo(z.wire, s, port) + [] == UdpTo(z.wire, s, port);
    }
  }

  lemma SamePackets(k: Setting, y: Sender, z: Sender, b: Beat, way: Way)
    requires k.Fits() && y.Fits() && z == y.(wire := z.wire)
    ensures GotPackets(k, y, b, way) == GotPackets(k, z, b, way)
  {
    hide H265.Send;
  }

  // ----- the whole run

  /** The byte stream, and the datagrams, at the other end of the session's socket. */
  lemma {:induction false} WireViews(k: Setting, x: Sender, beats: seq<Beat>, socket: nat, say: Say, port: nat)
    requires k.Fits() && x.Fits() && Proper(say) && Served(beats, socket)
    ensures var wire, items := AfterBeats(k, x, beats).wire, ItemsTo(k, x, beats, say);
      && Connection.AllFit(items)
      && Received(wire, socket, say) == Received(x.wire, socket, say) + Stream(items)
      && UdpTo(wire, socket, port) == UdpTo(x.wire, socket, port) + Datagrams(PacketsTo(k, x, beats, OverUdp(port)))
  {
    hide Received, UdpTo, Datagram, OneBeat, GotPackets, AnswerTo, AsMedia, Proper, Item.Fits, Item.Bytes;
    if beats == [] {
      assert Received(x.wire, socket, say) + [] == Received(x.wire, socket, say);
      assert UdpTo(x.wire, socket, port) + [] == UdpTo(x.wire, socket, port);
    } else {
      var n := |beats| - 1;
      var before, b := beats[..n], beats[n];
      assert b in beats && forall c <- before :: c in beats;
      var y := AfterBeats(k, x, before);
      WireViews(k, x, before, socket, say, port);
      BeatViews(k, y, b, say, port);
      assert AfterBeats(k, x, beats) == OneBeat(k, y, b);
      var items, more := ItemsTo(k, x, before, say), AnswerTo(b, say) + AsMedia(GotPackets(k, y, b, OverTcp));
      hide Stream, Datagrams, AfterBeats;
      StreamAppend(items, more);
      Associative(Received(x.wire, socket, say), Stream(items), Stream(more));
      var ps, qs := PacketsTo(k, x, before, OverUdp(port)), GotPackets(k, y, b, OverUdp(port));
      DatagramsAppend(ps, qs);
      Associative(UdpTo(x.wire, socket, port), Datagrams(ps), Datagrams(qs));
    }
  }

  lemma {:induction false} PacketsInAppend(a: seq<Connection.Seen>, b: seq<Connection.Seen>)
    ensures PacketsIn(a + b) == PacketsIn(a) + PacketsIn(b)
  {
    if a == [] {
      assert a + b == b;
    } else {
      PacketsInAppend(a[1..], b);
      HeadTail(a, b);
      Associative(if a[0].Framed? then [a[0].packet] else [], PacketsIn(a[1..]), PacketsIn(b));
    }
  }

  lemma {:induction false} SeenAppend(a: seq<Item>, b: seq<Item>)
    ensures AllSeen(a + b) == AllSeen(a) + AllSeen(b)
  {
    hide SeenAs;
    assert forall i :: 0 <= i < |a + b| ==> AllSeen(a + b)[i] == (AllSeen(a) + AllSeen(b))[i];
  }

  lemma {:induction false} PacketsOfMedia(ps: seq<Packet>)
    ensures PacketsIn(AllSeen(AsMedia(ps))) == ps
  {
    if ps != [] {
      PacketsOfMedia(ps[1..]);
      assert AsMedia(ps)[1..] == AsMedia(ps[1..]);
      assert AllSeen(AsMedia(ps))[1..] == AllSeen(AsMedia(ps[1..]));
    }
  }

  lemma PacketsOfAnswer(b: Beat, say: Say)
    ensures PacketsIn(AllSeen(AnswerTo(b, say))) == []
    ensures AllEnded(AnswerTo(b, say)) <==> (b.reply.Some? ==> !b.reply.value.NotFound?)
  {
    var items := AnswerTo(b, say);
    if b.reply.Some? {
      assert items[1..] == [] && AllSeen(items)[1..] == [] && items[0] in items;
    }
  }

  /** None of the replies is a 404. */
  predicate AllFound(beats: seq<Beat>) {
    forall b <- beats :: b.reply.Some? ==> !b.reply.value.NotFound?
  }

  lemma {:induction false} ItemsSeen(k: Setting, x: Sender, beats: seq<Beat>, say: Say)
    requires k.Fits() && x.Fits()
    ensures PacketsIn(AllSeen(ItemsTo(k, x, beats, say))) == PacketsTo(k, x, beats, OverTcp)
    ensures AllEnded(ItemsTo(k, x, beats, say)) <==> AllFound(beats)
  {
    hide AfterBeats, GotPackets, AnswerTo, AsMedia, AllSeen, PacketsIn;
    if beats == [] {
      assert PacketsIn(AllSeen([])) == [] by { PacketsOfMedia([]); assert AsMedia([]) == []; }
    } else {
      var n := |beats| - 1;
      var before, b := beats[..n], beats[n];
      ItemsSeen(k, x, before, say);
      var ps := GotPackets(k, AfterBeats(k, x, before), b, OverTcp);
      var items, more := AnswerTo(b, say), AsMedia(ps);
      PacketsOfAnswer(b, say);
      PacketsOfMedia(ps);
      SeenAppend(items, more);
      SeenAppend(ItemsTo(k, x, before, say), items + more);
      PacketsInAppend(AllSeen(items), AllSeen(more));
      PacketsInAppend(AllSeen(ItemsTo(k, x, before, say)), AllSeen(items + more));
      assert [] + ps == ps;
      EndedAppend(items, more);
      EndedAppend(ItemsTo(k, x, before, say), items + more);
      assert AllEnded(more);
      assert forall c :: c in beats <==> c in before || c == b;
    }
  }

  lemma EndedAppend(a: seq<Item>, b: seq<Item>)
    ensures AllEnded(a + b) <==> AllEnded(a) && AllEnded(b)
  {
    assert forall i <- a + b :: i in a || i in b;
    assert forall i :: i in a || i in b ==> i in a + b;
  }

  /** What the viewer reads off its connection, or receives as datagrams at a port. */
  function Seen(wire: seq<Sent>, socket: nat, say: Say, way: Way): Option<seq<Packet>> {
    match way
    case OverTcp =>
      (match ReadAll(Received(wire, socket, say))
       case None => None
       case Some(seen) => Some(PacketsIn(seen)))
    case OverUdp(port) => ReadDatagrams(UdpTo(wire, socket, port))
    case Nowhere => Some([])
  }

  lemma {:induction false} ViewsOfNothing(socket: nat, say: Say, port: nat)
    ensures Received([], socket, say) == [] && UdpTo([], socket, port) == []
  {
  }

  /** A viewer that reads its connection gets back every reply and every packet, one by one, if and only if none of
      the replies is a 404; the datagrams that reach a port it gets back in any case. */
  lemma {:induction false} SeenExactly(k: Setting, x: Sender, beats: seq<Beat>, socket: nat, say: Say, port: nat)
    requires k.Fits() && x.Fits() && x.wire == [] && Proper(say) && Served(beats, socket)
    ensures var wire := AfterBeats(k, x, beats).wire;
      && (ReadAll(Received(wire, socket, say)) == Some(AllSeen(ItemsTo(k, x, beats, say))) <==> AllFound(beats))
      && (AllFound(beats) ==> Seen(wire, socket, say, OverTcp) == Some(PacketsTo(k, x, beats, OverTcp)))
      && Seen(wire, socket, say, OverUdp(port)) == Some(PacketsTo(k, x, beats, OverUdp(port)))
  {
    hide PacketsTo, ItemsTo, AfterBeats, Datagrams, ReadDatagrams, Received, UdpTo, Stream, ReadAll, AllSeen, PacketsIn;
    hide Proper, Served, AllFound, AllEnded;
    WireViews(k, x, beats, socket, say, port);
    ViewsOfNothing(socket, say, port);
    var items := ItemsTo(k, x, beats, say);
    assert [] + Stream(items) == Stream(items);
    ReadsBack(items);
    ItemsSeen(k, x, beats, say);
    var ps := PacketsTo(k, x, beats, OverUdp(port));
    assert [] + Datagrams(ps) == Datagrams(ps);
    DatagramsRoundTrip(ps);
  }

  // ----- from a turn on

  function Payloads(ps: seq<Packet>): (ds: seq<seq<byte>>)
    ensures |ds| == |ps| && forall i :: 0 <= i < |ps| ==> ds[i] == ps[i].payload
  {
    seq(|ps|, i requires 0 <= i < |ps| => ps[i].payload)
  }

  /** Units sent without the flag. */
  function Unmarked(nals: seq<Nal>): (calls: seq<Call>)
    ensures |calls| == |nals| && forall i :: 0 <= i < |nals| ==> calls[i] == Call(nals[i], false)
  {
    seq(|nals|, i requires 0 <= i < |nals| => Call(nals[i], false))
  }

  /** Of the units sent, the session gets none before turn j, and all from then on. */
  predicate JoinsAt(beats: seq<Beat>, j: nat, way: Way) {
    j <= |beats| && forall i :: 0 <= i < |beats| && beats[i].nal.Some? ==> (Gets(beats[i], way) <==> j <= i)
  }

  lemma {:induction false} NothingYet(k: Setting, x: Sender, beats: seq<Beat>, way: Way)
    requires k.Fits() && x.Fits() && JoinsAt(beats, |beats|, way)
    ensures PacketsTo(k, x, beats, way) == []
  {
    hide AfterBeats, UnitPackets;
    if beats != [] {
      NothingYet(k, x, beats[..|beats| - 1], way);
    }
  }

  /** The state y after sending, with the packets ps that a session got since the state `mid`: what is pending and the
      packets are those of a run over these units. */
  predicate Since(k: Setting, mid: Sender, y: Sender, ps: seq<Packet>, nals: seq<Nal>) {
    && H265.Run(k.aggregation, mid.pending, Unmarked(nals)) == H265.Step(Payloads(ps), y.pending)
    && Consecutive(mid.seqno, ps) && y.seqno == (mid.seqno + |ps|) % 0x1_0000
  }

  /** From turn j on the packets carry what sending the units from there on emits, numbered consecutively. */
  lemma {:induction false} PacketsFrom(k: Setting, x: Sender, beats: seq<Beat>, j: nat, way: Way)
    requires k.Fits() && x.Fits() && JoinsAt(beats, j, way)
    ensures Since(k, AfterBeats(k, x, beats[..j]), AfterBeats(k, x, beats), PacketsTo(k, x, beats, way),
                  NalsPlayed(beats[j..]))
  {
    hide GotPackets, OneBeat, Gets, PacketsTo, AfterBeats, Since;
    if |beats| == j {
      NothingYet(k, x, beats, way);
      assert beats[..j] == beats && NalsPlayed(beats[j..]) == [];
      SinceNothing(k, AfterBeats(k, x, beats));
    } else {
      var n := |beats| - 1;
      var before, b := beats[..n], beats[n];
      var mid, y := AfterBeats(k, x, beats[..j]), AfterBeats(k, x, before);
      PacketsFrom(k, x, before, j, way);
      assert before[..j] == beats[..j] && beats[j..] == before[j..] + [b];
      PlayedOne(before[j..], b);
      LastBeat(k, x, beats, way);
      SinceBeat(k, mid, y, PacketsTo(k, x, before, way), NalsPlayed(before[j..]), b, way);
    }
  }

  lemma SinceNothing(k: Setting, y: Sender)
    requires y.Fits()
    ensures Since(k, y, y, [], [])
  {
    assert Payloads([]) == [] && Unmarked([]) == [];
  }

  lemma LastBeat(k: Setting, x: Sender, beats: seq<Beat>, way: Way)
    requires k.Fits() && x.Fits() && beats != []
    ensures var before, b := beats[..|beats| - 1], beats[|beats| - 1];
      && AfterBeats(k, x, beats) == OneBeat(k, AfterBeats(k, x, before), b)
      && PacketsTo(k, x, beats, way) == PacketsTo(k, x, before, way) + GotPackets(k, AfterBeats(k, x, before), b, way)
  {
    hide OneBeat, GotPackets;
  }

  lemma SinceBeat(k: Setting, mid: Sender, y: Sender, ps: seq<Packet>, nals: seq<Nal>, b: Beat, way: Way)
    requires k.Fits() && y.Fits() && Since(k, mid, y, ps, nals) && (b.nal.Some? ==> Gets(b, way))
    ensures Since(k, mid, OneBeat(k, y, b), ps + GotPackets(k, y, b, way),
                  nals + if b.nal.Some? then [b.nal.value] else [])
  {
    hide H265.Send, H265.Run, Broadcast;
    if b.nal.None? {
      assert ps + [] == ps && nals + [] == nals;
    } else {
      var nal, more := b.nal.value, UnitPackets(k, y, b.nal.value);
      var step := H265.Send(k.aggregation, y.pending, nal, false);
      H265.RunAppend(k.aggregation, mid.pending, Unmarked(nals), Call(nal, false));
      assert Unmarked(nals + [nal]) == Unmarked(nals) + [Call(nal, false)];
      assert Payloads(more) == step.packets;
      assert Payloads(ps + more) == Payloads(ps) + Payloads(more);
      NumbersGoOn(mid.seqno, ps, more, y.seqno);
    }
  }

  lemma NumbersGoOn(seqno: nat, ps: seq<Packet>, more: seq<Packet>, next: nat)
    requires Consecutive(seqno, ps) && next == (seqno + |ps|) % 0x1_0000 && Consecutive(next, more)
    ensures Consecutive(seqno, ps + more) && (next + |more|) % 0x1_0000 == (seqno + |ps + more|) % 0x1_0000
  {
    ModAdd(seqno + |ps|, |more|);
    forall i | 0 <= i < |ps + more| ensures (ps + more)[i].seqno == (seqno + i) % 0x1_0000 {
      if i >= |ps| { ModAdd(seqno + |ps|, i - |ps|); }
    }
  }

  // ----- from the stream to the viewer

  /** A unit that arrives unchanged: not taken for another kind of packet, and its header survives. */
  predicate Arrives(nal: Nal)
    requires |nal| >= 2
  {
    && (|nal| <= MAX ==> !(48 <= H265.TypeOf(nal[0]) <= 50))
    && H265.HeaderKept(nal)
  }

  /** Without aggregation nothing is ever pending. */
  lemma {:induction false} NeverPending(k: Setting, x: Sender, beats: seq<Beat>)
    requires k.Fits() && x.Fits() && !k.aggregation && x.pending == []
    ensures AfterBeats(k, x, beats).pending == []
  {
    if beats != [] {
      NeverPending(k, x, beats[..|beats| - 1]);
    }
  }

  /** A receiver fed these packets ends up idle with exactly these units. */
  predicate ReceivedFrom(ps: seq<Packet>, units: seq<Nal>) {
    H265.ReceiveAll(H265.Receiver([], None), Payloads(ps)) == H265.Receiver(units, None)
  }

  lemma {:induction false} AllArrive(calls: seq<Call>)
    requires H265.AllNals(calls)
    ensures H265.NoneLossy(false, [], calls) && H265.HeadersKept(calls) <==> forall c <- calls :: Arrives(c.nal)
  {
    hide H265.NoneLossy, H265.HeaderKept, H265.TypeOf;
    H265.NoneLossyWithoutAggregation(calls);
  }

  lemma UnmarkedArrive(nals: seq<Nal>)
    requires forall nal <- nals :: |nal| >= 2
    ensures H265.AllNals(Unmarked(nals)) && Nals(Unmarked(nals)) == nals
    ensures (forall c <- Unmarked(nals) :: Arrives(c.nal)) <==> (forall nal <- nals :: Arrives(nal))
  {
    hide Arrives;
    forall nal <- nals ensures exists c <- Unmarked(nals) :: c.nal == nal {
      var i :| 0 <= i < |nals| && nals[i] == nal;
      assert Unmarked(nals)[i].nal == nal;
    }
  }

  // ----- the clock

  /** What is sent for each of these units, without aggregation. */
  function Sendings(nals: seq<Nal>): (bs: seq<seq<seq<byte>>>)
    ensures |bs| == |nals| && forall i :: 0 <= i < |nals| ==> bs[i] == H265.Send(false, [], nals[i], false).packets
  {
    seq(|nals|, i requires 0 <= i < |nals| => H265.Send(false, [], nals[i], false).packets)
  }

  /** Every unit played is 3000 ticks, a thirtieth of a second, later than the one before, whoever gets it. */
  lemma {:induction false} TimeAfter(k: Setting, x: Sender, beats: seq<Beat>)
    requires k.Fits() && x.Fits()
    ensures AfterBeats(k, x, beats).timestamp == (x.timestamp + 3000 * |NalsPlayed(beats)|) % 0x1_0000_0000
  {
    hide H265.Send, Broadcast, ReplySent;
    if beats != [] {
      var n := |beats| - 1;
      TimeAfter(k, x, beats[..n]);
      OneTick(x.timestamp, 3000, |NalsPlayed(beats[..n])|);
    }
  }

  /** The packets of a session that has joined carry the times of their units. */
  lemma {:induction false} StampsFrom(k: Setting, x: Sender, beats: seq<Beat>, j: nat, way: Way)
    requires k.Fits() && x.Fits() && !k.aggregation && x.pending == [] && JoinsAt(beats, j, way)
    ensures Stamps(PacketsTo(k, x, beats, way))
      == Clock(x.timestamp, 3000, |NalsPlayed(beats[..j])|, Sendings(NalsPlayed(beats[j..])))
  {
    hide GotPackets, AfterBeats, Gets, Stamps, Clock, Sendings, PacketsTo, NalsPlayed;
    if |beats| == j {
      assert beats[j..] == [];
      NothingYet(k, x, beats, way);
      NoStamps(x.timestamp, |NalsPlayed(beats[..j])|);
    } else {
      var n := |beats| - 1;
      var before, b := beats[..n], beats[n];
      JoinsBefore(beats, j, way);
      StampsFrom(k, x, before, j, way);
      assert before[..j] == beats[..j] && beats[j..] == before[j..] + [b];
      PlayedOne(before[j..], b);
      PlayedParts(before, j);
      LastBeat(k, x, beats, way);
      var y := AfterBeats(k, x, before);
      TimeAfter(k, x, before);
      NeverPending(k, x, before);
      StampsAppend(PacketsTo(k, x, before, way), GotPackets(k, y, b, way));
      StampsOfBeat(k, y, b, way);
      StampsOne(k, y, b, way, x.timestamp, |NalsPlayed(beats[..j])|, NalsPlayed(before[j..]));
    }
  }

  lemma JoinsBefore(beats: seq<Beat>, j: nat, way: Way)
    requires JoinsAt(beats, j, way) && j < |beats|
    ensures var n := |beats| - 1; JoinsAt(beats[..n], j, way) && (beats[n].nal.Some? ==> Gets(beats[n], way))
  {
    hide Gets;
  }

  lemma {:induction false} NoStamps(t: nat, i: nat)
    ensures Stamps([]) == Clock(t, 3000, i, Sendings(NalsPlayed([])))
  {
  }

  lemma StampsOfBeat(k: Setting, y: Sender, b: Beat, way: Way)
    requires k.Fits() && y.Fits() && !k.aggregation && y.pending == [] && (b.nal.Some? ==> Gets(b, way))
    ensures Stamps(GotPackets(k, y, b, way)) ==
      if b.nal.Some? then Stamped(y.timestamp, H265.Send(false, [], b.nal.value, false).packets) else []
  {
    hide H265.Send;
  }

  lemma {:induction false} StampsOne(k: Setting, y: Sender, b: Beat, way: Way, t: nat, i: nat, nals: seq<Nal>)
    requires y.timestamp == (t + 3000 * (i + |nals|)) % 0x1_0000_0000
    ensures b.nal.None? ==> Clock(t, 3000, i, Sendings(nals)) + [] == Clock(t, 3000, i, Sendings(nals + []))
    ensures b.nal.Some? ==>
      Clock(t, 3000, i, Sendings(nals)) + Stamped(y.timestamp, H265.Send(false, [], b.nal.value, false).packets)
        == Clock(t, 3000, i, Sendings(nals + [b.nal.value]))
  {
    hide H265.Send, Clock, Stamped;
    assert nals + [] == nals;
    if b.nal.Some? {
      ClockAppend(t, 3000, i, Sendings(nals), H265.Send(false, [], b.nal.value, false).packets);
      assert Sendings(nals + [b.nal.value]) == Sendings(nals) + [H265.Send(false, [], b.nal.value, false).packets];
    }
  }

  // ----- exactly what is recovered

  /** The unit of a beat, if it is sent while the session streams. */
  function Streamed(b: Beat): seq<Nal> {
    if b.nal.Some? && b.client.Active() then [b.nal.value] else []
  }

  /** The unit of a beat, if it gets to the viewer in the given way. */
  function Got(b: Beat, way: Way): seq<Nal> {
    if Gets(b, way) then [b.nal.value] else []
  }

  function NalsStreamed(beats: seq<Beat>): seq<Nal> {
    if beats == [] then [] else NalsStreamed(beats[..|beats| - 1]) + Streamed(beats[|beats| - 1])
  }

  function NalsGot(beats: seq<Beat>, way: Way): seq<Nal> {
    if beats == [] then [] else NalsGot(beats[..|beats| - 1], way) + Got(beats[|beats| - 1], way)
  }

  /** Every unit that is sent while the session streams gets to the viewer in this way. */
  predicate Straight(beats: seq<Beat>, way: Way) {
    forall b <- beats :: Streamed(b) == Got(b, way)
  }

  /** A unit that does not get there is missing from the weight of those that do. */
  lemma {:induction false} GotWeight(beats: seq<Beat>, way: Way)
    ensures Weight(NalsGot(beats, way)) <= Weight(NalsStreamed(beats))
    ensures Weight(NalsGot(beats, way)) == Weight(NalsStreamed(beats)) ==> Straight(beats, way)
    ensures Straight(beats, way) ==> NalsGot(beats, way) == NalsStreamed(beats)
  {
    if beats != [] {
      var before, b := beats[..|beats| - 1], beats[|beats| - 1];
      var got, streamed := NalsGot(before, way), NalsStreamed(before);
      assert NalsGot(beats, way) == got + Got(b, way) && NalsStreamed(beats) == streamed + Streamed(b);
      hide Streamed, Got, NalsGot, NalsStreamed;
      GotWeight(before, way);
      StraightOne(beats, way);
      hide Straight;
      OneWeight(b, way);
      TotalAppend(got, Got(b, way));
      TotalAppend(streamed, Streamed(b));
      hide Total;
    }
  }

  lemma StraightOne(beats: seq<Beat>, way: Way)
    requires beats != []
    ensures var n := |beats| - 1;
      Straight(beats, way) <==> Straight(beats[..n], way) && Streamed(beats[n]) == Got(beats[n], way)
  {
    hide Streamed, Got;
    var n := |beats| - 1;
    assert forall c :: c in beats <==> c in beats[..n] || c == beats[n];
  }

  lemma OneWeight(b: Beat, way: Way)
    ensures Weight(Got(b, way)) <= Weight(Streamed(b))
    ensures Weight(Got(b, way)) == Weight(Streamed(b)) ==> Got(b, way) == Streamed(b)
  {
  }

  /** Without aggregation the packets of a unit do not depend on the others, so that what gets to the viewer is a run
      over the units that do. */
  lemma {:induction false} GotRun(k: Setting, x: Sender, beats: seq<Beat>, way: Way)
    requires k.Fits() && x.Fits() && !k.aggregation && x.pending == []
    ensures H265.Run(false, [], Unmarked(NalsGot(beats, way))) == H265.Step(Payloads(PacketsTo(k, x, beats, way)), [])
  {
    hide AfterBeats, GotPackets, Got, H265.Run, Payloads, Unmarked;
    if beats == [] {
      NothingRun();
    } else {
      var n := |beats| - 1;
      var y := AfterBeats(k, x, beats[..n]);
      GotRun(k, x, beats[..n], way);
      NeverPending(k, x, beats[..n]);
      GotOne(k, y, PacketsTo(k, x, beats[..n], way), NalsGot(beats[..n], way), beats[n], way);
    }
  }

  lemma NothingRun()
    ensures H265.Run(false, [], Unmarked([])) == H265.Step(Payloads([]), [])
  {
    assert Unmarked([]) == [] && Payloads([]) == [];
  }

  lemma GotOne(k: Setting, y: Sender, ps: seq<Packet>, nals: seq<Nal>, b: Beat, way: Way)
    requires k.Fits() && y.Fits() && !k.aggregation && y.pending == []
    requires H265.Run(false, [], Unmarked(nals)) == H265.Step(Payloads(ps), [])
    ensures H265.Run(false, [], Unmarked(nals + Got(b, way)))
      == H265.Step(Payloads(ps + GotPackets(k, y, b, way)), [])
  {
    hide H265.Run, Broadcast;
    if Gets(b, way) {
      var nal, more := b.nal.value, UnitPackets(k, y, b.nal.value);
      H265.RunAppend(false, [], Unmarked(nals), Call(nal, false));
      assert Unmarked(nals + [nal]) == Unmarked(nals) + [Call(nal, false)];
      assert Payloads(more) == H265.Send(false, [], nal, false).packets;
      assert Payloads(ps + more) == Payloads(ps) + Payloads(more);
    } else {
      assert ps + [] == ps && nals + [] == nals;
    }
  }

  /** A receiver never recovers more than it is sent. */
  lemma RecoveredWeight(ps: seq<Packet>, units: seq<Nal>, nals: seq<Nal>)
    requires H265.Run(false, [], Unmarked(nals)) == H265.Step(Payloads(ps), [])
    requires ReceivedFrom(ps, units) && forall nal <- nals :: |nal| >= 2
    ensures Weight(units) <= Weight(nals)
  {
    hide H265.Run, H265.ReceiveAll, H265.BulkAll;
    UnmarkedArrive(nals);
    H265.RunBulk(false, [], Unmarked(nals));
    H265.ReceiveAllBulk(H265.Receiver([], None), Payloads(ps));
  }

  lemma RunRecovered(ps: seq<Packet>, nals: seq<Nal>)
    requires H265.Run(false, [], Unmarked(nals)) == H265.Step(Payloads(ps), [])
    requires forall nal <- nals :: |nal| >= 2
    ensures ReceivedFrom(ps, nals) <==> forall nal <- nals :: Arrives(nal)
  {
    hide H265.Run, H265.ReceiveAll, H265.NoneLossy, H265.HeadersKept, Arrives;
    var calls := Unmarked(nals);
    UnmarkedArrive(nals);
    H265.RunConserves(false, [], calls, []);
    AllArrive(calls);
    assert H265.UnitsIn([]) == [];
    var rx := H265.ReceiveAll(H265.Receiver([], None), Payloads(ps));
    assert rx.Receiver? ==> rx.nals + [] == rx.nals;
    assert [] + [] + nals == nals;
  }

  lemma {:induction false} GotAmong(beats: seq<Beat>, way: Way)
    ensures forall nal <- NalsGot(beats, way) :: nal in NalsStreamed(beats)
  {
    if beats != [] {
      GotAmong(beats[..|beats| - 1], way);
    }
  }

  /** From the packets that get to it in some way a receiver recovers the units sent while the session streams if and
      only if all of them get there in that way and are such as arrive. */
  lemma {:induction false} Recovered(k: Setting, x: Sender, beats: seq<Beat>, way: Way)
    requires k.Fits() && x.Fits() && !k.aggregation && x.pending == []
    requires forall nal <- NalsStreamed(beats) :: |nal| >= 2
    ensures ReceivedFrom(PacketsTo(k, x, beats, way), NalsStreamed(beats)) <==>
      Straight(beats, way) && forall nal <- NalsStreamed(beats) :: Arrives(nal)
  {
    hide PacketsTo, NalsStreamed, NalsGot, H265.Run, ReceivedFrom, Arrives, Straight;
    var ps, got := PacketsTo(k, x, beats, way), NalsGot(beats, way);
    GotAmong(beats, way);
    GotRun(k, x, beats, way);
    GotWeight(beats, way);
    if ReceivedFrom(ps, NalsStreamed(beats)) {
      RecoveredWeight(ps, NalsStreamed(beats), got);
    }
    RunRecovered(ps, got);
  }

  lemma {:induction false} NalsAppend(a: seq<Beat>, b: seq<Beat>)
    ensures NalsPlayed(a + b) == NalsPlayed(a) + NalsPlayed(b)
    decreases |b|
  {
    if b == [] {
      assert a + b == a;
    } else {
      var n := |b| - 1;
      NalsAppend(a, b[..n]);
      assert a + b == (a + b[..n]) + [b[n]] && b == b[..n] + [b[n]];
      PlayedOne(a + b[..n], b[n]);
      PlayedOne(b[..n], b[n]);
      hide NalsPlayed;
      Associative(NalsPlayed(a), NalsPlayed(b[..n]), if b[n].nal.Some? then [b[n].nal.value] else []);
    }
  }

  /** The p-th unit played and those after it are the units of the stream in a cycle, from there on. */
  lemma CycleFrom(us: seq<Unit>, p: nat, m: nat)
    requires us != [] && p <= m
    ensures Cycle(us, 0, m)[p..] == Cycle(us, p % |us|, m - p)
  {
    forall i | 0 <= i < m - p ensures Cycle(us, 0, m)[p..][i] == Cycle(us, p % |us|, m - p)[i] {
      CycleAt(us, p, m, i);
    }
  }

  lemma CycleAt(us: seq<Unit>, p: nat, m: nat, i: nat)
    requires us != [] && p + i < m
    ensures Cycle(us, 0, m)[p + i] == Cycle(us, p % |us|, m - p)[i]
  {
    ModPlus(p, i, |us|);
  }

  lemma CycleLong(us: seq<Unit>, i: nat, n: nat)
    requires us != [] && forall u <- us :: |u.nal| >= 2
    ensures forall nal <- Cycle(us, i, n) :: |nal| >= 2
  {
    forall nal <- Cycle(us, i, n) ensures |nal| >= 2 {
      var j :| 0 <= j < n && Cycle(us, i, n)[j] == nal;
      assert us[(i + j) % |us|] in us;
    }
  }

  /** The units played from turn j on. */
  lemma {:induction false} PlayedFrom(us: seq<Unit>, beats: seq<Beat>, j: nat)
    requires Playable(us) && j <= |beats|
    requires Played(Join(us), Cursor(0, |Join(us)|), |NalsPlayed(beats)|) == Some(NalsPlayed(beats))
    ensures NalsPlayed(beats[j..]) == Cycle(us, |NalsPlayed(beats[..j])| % |us|, |NalsPlayed(beats[j..])|)
  {
    assert us != [];
    hide Join, Played, Playable, NalsPlayed, Cycle, CursorAt;
    var before, after := NalsPlayed(beats[..j]), NalsPlayed(beats[j..]);
    FirstCursor(us);
    Replay(us, 0, |NalsPlayed(beats)|);
    PlayedParts(beats, j);
    CycleFrom(us, |before|, |NalsPlayed(beats)|);
    Parts(before, after);
  }

  lemma {:induction false} PlayedParts(beats: seq<Beat>, j: nat)
    requires j <= |beats|
    ensures NalsPlayed(beats) == NalsPlayed(beats[..j]) + NalsPlayed(beats[j..])
  {
    hide NalsPlayed;
    assert beats[..j] + beats[j..] == beats;
    NalsAppend(beats[..j], beats[j..]);
  }

  lemma Parts(a: seq<Nal>, b: seq<Nal>)
    ensures (a + b)[|a|..] == b
  {
  }

  /** The session streams from turn j on. */
  predicate StreamsAt(beats: seq<Beat>, j: nat) {
    j <= |beats| && forall i :: 0 <= i < |beats| && beats[i].nal.Some? ==> (beats[i].client.Active() <==> j <= i)
  }

  lemma {:induction false} StreamedFrom(beats: seq<Beat>, j: nat)
    requires StreamsAt(beats, j)
    ensures NalsStreamed(beats) == NalsPlayed(beats[j..])
  {
    var n := |beats| - 1;
    if j == |beats| {
      NoneStreamed(beats);
      assert beats[j..] == [];
    } else {
      hide NalsPlayed, StreamsAt, Streamed;
      StreamedAt(beats, j);
      StreamedFrom(beats[..n], j);
      assert beats[j..] == beats[..n][j..] + [beats[n]];
      PlayedOne(beats[..n][j..], beats[n]);
    }
  }

  lemma StreamedAt(beats: seq<Beat>, j: nat)
    requires StreamsAt(beats, j) && j < |beats|
    ensures var b := beats[|beats| - 1];
      StreamsAt(beats[..|beats| - 1], j) && Streamed(b) == if b.nal.Some? then [b.nal.value] else []
  {
  }

  lemma {:induction false} NoneStreamed(beats: seq<Beat>)
    requires StreamsAt(beats, |beats|)
    ensures NalsStreamed(beats) == []
  {
    if beats != [] { NoneStreamed(beats[..|beats| - 1]); }
  }

  lemma StraightJoins(beats: seq<Beat>, j: nat, way: Way)
    requires StreamsAt(beats, j) && Straight(beats, way)
    ensures JoinsAt(beats, j, way)
  {
    forall i | 0 <= i < |beats| && beats[i].nal.Some? ensures Gets(beats[i], way) <==> j <= i {
      assert beats[i] in beats;
    }
  }

  /** What a viewer sees, if its replies and packets can be told apart at all: packets from which these units are
      recovered if and only if each of them arrives and all of them get there, which then are numbered consecutively.
      */
  ghost predicate Gives(seen: Option<seq<Packet>>, units: seq<Nal>, straight: bool, t: nat, i: nat) {
    && seen.Some? && (forall nal <- units :: |nal| >= 2)
    && (ReceivedFrom(seen.value, units) <==> straight && forall nal <- units :: Arrives(nal))
    && (straight ==>
      && Stamps(seen.value) == Clock(t, 3000, i, Sendings(units))
      && exists seqno: nat :: Consecutive(seqno, seen.value))
  }

  lemma {:induction false} GivesThese(ps: seq<Packet>, seqno: nat, units: seq<Nal>, straight: bool, t: nat, i: nat)
    requires straight ==> Consecutive(seqno, ps) && Stamps(ps) == Clock(t, 3000, i, Sendings(units))
    requires forall nal <- units :: |nal| >= 2
    requires ReceivedFrom(ps, units) <==> straight && forall nal <- units :: Arrives(nal)
    ensures Gives(Some(ps), units, straight, t, i)
  {
    hide Consecutive, ReceivedFrom, Arrives, Clock;
  }

  /** End to end: a viewer whose session streams from turn j on of the looping replay of a playable stream, and gets
      no 404 where its media is on the same connection, recovers exactly the units that the stream in a cycle has from
      where the replay had got to, if and only if all of them get there in the way it looks for them and all of them
      arrive. */
  lemma {:induction false} EndToEnd(us: seq<Unit>, k: Setting, x: Sender, beats: seq<Beat>, j: nat, way: Way,
                                    socket: nat, say: Say)
    requires Playable(us) && (forall u <- us :: |u.nal| >= 2) && way != Nowhere
    requires k.Fits() && x.Fits() && !k.aggregation && x.pending == [] && x.wire == []
    requires Played(Join(us), Cursor(0, |Join(us)|), |NalsPlayed(beats)|) == Some(NalsPlayed(beats))
    requires StreamsAt(beats, j) && Served(beats, socket) && Proper(say) && (way == OverTcp ==> AllFound(beats))
    ensures Gives(Seen(AfterBeats(k, x, beats).wire, socket, say, way),
                  Cycle(us, |NalsPlayed(beats[..j])| % |us|, |NalsPlayed(beats[j..])|), Straight(beats, way),
                  x.timestamp, |NalsPlayed(beats[..j])|)
  {
    assert us != [] && j <= |beats|;
    hide Join, Played, Playable, AfterBeats, Arrives, Seen, PacketsTo, ReceivedFrom, Consecutive, Gets, Proper;
    hide Cycle, NalsPlayed, NalsStreamed, Served, AllFound, ReadAll, Received, ItemsTo, AllSeen, JoinsAt, H265.Run;
    hide StreamsAt, Straight, Streamed, Got, Clock, Sendings;
    SeenExactly(k, x, beats, socket, say, if way.OverUdp? then way.port else 0);
    PlayedFrom(us, beats, j);
    StreamedFrom(beats, j);
    var units := NalsPlayed(beats[j..]);
    CycleLong(us, |NalsPlayed(beats[..j])| % |us|, |units|);
    if Straight(beats, way) {
      StraightJoins(beats, j, way);
      PacketsFrom(k, x, beats, j, way);
      StampsFrom(k, x, beats, j, way);
    }
    Recovered(k, x, beats, way);
    GivesThese(PacketsTo(k, x, beats, way), AfterBeats(k, x, beats[..j]).seqno, units, Straight(beats, way),
               x.timestamp, |NalsPlayed(beats[..j])|);
  }

  // ----- a run of workerThread

  /** How many turns play a unit while the session is streaming, or while it is not. */
  function Plays(steps: seq<Step>, streaming: bool): nat {
    if steps == [] then 0 else
      var n := |steps| - 1;
      Plays(steps[..n], streaming) + if !steps[n].ret && steps[n].conn.streaming == streaming then 1 else 0
  }

  lemma FirstStreaming(streaming: bool, steps: seq<Step>) returns (j: nat)
    requires Lasting(streaming, steps)
    ensures j <= |steps| && forall i :: 0 <= i < |steps| ==> (steps[i].conn.streaming <==> j <= i)
  {
    j := |steps|;
    while j > 0 && steps[j - 1].conn.streaming
      invariant j <= |steps| && forall i :: j <= i < |steps| ==> steps[i].conn.streaming
    {
      j := j - 1;
    }
  }

  lemma {:induction false} CountNals(beats: seq<Beat>, steps: seq<Step>, n: nat)
    requires n <= |beats| == |steps| && forall i :: 0 <= i < |beats| ==> (beats[i].nal.Some? <==> !steps[i].ret)
    ensures |NalsPlayed(beats[..n])| == Plays(steps[..n], false) + Plays(steps[..n], true)
  {
    if n > 0 {
      var i, b := n - 1, beats[n - 1];
      CountNals(beats, steps, i);
      PlaysMore(steps, i, false);
      PlaysMore(steps, i, true);
      PlayedOne(beats[..i], b);
      hide NalsPlayed, Plays;
      assert beats[..n] == beats[..i] + [b];
    }
  }

  lemma {:induction false} CountPlays(steps: seq<Step>, j: nat, n: nat)
    requires n <= |steps| && j <= |steps| && forall i :: 0 <= i < |steps| ==> (steps[i].conn.streaming <==> j <= i)
    ensures n <= j ==> Plays(steps[..n], true) == 0
    ensures n >= j ==> Plays(steps[..n], false) == Plays(steps[..j], false)
  {
    if n > 0 {
      CountPlays(steps, j, n - 1);
      PlaysMore(steps, n - 1, false);
      PlaysMore(steps, n - 1, true);
      hide Plays;
    }
  }

  lemma {:induction false} PlaysMore(steps: seq<Step>, i: nat, streaming: bool)
    requires i < |steps|
    ensures Plays(steps[..i + 1], streaming)
      == Plays(steps[..i], streaming) + if !steps[i].ret && steps[i].conn.streaming == streaming then 1 else 0
  {
    assert steps[..i + 1][..i] == steps[..i];
  }

  // ----- replies break no line

  lemma {:induction false} ParamsKeepHost(f: Fields, t: string)
    ensures Params(f, t).fields.host == f.host && Params(f, t).fields.presentation == f.presentation
    ensures Params(f, t).fields.stream == f.stream
    decreases |t|
  {
    hide Skip, NextPart, PortOf, Params;
    var u := Rest(t, Separator);
    ParamsTurn(f, t, u);
    if !Ended(u) && !("\r\n" <= u) && 0 < NextPart(u) < |u| {
      var g := if "client_port=" <= u then f.(rtpPort := PortOf(u[12..]), rtcpPort := (PortOf(u[12..]) + 1) % 0x1_0000)
               else f;
      ParamsKeepHost(g, u[NextPart(u)..]);
    }
  }

  lemma LineKeepsHost(f: Fields, setup: bool, t: string, slack: int)
    ensures var r := OneLine(f, setup, t, slack);
      var g := if r.Stop? then r.end else r.fields;
      g.host == f.host && g.presentation == f.presentation && g.stream == f.stream
  {
    hide HeaderLine, LineEnd;
    HeaderKeepsHost(f, setup, Drop(t[LineEnd(t)..], 2), slack);
  }

  lemma HeaderKeepsHost(f: Fields, setup: bool, u: string, slack: int)
    ensures var r := HeaderLine(f, setup, u, slack);
      var g := if r.Stop? then r.end else r.fields;
      g.host == f.host && g.presentation == f.presentation && g.stream == f.stream
  {
    hide Numeric, Glue, ParseTransport, Rest;
    if "Transport:" <= Glue(u) { TransportKeepsHost(f, Glue(u)[10..]); }
  }

  lemma TransportKeepsHost(f: Fields, t: string)
    ensures var g := ParseTransport(f, t).fields;
      g.host == f.host && g.presentation == f.presentation && g.stream == f.stream
  {
    hide Params, Rest;
    var v := Rest(t, Space);
    if "RTP/AVP" <= v {
      var tcp := "/TCP" <= v[7..];
      ParamsKeepHost(f.(tcp := tcp, rtpPort := 0), if tcp then v[11..] else v[7..]);
    }
  }

  lemma {:induction false} HeadersKeepHost(f: Fields, setup: bool, t: string, slack: int)
    ensures var g := Headers(f, setup, t, slack).1;
      g.host == f.host && g.presentation == f.presentation && g.stream == f.stream
    decreases |t|
  {
    hide OneLine;
    LineKeepsHost(f, setup, t, slack);
    match OneLine(f, setup, t, slack)
    case Stop(_, _) =>
    case More(g, rest) => HeadersKeepHost(g, setup, rest, slack);
  }

  lemma PartPlain(t: string, limit: nat)
    ensures TakePart(t, limit).fits ==> PlainText(TakePart(t, limit).word)
  {
    if Skip(t, Token) <= limit {
      var w := t[..Skip(t, Token)];
      forall c <- w ensures c != NUL && c != '\r' && c != '\n' {
        var i :| 0 <= i < |w| && w[i] == c;
        assert In(t[i], Token);
      }
    }
  }

  lemma TargetPlain(t: string)
    ensures var r := ParseTarget(t);
      r.ok ==> PlainText(r.host) && PlainText(r.presentation) && PlainText(r.stream)
  {
    hide Skip, TakePart, NameLength, PlainText, ParseVersion, Lower;
    var u := Rest(t[NameLength(t, 19)..], Space);
    if StartsNoCase(u, "rtsp://") {
      PartPlain(u[7..], MAX_HOSTNAME_LEN);
      var host := TakePartSlash(u[7..], MAX_HOSTNAME_LEN);
      PartPlain(host.after, RTSP_PARAM_STRING_MAX);
      PartPlain(TakePartSlash(host.after, RTSP_PARAM_STRING_MAX).after, RTSP_PARAM_STRING_MAX);
    }
  }

  lemma ParsedPlain(f: Fields, setup: bool, t: string, slack: int)
    ensures var (v, g) := Parse(f, setup, t, slack);
      v.Accepted? ==> PlainText(g.host) && PlainText(g.presentation) && PlainText(g.stream)
  {
    hide ParseTarget, Headers, PlainText;
    var target := ParseTarget(t);
    TargetPlain(t);
    HeadersKeepHost(f.(host := target.host, presentation := target.presentation, stream := target.stream,
                       contentLength := 0), setup, target.rest, slack);
  }

  lemma HandlePlain(d: Conn, size: nat)
    ensures var r := Handle(d, size).reply; r.Some? ==> PlainReply(r.value)
  {
    hide Parse, PlainText;
    ParsedPlain(d.fields, d.command.Setup?, d.recv, size - |d.recv|);
  }

  lemma ReplyPlain(c: Conn, read: Read)
    ensures var r := OneRead(c, read).reply; r.Some? ==> PlainReply(r.value)
  {
    hide Recognise, Fresh, EndsHeader, Handle, PlainText;
    if !c.stopped && read.Data? {
      HandlePlain(Recognise(Fresh(c).(recv := Fresh(c).recv + read.bytes)), |read.bytes|);
    }
  }

  lemma {:induction false} RepliesPlain(c: Conn, polls: seq<Read>)
    requires |c.recv| < RTSP_BUFFER_SIZE
    ensures forall step <- Turns(c, polls) :: step.reply.Some? ==> PlainReply(step.reply.value)
    decreases |polls|
  {
    hide OneRead, PlainReply;
    if polls != [] && !c.stopped {
      ReplyPlain(c, Delivered(c, polls[0]));
      RepliesPlain(Polled(c, polls[0]).conn, polls[1..]);
    }
  }

  lemma BeatsServed(beats: seq<Beat>, socket: nat, steps: seq<Step>, words: nat -> PlainWords, u: Udp,
                    free: nat -> bool)
    requires SentTo(beats, socket, steps, words, u, free)
    requires forall step <- steps :: step.reply.Some? ==> PlainReply(step.reply.value)
    ensures Served(beats, socket)
    ensures (forall step <- steps :: step.reply.Some? ==> !step.reply.value.NotFound?) ==> AllFound(beats)
  {
    hide PlainReply, ClientOf, SourceOf, AllStepped;
    forall b <- beats
      ensures b.client.socket == socket && (b.reply.Some? ==> PlainReply(b.reply.value))
      ensures exists step <- steps :: b.reply == step.reply
    {
      var i :| 0 <= i < |beats| && beats[i] == b;
      assert b.client.socket == socket by { SocketOf(socket, steps[i].conn); }
      assert steps[i] in steps;
    }
  }

  lemma SocketOf(socket: nat, c: Conn)
    ensures ClientOf(socket, c).socket == socket
  {
  }

  // ----- the way to the viewer, from the calls alone

  /** The search made at the first UDP SETUP leaves a socket that datagrams go out of. No later SETUP makes another. */
  predicate Binds(free: nat -> bool) {
    SourceOf(Init(NO_UDP, free)) != 0
  }

  predicate SetUpBy(steps: seq<Step>, j: nat)
    requires j <= |steps|
  {
    exists i :: 0 <= i < j && steps[i].initUdp
  }

  lemma {:induction false} TransportAt(steps: seq<Step>, free: nat -> bool)
    requires forall i :: 0 <= i < |steps| ==> !steps[i].conn.stopped
    ensures var u := AllStepped(NO_UDP, steps, free);
      if SetUpBy(steps, |steps|) then u.count > 0 && u == Init(NO_UDP, free).(count := u.count) else u == NO_UDP
  {
    hide SourceOf, Init;
    if steps != [] {
      var n := |steps| - 1;
      var u := AllStepped(NO_UDP, steps[..n], free);
      TransportAt(steps[..n], free);
      assert SetUpBy(steps, |steps|) <==> SetUpBy(steps[..n], n) || steps[n].initUdp by { SetUpOne(steps); }
      OneInit(u, free);
      OneInit(NO_UDP, free);
    }
  }

  lemma SetUpOne(steps: seq<Step>)
    requires steps != []
    ensures SetUpBy(steps, |steps|) <==> SetUpBy(steps[..|steps| - 1], |steps| - 1) || steps[|steps| - 1].initUdp
  {
    var n := |steps| - 1;
    if SetUpBy(steps[..n], n) {
      var i :| 0 <= i < n && steps[..n][i].initUdp;
      assert steps[i].initUdp;
    }
    if SetUpBy(steps, |steps|) {
      var i :| 0 <= i < |steps| && steps[i].initUdp;
      if i < n { assert steps[..n][i].initUdp; }
    }
  }

  lemma OneInit(u: Udp, free: nat -> bool)
    ensures Init(u, free).count == u.count + 1
    ensures u.count > 0 ==> Init(u, free) == u.(count := u.count + 1)
  {
    CountsOne(u, free);
  }

  /** Where the packets of a unit go that is sent in turn j: to the viewer's port only if some SETUP has named one and a
      UDP SETUP so far has bound a socket to send from. */
  function WayAt(steps: seq<Step>, j: nat, free: nat -> bool): Way
    requires j < |steps|
  {
    var c := steps[j].conn;
    if !c.streaming then Nowhere
    else if c.fields.tcp then OverTcp
    else if c.rtpClientPort != 0 && SetUpBy(steps, j + 1) && Binds(free) then OverUdp(c.rtpClientPort)
    else Nowhere
  }

  /** All the units sent while the session streams go this way. */
  predicate Leads(steps: seq<Step>, way: Way, free: nat -> bool) {
    forall j :: 0 <= j < |steps| && !steps[j].ret && steps[j].conn.streaming ==> WayAt(steps, j, free) == way
  }

  lemma WayIs(beats: seq<Beat>, socket: nat, steps: seq<Step>, words: nat -> PlainWords, free: nat -> bool, j: nat)
    requires Lasting(false, steps) && SentTo(beats, socket, steps, words, NO_UDP, free)
    requires j < |beats| && beats[j].nal.Some?
    ensures WayTo(beats[j].client, beats[j].source) == WayAt(steps, j, free)
    ensures beats[j].client.Active() <==> steps[j].conn.streaming
  {
    hide SourceOf, AllStepped, Init;
    var first := steps[..j + 1];
    assert forall i :: 0 <= i <= j ==> !steps[i].conn.stopped;
    TransportAt(first, free);
    assert SetUpBy(first, j + 1) <==> SetUpBy(steps, j + 1) by { SetUpPrefix(steps, j + 1); }
    SameSource(Init(NO_UDP, free), AllStepped(NO_UDP, first, free).count);
    NoSource();
  }

  /** What the SETUP replies of a run announce: the ports that the first UDP SETUP has bound, which are those the
      datagrams leave from, if its search finds a pair. */
  lemma {:induction false} TellsSource(beats: seq<Beat>, socket: nat, steps: seq<Step>, words: nat -> PlainWords,
                                       free: nat -> bool, j: nat)
    requires Lasting(false, steps) && SentTo(beats, socket, steps, words, NO_UDP, free)
    requires j < |steps| && !steps[j].conn.stopped && SetUpBy(steps, j + 1) && Finds(NO_UDP, free)
    ensures var w, p := beats[j].words, beats[j].source;
      w.serverRtp == p && w.serverRtcp == p + 1 && PairFree(free, p)
  {
    hide AllStepped, Init, ClientOf, FirstPair;
    var first := steps[..j + 1];
    assert forall i :: 0 <= i <= j ==> !steps[i].conn.stopped;
    TransportAt(first, free);
    assert SetUpBy(first, j + 1) <==> SetUpBy(steps, j + 1) by { SetUpPrefix(steps, j + 1); }
    AfterLast(steps, j, free);
    FirstInit(free);
  }

  lemma AfterLast(steps: seq<Step>, j: nat, free: nat -> bool)
    requires j < |steps| && !steps[j].conn.stopped
    ensures AllStepped(NO_UDP, steps[..j + 1], free)
      == UdpAfter(AllStepped(NO_UDP, steps[..j], free), steps[j].initUdp, free)
  {
    hide UdpAfter;
    assert steps[..j + 1][..j] == steps[..j];
  }

  lemma FirstInit(free: nat -> bool)
    requires Finds(NO_UDP, free)
    ensures var v := Init(NO_UDP, free);
      v.rtp == Bound(v.rtpPort) && v.rtcpPort == v.rtpPort + 1 && PairFree(free, v.rtpPort)
  {
    SearchFinds(free, 6970, NO_UDP);
    hide Search, FirstPair;
  }

  lemma SameSource(u: Udp, count: int)
    ensures SourceOf(u.(count := count)) == SourceOf(u)
  {
  }

  lemma NoSource()
    ensures SourceOf(NO_UDP) == 0
  {
  }

  lemma SetUpPrefix(steps: seq<Step>, n: nat)
    requires n <= |steps|
    ensures SetUpBy(steps[..n], n) <==> SetUpBy(steps, n)
  {
    if SetUpBy(steps, n) {
      var i :| 0 <= i < n && steps[i].initUdp;
      assert steps[..n][i].initUdp;
    }
  }

  /** The beats of a run: from the turn where the session streams they are those of the units counted by its calls, and
      they go where its calls lead them. */
  lemma {:induction false} Joins(beats: seq<Beat>, socket: nat, steps: seq<Step>, words: nat -> PlainWords,
                                 free: nat -> bool, j: nat, way: Way)
    requires Lasting(false, steps) && SentTo(beats, socket, steps, words, NO_UDP, free)
    requires j <= |steps| && forall i :: 0 <= i < |steps| ==> (steps[i].conn.streaming <==> j <= i)
    ensures StreamsAt(beats, j) && (way != Nowhere ==> (Straight(beats, way) <==> Leads(steps, way, free)))
    ensures |NalsPlayed(beats[..j])| == Plays(steps, false) && |NalsPlayed(beats[j..])| == Plays(steps, true)
  {
    WaysAre(beats, socket, steps, words, free);
    Counted(beats, steps, j);
    hide WayTo, WayAt, ClientOf, SourceOf, AllStepped, NalsPlayed, Plays, Straight, Leads;
    if way != Nowhere { Leading(beats, steps, way, free); }
  }

  /** Each unit goes where the calls so far lead it. */
  ghost predicate GoesAsLed(beats: seq<Beat>, steps: seq<Step>, free: nat -> bool) {
    |beats| == |steps| && forall i :: 0 <= i < |beats| ==>
      && (beats[i].nal.Some? <==> !steps[i].ret)
      && (beats[i].nal.Some? ==>
        && WayTo(beats[i].client, beats[i].source) == WayAt(steps, i, free)
        && (beats[i].client.Active() <==> steps[i].conn.streaming))
  }

  lemma WaysAre(beats: seq<Beat>, socket: nat, steps: seq<Step>, words: nat -> PlainWords, free: nat -> bool)
    requires Lasting(false, steps) && SentTo(beats, socket, steps, words, NO_UDP, free)
    ensures GoesAsLed(beats, steps, free)
  {
    hide WayTo, WayAt, ClientOf, SourceOf, AllStepped, Lasting;
    forall i | 0 <= i < |beats| && beats[i].nal.Some?
      ensures WayTo(beats[i].client, beats[i].source) == WayAt(steps, i, free)
      ensures beats[i].client.Active() <==> steps[i].conn.streaming
    {
      WayIs(beats, socket, steps, words, free, i);
    }
  }

  lemma {:induction false} Counted(beats: seq<Beat>, steps: seq<Step>, j: nat)
    requires |beats| == |steps| && forall i :: 0 <= i < |beats| ==> (beats[i].nal.Some? <==> !steps[i].ret)
    requires j <= |steps| && forall i :: 0 <= i < |steps| ==> (steps[i].conn.streaming <==> j <= i)
    ensures |NalsPlayed(beats[..j])| == Plays(steps, false) && |NalsPlayed(beats[j..])| == Plays(steps, true)
  {
    hide NalsPlayed, Plays;
    CountNals(beats, steps, j);
    CountNals(beats, steps, |steps|);
    CountPlays(steps, j, j);
    CountPlays(steps, j, |steps|);
    assert beats[..|steps|] == beats && steps[..|steps|] == steps;
    PlayedParts(beats, j);
  }

  lemma Leading(beats: seq<Beat>, steps: seq<Step>, way: Way, free: nat -> bool)
    requires GoesAsLed(beats, steps, free) && way != Nowhere
    ensures Straight(beats, way) <==> Leads(steps, way, free)
  {
    forall i | 0 <= i < |beats|
      ensures Streamed(beats[i]) == Got(beats[i], way) <==>
        (!steps[i].ret && steps[i].conn.streaming ==> WayAt(steps, i, free) == way)
    {
      NowhereIdle(beats[i].client, beats[i].source);
    }
    hide Streamed, Got, WayAt;
    if Straight(beats, way) {
      assert forall i :: 0 <= i < |beats| ==> beats[i] in beats;
    }
  }

  lemma NowhereIdle(c: Client, source: nat)
    ensures !c.Active() ==> WayTo(c, source) == Nowhere
  {
  }

  // ----- the connection served by workerThread

  /** Over TCP, the viewer asks for no stream that there is not. */
  predicate Asks(steps: seq<Step>, way: Way) {
    way != Nowhere && (way == OverTcp ==> forall step <- steps :: step.reply.Some? ==> !step.reply.value.NotFound?)
  }

  lemma {:induction false} RunGives(us: seq<Unit>, k: Setting, x: Sender, beats: seq<Beat>, socket: nat,
                                    polls: seq<Read>, words: nat -> PlainWords, free: nat -> bool, way: Way, say: Say)
    requires Playable(us) && forall u <- us :: |u.nal| >= 2
    requires k.Fits() && x.Fits() && !k.aggregation && x.pending == [] && x.wire == [] && Proper(say)
    requires Played(Join(us), Cursor(0, |Join(us)|), |NalsPlayed(beats)|) == Some(NalsPlayed(beats))
    requires SentTo(beats, socket, Turns(NewConn(), polls), words, NO_UDP, free) && Asks(Turns(NewConn(), polls), way)
    ensures var steps := Turns(NewConn(), polls);
      Gives(Seen(AfterBeats(k, x, beats).wire, socket, say, way),
            Cycle(us, Plays(steps, false) % |us|, Plays(steps, true)), Leads(steps, way, free),
            x.timestamp, Plays(steps, false))
  {
    hide Playable, Played, NalsPlayed, AfterBeats, Seen, Gives, Cycle, Proper, Join, Plays, PlainReply, Turns;
    hide Straight, Leads, StreamsAt;
    var steps := Turns(NewConn(), polls);
    StreamingStays(NewConn(), polls);
    RepliesPlain(NewConn(), polls);
    BeatsServed(beats, socket, steps, words, NO_UDP, free);
    var j := FirstStreaming(false, steps);
    hide Served, AllFound, Lasting, SentTo;
    Joins(beats, socket, steps, words, free, j, way);
    EndToEnd(us, k, x, beats, j, way, socket, say);
  }

  /** As the replies of the source are put. */
  function SourceSay(): Say {
    (r: Reply, w: PlainWords) => MessageOf(r, w)
  }

  lemma SourceProper()
    ensures Proper(SourceSay())
  {
    hide RtspMessages.Proper, MessageOf, PlainReply;
    forall r: Reply, w: PlainWords | PlainReply(r) ensures RtspMessages.Proper(SourceSay()(r, w), HasEnd(r)) {
      ReplyProper(r, w);
    }
  }

  /** workerThread with a playable stream and aggregation off, unless the parser hangs: a viewer that looks for its
      packets on the connection, or at a UDP port, recovers from what is sent exactly the units that are played while
      its session streams, those of the stream in a cycle from where the replay had got to when it started streaming,
      if and only if the calls lead all of them there and each of them arrives. */
  method ServeViewer(ghost us: seq<Unit>, ctx: RtpMuxContext, s: seq<byte>, addr: nat, socket: nat, polls: seq<Read>,
                     words: nat -> PlainWords, free: nat -> bool)
      returns (streamer: CStreamer, stuck: bool)
    requires Playable(us) && s == Join(us) && forall u <- us :: |u.nal| >= 2
    requires ctx.Valid() && !ctx.aggregation && ctx.bufPtr == 0
    modifies ctx`bufPtr, ctx`seqno, ctx`timestamp, ctx.cache, ctx.buf
    ensures stuck <==> !NoneStuck(Turns(NewConn(), polls))
    ensures !stuck ==> forall way: Way :: Asks(Turns(NewConn(), polls), way) ==>
      var steps := Turns(NewConn(), polls);
      Gives(Seen(streamer.wire, socket, SourceSay(), way), Cycle(us, Plays(steps, false) % |us|, Plays(steps, true)),
            Leads(steps, way, free), old(ctx.timestamp), Plays(steps, false))
  {
    ghost var k, x, say := SettingOf(ctx), Sender(ctx.seqno, ctx.timestamp, [], []), SourceSay();
    assert ctx.Pending() == [];
    assert us != [];
    hide Playable, Played, Join, NalsPlayed, AfterBeats, Seen, Gives, Cycle, Proper, Plays, SentTo, Turns, CursorAt;
    hide Asks, Leads, NewConn, NoneStuck, SourceSay;
    SourceProper();
    FirstCursor(us);
    Replay(us, 0, |polls|);
    ghost var beats;
    streamer, stuck, beats := WorkerThread(ctx, s, addr, socket, polls, words, free);
    if !stuck {
      ghost var steps := Turns(NewConn(), polls);
      forall way: Way | Asks(steps, way)
        ensures Gives(Seen(streamer.wire, socket, say, way), Cycle(us, Plays(steps, false) % |us|, Plays(steps, true)),
                      Leads(steps, way, free), x.timestamp, Plays(steps, false))
      {
        RunGives(us, k, x, beats, socket, polls, words, free, way, say);
      }
    }
  }
}
