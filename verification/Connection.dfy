/** What a client reads off an RTSP connection that also carries its media: replies, and between them interleaved
    packets (section 10.12 of RFC 2326). */
module Connection {
  import opened Bytes
  import opened Rtp
  import opened RtspMessages
  import opened Wrappers

  /** What the server writes to the socket of a session. */
  datatype Item = Media(packet: Packet) | Answer(message: Message, ended: bool)
  {
    predicate Fits() {
      if Media? then packet.Fits() else Proper(message, ended)
    }

    function Bytes(): seq<byte>
      requires Fits()
    {
      if Media? then Frame(packet) else Text(message, ended)
    }
  }

  /** The same as the client understands it. */
  datatype Seen = Framed(packet: Packet) | Told(message: Message)

  function SeenAs(i: Item): Seen {
    if i.Media? then Framed(i.packet) else Told(i.message)
  }

  predicate AllFit(items: seq<Item>) {
    forall i <- items :: i.Fits()
  }

  function Stream(items: seq<Item>): seq<byte>
    requires AllFit(items)
  {
    if items == [] then [] else items[0].Bytes() + Stream(items[1..])
  }

  function AllSeen(items: seq<Item>): (seen: seq<Seen>)
    ensures |seen| == |items| && forall i :: 0 <= i < |items| ==> seen[i] == SeenAs(items[i])
  {
    if items == [] then [] else [SeenAs(items[0])] + AllSeen(items[1..])
  }

  /** One frame. */
  function ReadFrame(s: seq<byte>): (r: Option<(Packet, seq<byte>)>)
    ensures r.Some? ==> |r.value.1| < |s|
  {
    if |s| < PREFIX || s[1] != 0 then None
    else
      var n := FromBe16(s[2], s[3]);
      if |s| < PREFIX + n then None
      else match ReadDatagram(s[PREFIX..PREFIX + n])
        case None => None
        case Some(p) => Some((p, s[PREFIX + n..]))
  }

  /** A dollar sign starts a frame, anything else a message. */
  function ReadItem(s: seq<byte>): (r: Option<(Seen, seq<byte>)>)
    requires s != []
    ensures r.Some? ==> |r.value.1| < |s|
  {
    if s[0] == 0x24 then
      match ReadFrame(s)
      case None => None
      case Some((p, rest)) => Some((Framed(p), rest))
    else
      match ReadMessage(s)
      case None => None
      case Some((m, rest)) => Some((Told(m), rest))
  }

  function ReadAll(s: seq<byte>): Option<seq<Seen>>
    decreases |s|
  {
    if s == [] then Some([])
    else match ReadItem(s)
      case None => None
      case Some((seen, rest)) =>
        match ReadAll(rest)
        case None => None
        case Some(more) => Some([seen] + more)
  }

  function PacketsIn(seen: seq<Seen>): seq<Packet> {
    if seen == [] then [] else (if seen[0].Framed? then [seen[0].packet] else []) + PacketsIn(seen[1..])
  }

  // ----- one item

  lemma FrameRead(p: Packet, s: seq<byte>)
    requires p.Fits()
    ensures ReadItem(Frame(p) + s) == Some((Framed(p), s))
  {
    hide FromBe16, Frame, Datagram, ReadDatagram, ReadMessage;
    FrameParts(p, s);
    DatagramRoundTrip(p);
  }

  lemma ItemStarts(i: Item)
    requires i.Fits()
    ensures i.Bytes() != [] && i.Bytes()[0] != 13 && (i.Bytes()[0] == 0x24 <==> i.Media?)
  {
    hide Datagram, BodyLength;
    if i.Media? {
      assert Frame(i.packet)[0] == 0x24;
    } else {
      var l := i.message.lines[0];
      assert IsLine(l) && l[0] in l;
      assert Text(i.message, i.ended)[0] == l[0];
    }
  }

  /** An item is read back, whatever comes after it, unless it is a message without its empty line, of which the
      client takes the next item for a part. */
  lemma ItemRead(i: Item, s: seq<byte>)
    requires i.Fits() && !(CRLF <= s)
    ensures var r := ReadItem(i.Bytes() + s);
      && (r.Some? && r.value.0 == SeenAs(i) <==> i.Media? || i.ended)
      && (r.Some? && r.value.0 == SeenAs(i) ==> r.value.1 == s)
  {
    hide ReadMessage, Text, Proper, Frame, Datagram, ReadFrame;
    ItemStarts(i);
    if i.Media? {
      FrameRead(i.packet, s);
    } else {
      MessageRead(i.message, i.ended, s);
      MessageNext(Text(i.message, i.ended), s);
    }
  }

  lemma MessageNext(t: seq<byte>, s: seq<byte>)
    requires t != [] && t[0] != 0x24
    ensures ReadItem(t + s) == match ReadMessage(t + s) case None => None case Some((m, rest)) => Some((Told(m), rest))
  {
    hide ReadMessage, ReadFrame;
    assert (t + s)[0] == t[0];
  }

  // ----- the whole connection

  lemma {:induction false} StreamStarts(items: seq<Item>)
    requires AllFit(items)
    ensures !(CRLF <= Stream(items))
  {
    if items != [] {
      ItemStarts(items[0]);
      assert Stream(items)[0] == items[0].Bytes()[0];
    }
  }

  predicate AllEnded(items: seq<Item>) {
    forall i <- items :: i.Media? || i.ended
  }

  /** A client reads back every packet and every message, one by one, if and only if all messages have the empty
      line after their header. */
  lemma {:induction false} ReadsBack(items: seq<Item>)
    requires AllFit(items)
    ensures ReadAll(Stream(items)) == Some(AllSeen(items)) <==> AllEnded(items)
    decreases |items|
  {
    hide ReadItem, SeenAs;
    if items != [] {
      var rest := Stream(items[1..]);
      assert items[0] in items && forall i <- items[1..] :: i in items;
      StreamStarts(items[1..]);
      ItemStarts(items[0]);
      ItemRead(items[0], rest);
      ReadsBack(items[1..]);
      ReadOne(items[0].Bytes() + rest, SeenAs(items[0]), AllSeen(items[1..]));
      assert forall i :: i in items <==> i == items[0] || i in items[1..];
    }
  }

  lemma {:induction false} ReadOne(t: seq<byte>, a: Seen, more: seq<Seen>)
    requires t != []
    ensures ReadAll(t) == Some([a] + more) <==>
      ReadItem(t).Some? && ReadItem(t).value.0 == a && ReadAll(ReadItem(t).value.1) == Some(more)
  {
    hide ReadItem;
    if ReadItem(t).Some? && ReadAll(ReadItem(t).value.1).Some? {
      var b, others := ReadItem(t).value.0, ReadAll(ReadItem(t).value.1).value;
      assert ([a] + more)[0] == a && ([a] + more)[1..] == more;
      assert ([b] + others)[0] == b && ([b] + others)[1..] == others;
    }
  }
}
