/** The replies of src/CRtspSession.cpp. */
module RtspReplies {
  import opened Bytes
  import opened RtspMessages
  import opened RtspParser
  import opened RtspRequest
  import opened Wrappers

  // ----- what is replied

  datatype Reply =
    | Capabilities(cseq: nat)
    | NotFound(cseq: nat)
    | Described(cseq: nat, host: string, presentation: string, stream: string)
    | Prepared(cseq: nat, tcp: bool, rtpPort: nat, rtcpPort: nat)
    | Playing(cseq: nat)
    | BadRequest(cseq: nat)

  /** What replies take from elsewhere: the date, the session's number, the streamer's ports. */
  datatype Words = Words(date: string, session: string, serverRtp: nat, serverRtcp: nat)
  {
    predicate Plain() { PlainText(date) && PlainText(session) }
  }

  /** Words without NUL, CR or LF, as dates and numbers are. */
  type PlainWords = w: Words | w.Plain() witness Words("", "", 0, 0)

  const URI_PRESENTATION := "live"
  const URI_STREAM := "1"

  /** The first line. */
  function Status(r: Reply): string {
    match r
    case NotFound(_) => "RTSP/1.0 404 Stream Not Found"
    case BadRequest(_) => "RTSP/1.0 400 Bad Request"
    case _ => "RTSP/1.0 200 OK"
  }

  /** The longest line that takes nothing from elsewhere, if there is one. */
  function Fixed(r: Reply): string {
    match r
    case Capabilities(_) => "Public: DESCRIBE, SETUP, " + "TEARDOWN, PLAY, PAUSE"
    case Described(_, _, _, _) => "Content-Type: application/sdp"
    case Playing(_) => "RTP-Info: url=rtsp://" + ("127.0.0.1:554" + "/live/1/track1")
    case _ => ""
  }

  /** A description of the stream. */
  function Description(r: Reply): seq<string> {
    if !r.Described? then [] else
      ["v=0", "o=- 0 0 IN IP4 127.0.0.1", "i=H.265", "m=video 1234 RTP/AVP 96", "a=rtpmap:96 H265/90000",
       "a=framerate:10", "c=IN IP4 0.0.0.0", "s=Video Streaming"]
  }

  function Terminated(lines: seq<string>): string {
    if lines == [] then "" else lines[0] + "\r\n" + Terminated(lines[1..])
  }

  function Body(r: Reply): string {
    Terminated(Description(r))
  }

  const BASE := "Content-Base: rtsp://"
  const RANGE := "Range: npt=0.000-"

  /** The transport agreed on in a SETUP. */
  function TransportText(r: Reply, w: Words): string
    requires r.Prepared?
  {
    if r.tcp then "RTP/AVP/TCP;unicast;" + "interleaved=0-1"
    else UDP_TRANSPORT + ("client_port=" + PortsText(r.rtpPort, r.rtcpPort) + ";server_port="
                          + PortsText(w.serverRtp, w.serverRtcp))
  }

  const UDP_TRANSPORT := "RTP/AVP;unicast;" + ("destination=127.0.0.1;" + "source=127.0.0.1;")

  function PortsText(rtp: nat, rtcp: nat): string {
    Decimal(rtp) + "-" + Decimal(rtcp)
  }

  /** The lines of a reply's header. */
  function Lines(r: Reply, w: Words): seq<string> {
    match r
    case Capabilities(cseq) => [Status(r), "CSeq: " + Decimal(cseq), Fixed(r)]
    case NotFound(cseq) => [Status(r), "CSeq: " + Decimal(cseq), "Date: " + w.date]
    case Described(cseq, host, presentation, stream) =>
      [Status(r), "CSeq: " + Decimal(cseq), "Date: " + w.date,
       BASE + host + "/" + presentation + "/" + stream + "/",
       Fixed(r), LENGTH + Decimal(|Body(r)|)]
    case Prepared(cseq, _, _, _) =>
      [Status(r), "CSeq: " + Decimal(cseq), "Date: " + w.date, "Transport: " + TransportText(r, w),
       "Session: " + w.session]
    case Playing(cseq) =>
      [Status(r), "CSeq: " + Decimal(cseq), "Date: " + w.date, RANGE, "Session: " + w.session, Fixed(r)]
    case BadRequest(cseq) => [Status(r), "CSeq: " + Decimal(cseq)]
  }

  function MessageOf(r: Reply, w: Words): Message {
    Message(AllOctets(Lines(r, w)), Octets(Body(r)))
  }

  /** The header of a 404 reply lacks the empty line that ends it. */
  predicate HasEnd(r: Reply) {
    !r.NotFound?
  }

  // ----- what a client finds in it

  function StatusOf(lines: seq<string>): nat {
    if lines != [] && |lines[0]| >= 12 && "RTSP/1.0 " <= lines[0] then Value(lines[0][9..12]) else 0
  }

  /** What the first line with this name says. */
  function HeaderOf(lines: seq<string>, name: string): Option<string> {
    if lines == [] then None
    else if name <= lines[0] then Some(lines[0][|name|..])
    else HeaderOf(lines[1..], name)
  }

  lemma {:induction false} HeaderAt(lines: seq<string>, name: string, i: nat, text: string)
    requires i < |lines| && lines[i] == name + text && forall k :: 0 <= k < i ==> !(name <= lines[k])
    ensures HeaderOf(lines, name) == Some(text)
  {
    if i > 0 {
      HeaderAt(lines[1..], name, i - 1, text);
    } else {
      assert (name + text)[|name|..] == text;
    }
  }

  /** The status, and the number of the request that is answered. */
  lemma ReplyAnswers(r: Reply, w: Words)
    ensures StatusOf(Lines(r, w)) == if r.NotFound? then 404 else if r.BadRequest? then 400 else 200
    ensures HeaderOf(Lines(r, w), "CSeq: ") == Some(Decimal(r.cseq)) && Value(Decimal(r.cseq)) == r.cseq
  {
    StatusValue(r);
    PlainStatus(r);
    ValueOfDecimal(r.cseq);
    hide Status, Fixed, Body, Decimal, PlainText, Value, BASE, RANGE;
    HeaderAt(Lines(r, w), "CSeq: ", 1, Decimal(r.cseq));
  }

  lemma StatusValue(r: Reply)
    ensures |Status(r)| >= 12 && "RTSP/1.0 " <= Status(r)
    ensures Value(Status(r)[9..12]) == if r.NotFound? then 404 else if r.BadRequest? then 400 else 200
  {
    var s := Status(r);
    assert |s| >= 12 && s[..9] == "RTSP/1.0 ";
    assert s[9] == (if r.NotFound? || r.BadRequest? then '4' else '2');
    assert s[10] == '0' && s[11] == (if r.NotFound? then '4' else '0');
    hide Status, Value;
    ThreeDigits(s[9..12]);
  }

  lemma {:induction false} ThreeDigits(d: string)
    requires |d| == 3
    ensures Value(d) == 100 * DigitValue(d[0]) + 10 * DigitValue(d[1]) + DigitValue(d[2])
  {
    hide DigitValue;
    var e := d[..2];
    assert e[..1][..0] == "" && e[..1][0] == d[0] && e[1] == d[1];
    assert Value(e[..1]) == DigitValue(d[0]);
  }

  lemma Unlike(name: string, line: string, k: nat)
    requires k < |name| && k < |line| && name[k] != line[k]
    ensures !(name <= line)
  {
  }

  /** How the lines of a reply other than a 400 and of OPTIONS start. */
  lemma LinesStart(r: Reply, w: Words)
    ensures var ls := Lines(r, w);
      && |ls| >= 2 && |ls[0]| >= 12 && ls[0][0] == 'R' && ls[0][1] == 'T' && ls[1] == "CSeq: " + Decimal(r.cseq)
      && (!r.BadRequest? && !r.Capabilities? ==> |ls| >= 3 && ls[2] == "Date: " + w.date)
  {
    StatusValue(r);
    assert "RTSP/1.0 "[0] == 'R' && "RTSP/1.0 "[1] == 'T' && Status(r)[..9] == "RTSP/1.0 ";
    hide Status, Fixed, Body, Decimal, PlainText, BASE, RANGE;
  }

  /** None of these three lines has a name of another kind. */
  lemma NotAmong(r: Reply, w: Words, name: string)
    requires !r.BadRequest? && !r.Capabilities? && |name| >= 2
    requires name[0] != 'D' && (name[0] != 'R' || name[1] != 'T') && (name[0] != 'C' || name[1] != 'S')
    ensures forall k :: 0 <= k < 3 ==> !(name <= Lines(r, w)[k])
  {
    LinesStart(r, w);
    hide Lines, Decimal;
    var ls := Lines(r, w);
    assert ls[1][0] == 'C' && ls[1][1] == 'S' && ls[2][0] == 'D';
    Unlike(name, ls[0], if name[0] != 'R' then 0 else 1);
    Unlike(name, ls[1], if name[0] != 'C' then 0 else 1);
    Unlike(name, ls[2], 0);
  }

  /** The session and the transport of a SETUP. */
  lemma SetupSays(r: Reply, w: Words)
    requires r.Prepared?
    ensures HeaderOf(Lines(r, w), "Transport: ") == Some(
      if r.tcp then "RTP/AVP/TCP;unicast;" + "interleaved=0-1" else
        "RTP/AVP;unicast;" + ("destination=127.0.0.1;" + "source=127.0.0.1;")
        + ("client_port=" + (Decimal(r.rtpPort) + "-" + Decimal(r.rtcpPort))
           + ";server_port=" + (Decimal(w.serverRtp) + "-" + Decimal(w.serverRtcp))))
    ensures HeaderOf(Lines(r, w), "Session: ") == Some(w.session)
  {
    TransportSays(r, w);
    hide Status, Fixed, Body, Decimal, BASE, RANGE, TransportText;
    var ls := Lines(r, w);
    NotAmong(r, w, "Transport: ");
    NotAmong(r, w, "Session: ");
    Unlike("Session: ", ls[3], 0);
    HeaderAt(ls, "Transport: ", 3, TransportText(r, w));
    HeaderAt(ls, "Session: ", 4, w.session);
  }

  lemma TransportSays(r: Reply, w: Words)
    requires r.Prepared?
    ensures TransportText(r, w) ==
      if r.tcp then "RTP/AVP/TCP;unicast;" + "interleaved=0-1" else
        "RTP/AVP;unicast;" + ("destination=127.0.0.1;" + "source=127.0.0.1;")
        + ("client_port=" + (Decimal(r.rtpPort) + "-" + Decimal(r.rtcpPort))
           + ";server_port=" + (Decimal(w.serverRtp) + "-" + Decimal(w.serverRtcp)))
  {
    hide Decimal;
  }

  /** The session of a PLAY, and where it starts. */
  lemma PlaySays(r: Reply, w: Words)
    requires r.Playing?
    ensures HeaderOf(Lines(r, w), "Session: ") == Some(w.session)
    ensures HeaderOf(Lines(r, w), "Range: ") == Some("npt=0.000-")
  {
    assert RANGE == "Range: " + "npt=0.000-" && RANGE[0] == 'R';
    hide Status, Fixed, Body, Decimal, BASE, RANGE;
    var ls := Lines(r, w);
    NotAmong(r, w, "Session: ");
    NotAmong(r, w, "Range: ");
    Unlike("Session: ", ls[3], 0);
    HeaderAt(ls, "Session: ", 4, w.session);
    HeaderAt(ls, "Range: ", 3, "npt=0.000-");
  }

  /** The commands there are. */
  lemma OptionsSays(r: Reply, w: Words)
    requires r.Capabilities?
    ensures HeaderOf(Lines(r, w), "Public: ") == Some("DESCRIBE, SETUP, " + "TEARDOWN, PLAY, PAUSE")
  {
    assert Fixed(r) == "Public: " + ("DESCRIBE, SETUP, " + "TEARDOWN, PLAY, PAUSE");
    LinesStart(r, w);
    hide Status, Fixed, Body, Decimal;
    var ls := Lines(r, w);
    Unlike("Public: ", ls[0], 0);
    Unlike("Public: ", ls[1], 0);
    HeaderAt(ls, "Public: ", 2, "DESCRIBE, SETUP, " + "TEARDOWN, PLAY, PAUSE");
  }

  /** The URL that was asked for, and a description that announces the payload type of the packets, and their clock. */
  lemma DescribeSays(r: Reply, w: Words)
    requires r.Described?
    ensures HeaderOf(Lines(r, w), "Content-Base: ")
      == Some("rtsp://" + r.host + "/" + r.presentation + "/" + r.stream + "/")
    ensures HeaderOf(Lines(r, w), "Content-Type: ") == Some("application/sdp")
    ensures "m=video 1234 RTP/AVP 96" in Description(r) && "a=rtpmap:96 H265/90000" in Description(r)
  {
    hide Status, Fixed, Body, Decimal, BASE, RANGE, Description, HeaderOf;
    DescriptionSays(r);
    var url := "rtsp://" + r.host + "/" + r.presentation + "/" + r.stream + "/";
    FixedType(r);
    BaseUrl(r.host, r.presentation, r.stream);
    var ls := Lines(r, w);
    assert ls[3] == "Content-Base: " + url && ls[4] == "Content-Type: " + "application/sdp";
    NotAmong(r, w, "Content-Base: ");
    NotAmong(r, w, "Content-Type: ");
    hide Lines;
    NotBase(url);
    HeaderAt(ls, "Content-Base: ", 3, url);
    HeaderAt(ls, "Content-Type: ", 4, "application/sdp");
  }

  lemma FixedType(r: Reply)
    requires r.Described?
    ensures Fixed(r) == "Content-Type: " + "application/sdp"
  {
  }

  lemma NotBase(url: string)
    ensures !("Content-Type: " <= "Content-Base: " + url)
  {
    var l := "Content-Base: " + url;
    assert l[8] == "Content-Base: "[8] == 'B' && "Content-Type: "[8] == 'T';
    Unlike("Content-Type: ", l, 8);
  }

  lemma DescriptionSays(r: Reply)
    requires r.Described?
    ensures "m=video 1234 RTP/AVP 96" in Description(r) && "a=rtpmap:96 H265/90000" in Description(r)
  {
    assert Description(r)[3] == "m=video 1234 RTP/AVP 96" && Description(r)[4] == "a=rtpmap:96 H265/90000";
  }

  lemma BaseUrl(a: string, b: string, c: string)
    ensures BASE + a + "/" + b + "/" + c + "/" == "Content-Base: " + ("rtsp://" + a + "/" + b + "/" + c + "/")
  {
    assert BASE == "Content-Base: " + "rtsp://";
  }

  // ----- the lines of a reply

  predicate PlainReply(r: Reply) {
    r.Described? ==> PlainText(r.host) && PlainText(r.presentation) && PlainText(r.stream)
  }

  lemma {:induction false} PlainDecimal(n: nat)
    ensures PlainText(Decimal(n))
  {
  }

  lemma PlainNamed(name: string, x: string)
    requires name != "" && PlainText(name) && PlainText(x)
    ensures name + x != "" && PlainText(name + x)
  {
  }

  lemma PlainUrl(name: string, a: string, b: string, c: string)
    requires name != "" && PlainText(name) && PlainText(a) && PlainText(b) && PlainText(c)
    ensures name + a + "/" + b + "/" + c + "/" != "" && PlainText(name + a + "/" + b + "/" + c + "/")
  {
    assert PlainText("/");
    hide PlainText;
    PlainNamed(name, a);
    PlainNamed(name + a, "/");
    PlainNamed(name + a + "/", b);
    PlainNamed(name + a + "/" + b, "/");
    PlainNamed(name + a + "/" + b + "/", c);
    PlainNamed(name + a + "/" + b + "/" + c, "/");
  }

  /** The texts that do not vary. */
  lemma PlainStatus(r: Reply)
    ensures Status(r) != "" && PlainText(Status(r)) && Status(r)[0] == 'R'
  {
  }

  lemma PlainPortNames()
    ensures PlainText("client_port=") && PlainText(";server_port=")
  {
  }

  lemma PlainNames()
    ensures PlainText("CSeq: ") && PlainText("Date: ") && PlainText("Transport: ") && PlainText("Session: ")
    ensures PlainText(RANGE) && PlainText(BASE) && PlainText(LENGTH)
    ensures RANGE != "" && BASE != "" && LENGTH != ""
  {
  }

  predicate HasFixed(r: Reply) {
    r.Capabilities? || r.Described? || r.Playing?
  }

  lemma PlainFixed(r: Reply)
    requires HasFixed(r)
    ensures Fixed(r) != "" && PlainText(Fixed(r)) && Another(Fixed(r))
  {
    hide Fixed, PlainText, Another;
    match r
    case Capabilities(_) => PlainPublic(r);
    case Described(_, _, _, _) => PlainType(r);
    case Playing(_) => PlainInfo(r);
  }

  lemma PlainPublic(r: Reply)
    requires r.Capabilities?
    ensures Fixed(r) != "" && PlainText(Fixed(r)) && Another(Fixed(r))
  {
    assert PlainText("Public: DESCRIBE, SETUP, ") && PlainText("TEARDOWN, PLAY, PAUSE");
    assert Fixed(r)[0] == 'P' && LENGTH[0] == 'C';
    hide PlainText;
    PlainNamed("Public: DESCRIBE, SETUP, ", "TEARDOWN, PLAY, PAUSE");
  }

  lemma PlainType(r: Reply)
    requires r.Described?
    ensures Fixed(r) != "" && PlainText(Fixed(r)) && Another(Fixed(r))
  {
    assert Fixed(r)[8] == 'T' && LENGTH[8] == 'L';
  }

  lemma PlainInfo(r: Reply)
    requires r.Playing?
    ensures Fixed(r) != "" && PlainText(Fixed(r)) && Another(Fixed(r))
  {
    assert PlainText("RTP-Info: url=rtsp://") && PlainText("127.0.0.1:554") && PlainText("/live/1/track1");
    assert Fixed(r)[0] == 'R' && LENGTH[0] == 'C';
    hide PlainText;
    PlainNamed("127.0.0.1:554", "/live/1/track1");
    PlainNamed("RTP-Info: url=rtsp://", "127.0.0.1:554" + "/live/1/track1");
  }

  /** Only a description has a body. */
  lemma NoBody(r: Reply)
    requires !r.Described?
    ensures Body(r) == "" && Octets(Body(r)) == []
  {
  }

  lemma PlainPorts(rtp: nat, rtcp: nat)
    ensures PlainText(PortsText(rtp, rtcp))
  {
    PlainDecimal(rtp);
    PlainDecimal(rtcp);
    hide Decimal;
  }

  lemma PlainTransport(r: Reply, w: Words)
    requires r.Prepared?
    ensures PlainText(TransportText(r, w))
  {
    hide PortsText, UDP_TRANSPORT, PlainText;
    if r.tcp {
      PlainTcp();
    } else {
      PlainUdp();
      PlainPorts(r.rtpPort, r.rtcpPort);
      PlainPorts(w.serverRtp, w.serverRtcp);
      PlainPortNames();
      PlainNamed("client_port=", PortsText(r.rtpPort, r.rtcpPort));
      PlainNamed("client_port=" + PortsText(r.rtpPort, r.rtcpPort), ";server_port=");
      PlainNamed("client_port=" + PortsText(r.rtpPort, r.rtcpPort) + ";server_port=",
                 PortsText(w.serverRtp, w.serverRtcp));
      PlainNamed(UDP_TRANSPORT, "client_port=" + PortsText(r.rtpPort, r.rtcpPort) + ";server_port="
                                + PortsText(w.serverRtp, w.serverRtcp));
    }
  }

  lemma PlainTcp()
    ensures PlainText("RTP/AVP/TCP;unicast;" + "interleaved=0-1")
  {
    assert PlainText("RTP/AVP/TCP;unicast;") && PlainText("interleaved=0-1");
    hide PlainText;
    PlainNamed("RTP/AVP/TCP;unicast;", "interleaved=0-1");
  }

  lemma PlainUdpParts()
    ensures PlainText("RTP/AVP;unicast;") && PlainText("destination=127.0.0.1;") && PlainText("source=127.0.0.1;")
  {
  }

  lemma PlainUdp()
    ensures PlainText(UDP_TRANSPORT) && UDP_TRANSPORT != ""
  {
    PlainUdpParts();
    hide PlainText;
    PlainNamed("destination=127.0.0.1;", "source=127.0.0.1;");
    PlainNamed("RTP/AVP;unicast;", "destination=127.0.0.1;" + "source=127.0.0.1;");
  }

  lemma LinesPlain(r: Reply, w: Words)
    requires PlainReply(r) && w.Plain()
    ensures forall l <- Lines(r, w) :: l != "" && PlainText(l)
  {
    hide PlainText, Decimal, Body, Status, Fixed, Another, LENGTH, BASE, RANGE, TransportText;
    PlainStatus(r);
    if HasFixed(r) { PlainFixed(r); }
    PlainNames();
    PlainDecimal(r.cseq);
    PlainDecimal(|Body(r)|);
    PlainNamed("CSeq: ", Decimal(r.cseq));
    PlainNamed("Date: ", w.date);
    if r.Prepared? {
      PlainTransport(r, w);
      PlainNamed("Transport: ", TransportText(r, w));
    }
    PlainNamed("Session: ", w.session);
    PlainNamed(LENGTH, Decimal(|Body(r)|));
    if r.Described? { PlainUrl(BASE, r.host, r.presentation, r.stream); }
  }

  lemma LinesAreLines(r: Reply, w: Words)
    requires PlainReply(r) && w.Plain()
    ensures forall l <- MessageOf(r, w).lines :: IsLine(l)
  {
    LinesPlain(r, w);
    hide PlainText, Lines, Body;
    OctetsLines(Lines(r, w));
  }

  lemma {:induction false} OctetsLines(ls: seq<string>)
    requires forall l <- ls :: l != "" && PlainText(l)
    ensures forall l <- AllOctets(ls) :: IsLine(l)
  {
    hide IsLine, PlainText, Octets;
    forall l <- AllOctets(ls) ensures IsLine(l) {
      var i :| 0 <= i < |ls| && AllOctets(ls)[i] == l;
      assert ls[i] in ls;
      OctetsLine(ls[i]);
    }
  }

  lemma Others(r: Reply, w: Words)
    ensures Another(Status(r)) && Another(RANGE)
    ensures Another("CSeq: " + Decimal(r.cseq)) && Another("Date: " + w.date)
    ensures (r.Prepared? ==> Another("Transport: " + TransportText(r, w))) && Another("Session: " + w.session)
    ensures r.Described? ==> Another(BASE + r.host + "/" + r.presentation + "/" + r.stream + "/")
  {
    hide Decimal, Status, PlainText, TransportText;
    PlainStatus(r);
    assert LENGTH[0] == 'C' && LENGTH[1] == 'o' && LENGTH[8] == 'L';
    assert RANGE[0] == 'R';
    assert ("CSeq: " + Decimal(r.cseq))[1] == 'S' && ("Date: " + w.date)[0] == 'D';
    assert r.Prepared? ==> ("Transport: " + TransportText(r, w))[0] == 'T';
    assert ("Session: " + w.session)[0] == 'S';
    if r.Described? {
      assert (BASE + r.host + "/" + r.presentation + "/" + r.stream + "/")[8] == BASE[8] == 'B';
    }
  }

  lemma BodyOf(r: Reply, w: Words)
    ensures BodyLength(MessageOf(r, w).lines) == |MessageOf(r, w).body|
  {
    hide Another, BodyLength, AllOctets, Octets, Body, Decimal, Status, Fixed, RANGE, BASE, PlainText;
    hide TransportText;
    Others(r, w);
    if HasFixed(r) { PlainFixed(r); }
    if !r.Described? { NoBody(r); }
    var ls := Lines(r, w);
    if r.Described? {
      assert ls == ls[..5] + [LENGTH + Decimal(|Body(r)|)];
      NoLength(ls[..5], [LENGTH + Decimal(|Body(r)|)]);
      LengthRead(|Body(r)|);
    } else {
      assert ls + [] == ls;
      NoLength(ls, []);
      assert BodyLength(AllOctets([])) == 0 by { NothingLong(); }
    }
  }

  /** Every reply is a proper message but for that. */
  lemma ReplyProper(r: Reply, w: Words)
    requires PlainReply(r) && w.Plain()
    ensures Proper(MessageOf(r, w), HasEnd(r))
  {
    hide Lines, BodyLength, IsLine, Octets, Body, PlainText;
    if !r.Described? { NoBody(r); }
    LinesAreLines(r, w);
    BodyOf(r, w);
    FirstLine(r, w);
  }

  lemma FirstLine(r: Reply, w: Words)
    ensures MessageOf(r, w).lines != [] && MessageOf(r, w).lines[0] != [] && MessageOf(r, w).lines[0][0] != 0x24
  {
    hide Octets, Body, Decimal, Status, Fixed, PlainText;
    var ls := Lines(r, w);
    PlainStatus(r);
    assert ls != [] && ls[0] == Status(r);
    hide Lines;
    StartsWithR(ls[0]);
  }

  lemma {:induction false} StartsWithR(s: string)
    requires s != "" && s[0] == 'R'
    ensures Octets(s) != [] && Octets(s)[0] != 0x24
  {
    OctetValue('R');
    assert Val(0x24) == 0x24;
  }
}
