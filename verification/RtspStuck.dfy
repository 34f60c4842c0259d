/** When CRtspSession::ParseRtspRequest of src/CRtspSession.cpp does not return. */
module RtspStuck {
  import opened RtspParser
  import opened RtspRequest
  import opened RtspUrl

  // ----- the loop over Transport parameters

  /** The first CR, before the text ends, is not followed by LF. */
  predicate BareCR(t: string) {
    !Ended(t) && if t[0] == '\r' then Hd(t, 1) != '\n' else BareCR(t[1..])
  }

  /** Up to the first CR no part starts with client_port= and then something other than a digit. A part starts at
      the first character that is not white space: of the text, if `start` holds, and after each semicolon. */
  predicate PortsGood(t: string, start: bool) {
    if Ended(t) || t[0] == '\r' then true
    else if t[0] == ';' then PortsGood(t[1..], true)
    else if IsBlank(t[0]) then PortsGood(t[1..], start)
    else (start && "client_port=" <= t ==> IsDigit(Hd(t, 12))) && PortsGood(t[1..], false)
  }

  predicate ParamsHang(t: string) {
    BareCR(t) && PortsGood(t, true)
  }

  lemma {:induction false} HangPastSeparators(t: string)
    ensures ParamsHang(t) <==> ParamsHang(Rest(t, Separator))
  {
    if t != "" && In(t[0], Separator) {
      assert Rest(t, Separator) == Rest(t[1..], Separator);
      HangPastSeparators(t[1..]);
    } else {
      assert Rest(t, Separator) == t;
    }
  }

  lemma {:induction false} HangPastPart(u: string, start: bool)
    requires NextPart(u) < |u|
    ensures BareCR(u) <==> BareCR(u[NextPart(u)..])
    ensures !start || NextPart(u) == 0 ==> (PortsGood(u, start) <==> PortsGood(u[NextPart(u)..], true))
  {
    if NextPart(u) > 0 {
      HangPastPart(u[1..], start);
      assert u[1..][NextPart(u[1..])..] == u[NextPart(u)..];
    } else {
      assert u[0..] == u;
    }
  }

  lemma {:induction false} NoPart(u: string)
    requires NextPart(u) == |u|
    ensures !BareCR(u)
  {
    if !Ended(u) { NoPart(u[1..]); }
  }

  lemma {:induction false} HangAtPart(u: string)
    requires !Ended(u) && !In(u[0], Separator) && 0 < NextPart(u) < |u|
    ensures ParamsHang(u) <==>
      ("client_port=" <= u ==> Skip(u[12..], Digit) > 0) && ParamsHang(u[NextPart(u)..])
  {
    PartTail(u);
    hide NextPart, Skip, BareCR;
    HangPastPart(u[1..], false);
    if "client_port=" <= u { FigureAt(u, 12); }
  }

  lemma {:induction false} PartTail(u: string)
    requires 0 < NextPart(u) < |u|
    ensures NextPart(u[1..]) == NextPart(u) - 1 && u[1..][NextPart(u) - 1..] == u[NextPart(u)..]
    ensures BareCR(u) <==> BareCR(u[1..])
  {
  }

  lemma FigureAt(u: string, i: nat)
    requires i <= |u|
    ensures Skip(u[i..], Digit) > 0 <==> IsDigit(Hd(u, i))
  {
    assert Hd(u[i..], 0) == Hd(u, i);
  }

  /** The loop over sub-parameters never ends if and only if the first CR it meets is a bare one and no port in
      front of it makes the parser give up. */
  lemma {:induction false} ParamsStuck(f: Fields, t: string)
    ensures Params(f, t).verdict.Stuck? <==> ParamsHang(t)
    decreases |t|
  {
    hide Skip, NextPart, PortOf, Params, ParamsHang;
    var u := Rest(t, Separator);
    ParamsTurn(f, t, u);
    HangPastSeparators(t);
    SeparatorsSkipped(t);
    if Ended(u) || "\r\n" <= u {
      assert !ParamsHang(u) by { NoHang(u); }
    } else {
      var n := NextPart(u);
      if n == |u| {
        assert !ParamsHang(u) by { NoPart(u); NoHangWithoutCR(u); }
      } else if n == 0 {
        HangHere(u);
      } else {
        HangAtPart(u);
        var g :=
          if "client_port=" <= u then f.(rtpPort := PortOf(u[12..]), rtcpPort := (PortOf(u[12..]) + 1) % 0x1_0000)
          else f;
        ParamsStuck(g, u[n..]);
      }
    }
  }

  lemma SeparatorsSkipped(t: string)
    ensures var u := Rest(t, Separator); u != "" ==> !In(u[0], Separator)
  {
  }

  lemma NoHang(u: string)
    requires Ended(u) || "\r\n" <= u
    ensures !ParamsHang(u)
  {
  }

  lemma {:induction false} NoHangWithoutCR(u: string)
    requires !BareCR(u)
    ensures !ParamsHang(u)
  {
  }

  lemma {:induction false} HangHere(u: string)
    requires !Ended(u) && !("\r\n" <= u) && !In(u[0], Separator) && NextPart(u) == 0
    ensures ParamsHang(u) && !("client_port=" <= u)
  {
    assert u[0] == '\r';
    assert Hd(u, 1) == '\n' ==> "\r\n" <= u;
  }

  // ----- the whole parser

  /** A Transport line, after its name. */
  predicate TransportHangs(t: string) {
    var u := Rest(t, Space);
    "RTP/AVP" <= u && ParamsHang(if "/TCP" <= u[7..] then u[11..] else u[7..])
  }

  lemma TransportStuck(f: Fields, t: string)
    ensures ParseTransport(f, t).verdict.Stuck? <==> TransportHangs(t)
  {
    hide Params, ParamsHang, Rest;
    var u := Rest(t, Space);
    if "RTP/AVP" <= u {
      var tcp := "/TCP" <= u[7..];
      ParamsStuck(f.(tcp := tcp, rtpPort := 0), if tcp then u[11..] else u[7..]);
    }
  }

  /** A header line, from its first character on: only a Transport line of a SETUP can hang the parser. */
  predicate LineHangs(setup: bool, u: string) {
    && setup && !("CSeq:" <= u) && !("Content-Length:" <= u)
    && "Transport:" <= Glue(u) && TransportHangs(Glue(u)[10..])
  }

  lemma LineStuck(f: Fields, setup: bool, u: string, slack: int)
    ensures var r := HeaderLine(f, setup, u, slack); r.Stop? && r.verdict.Stuck? <==> LineHangs(setup, u)
  {
    hide Numeric, Glue, ParseTransport, TransportHangs, Rest;
    if "Transport:" <= Glue(u) { TransportStuck(f, Glue(u)[10..]); }
  }

  /** The line that ends the loop over header lines hangs. */
  predicate HeadersHang(f: Fields, setup: bool, t: string, slack: int)
    decreases |t|
  {
    match OneLine(f, setup, t, slack)
    case Stop(_, _) =>
      var u := Drop(t[LineEnd(t)..], 2);
      !Ended(t[LineEnd(t)..]) && !Ended(u) && LineHangs(setup, u)
    case More(g, rest) => HeadersHang(g, setup, rest, slack)
  }

  lemma {:induction false} HeadersStuck(f: Fields, setup: bool, t: string, slack: int)
    ensures Headers(f, setup, t, slack).0.Stuck? <==> HeadersHang(f, setup, t, slack)
    decreases |t|
  {
    hide LineEnd, Drop, HeaderLine, LineHangs;
    match OneLine(f, setup, t, slack)
    case More(g, rest) =>
      HeadersStuck(g, setup, rest, slack);
    case Stop(_, _) =>
      if !Ended(t[LineEnd(t)..]) && !Ended(Drop(t[LineEnd(t)..], 2)) {
        LineStuck(f, setup, Drop(t[LineEnd(t)..], 2), slack);
      }
  }

  /** The parser never returns if and only if the URL is in order and the header line that its loop ends at is a
      Transport line of a SETUP whose parameters hang. */
  lemma {:induction false} ParserStuck(f: Fields, setup: bool, t: string, slack: int)
    ensures var target := ParseTarget(t);
      Parse(f, setup, t, slack).0.Stuck? <==>
        target.ok && HeadersHang(f.(host := target.host, presentation := target.presentation,
                                    stream := target.stream, contentLength := 0), setup, target.rest, slack)
  {
    hide ParseTarget, Headers, HeadersHang;
    var target := ParseTarget(t);
    HeadersStuck(f.(host := target.host, presentation := target.presentation, stream := target.stream,
                    contentLength := 0), setup, target.rest, slack);
  }

  // ----- one that hangs, one that does not

  const BARE := ";x\ry\r\n\r\n"

  /** Transport: RTP/AVP;x, a CR, y, and an empty line. */
  const HANGING := "Transport:" + (" " + ("RTP/AVP" + BARE))

  lemma GlueBare()
    ensures Glue(BARE) == BARE
  {
    GlueStop("\r\n\r\n");
    GluePlain("y", "\r\n\r\n");
    var w := "\ry\r\n\r\n";
    assert w[1..] == "y" + "\r\n\r\n";
    assert Glue(w) == w;
    assert BARE == ";x" + w;
    GluePlain(";x", w);
  }

  lemma BareHangs()
    ensures ParamsHang(BARE)
  {
    var t := BARE;
    assert t[1..] == "x\ry\r\n\r\n" && t[1..][1..] == "\ry\r\n\r\n";
    assert BareCR(t[1..][1..]) && BareCR(t[1..]);
    assert PortsGood(t[1..][1..], false) && PortsGood(t[1..], true);
  }

  lemma HangingLine()
    ensures LineHangs(true, HANGING)
  {
    GlueBare();
    BareHangs();
    TransportLineHangs(BARE);
  }

  lemma {:induction false} TransportLineHangs(x: string)
    requires Glue(x) == x && x != "" && x[0] == ';' && ParamsHang(x)
    ensures LineHangs(true, "Transport:" + (" " + ("RTP/AVP" + x)))
  {
    hide Glue, ParamsHang, TransportHangs;
    AvpHangs(x);
    GluePlain("RTP/AVP", x);
    GluePlain(" ", "RTP/AVP" + x);
    GluePlain("Transport:", " " + ("RTP/AVP" + x));
    Named("Transport:", " " + ("RTP/AVP" + x));
    assert ("Transport:" + (" " + ("RTP/AVP" + x)))[0] == 'T';
  }

  lemma AvpHangs(x: string)
    requires x != "" && x[0] == ';' && ParamsHang(x)
    ensures TransportHangs(" " + ("RTP/AVP" + x))
  {
    hide ParamsHang, Rest;
    SkipOver(" ", "RTP/AVP" + x, Space);
    Named("RTP/AVP", x);
    assert !("/TCP" <= x);
  }

  /** A SETUP request on which the parser never returns, whatever the session holds and the parser is told:
      SETUP rtsp://h/live/1 RTSP/1.0, and that line. */
  lemma HangingSetup(f: Fields, slack: int)
    ensures var r := Request("SETUP", CommonUrl("h", "live", "1"), []);
      Parse(f, true, AfterRequestLine(r, "\r\n" + HANGING), slack).0.Stuck?
  {
    var w, r := "\r\n" + HANGING, Request("SETUP", CommonUrl("h", "live", "1"), []);
    assert AfterRequestLine(r, w) == r.name + UrlText(r.url, w);
    hide HANGING, LineHangs, AfterRequestLine, ParseTarget, Good, EndsLine, Parse, HeadersHang, UrlText, UrlShape;
    hide CommonUrl;
    HangingStart();
    GoodShape(r);
    HangingLine();
    TargetRead(r.name, r.url, w);
    HeadersAtLine(WithUrl(f, r), w, slack);
    ParserStuck(f, true, AfterRequestLine(r, w), slack);
  }

  lemma HangingStart()
    ensures Good(Request("SETUP", CommonUrl("h", "live", "1"), [])) && EndsLine("\r\n" + HANGING)
    ensures ("\r\n" + HANGING)[2] != NUL && ("\r\n" + HANGING)[2..] == HANGING
  {
    assert HANGING[0] == 'T';
  }

  lemma {:induction false} HeadersAtLine(f: Fields, w: string, slack: int)
    requires EndsLine(w) && w[2] != NUL && LineHangs(true, w[2..])
    ensures HeadersHang(f, true, w, slack)
  {
    assert LineEnd(w) == 0 && w[0..] == w && Drop(w, 2) == w[2..];
    LineStuck(f, true, w[2..], slack);
    hide LineHangs, HeaderLine;
  }

  lemma {:induction false} OneX(f: Fields, w: string)
    requires EndsLine(w)
    ensures Params(f, ";x" + w) == Fetched(Accepted, f, w)
  {
    hide Params, Rest;
    assert GapText([], false) == "";
    assert ";x" == ";" + GapText([], false) + ParamText(Other("x"));
    OneParam(f, [], Other("x"), w);
    ParamsStop(f, w);
  }

  lemma {:induction false} SkippedCR(f: Fields, x: string)
    requires x != "" && x[0] == ';'
    ensures ParseTransport(f, "\r" + ("RTP/AVP" + x)) == Params(f.(tcp := false, rtpPort := 0), x)
  {
    hide Params, Rest;
    SkipOver("\r", "RTP/AVP" + x, Space);
    Named("RTP/AVP", x);
    assert !("/TCP" <= x);
  }

  /** Not every CR without LF does harm: one in front of the protocol is skipped as white space. */
  lemma HarmlessCR(f: Fields)
    ensures ParseTransport(f, "\r" + ("RTP/AVP" + (";x" + "\r\n\r\n"))).verdict.Accepted?
  {
    var w := "\r\n\r\n";
    OneX(f.(tcp := false, rtpPort := 0), w);
    SkippedCR(f, ";x" + w);
  }
}
