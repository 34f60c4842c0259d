/** Requests as a client writes them (sections 6 and 10 of RFC 2326), and what the parser gets out of them. */
module RtspRequest {
  import opened RtspParser
  import opened RtspUrl
  import opened Sequences
  import opened Wrappers

  // ----- decimal numbers

  function Figure(d: nat): (c: char)
    requires d < 10
    ensures IsDigit(c) && DigitValue(c) == d
  {
    '0' + d as char
  }

  function Decimal(n: nat): (s: string)
    ensures s != "" && forall c <- s :: IsDigit(c)
  {
    if n < 10 then [Figure(n)] else Decimal(n / 10) + [Figure(n % 10)]
  }

  lemma {:induction false} ValueOfDecimal(n: nat)
    ensures Value(Decimal(n)) == n
  {
    var s := Decimal(n);
    if n < 10 {
      assert s[..0] == "";
    } else {
      ValueOfDecimal(n / 10);
      assert s[..|s| - 1] == Decimal(n / 10);
    }
  }

  // ----- requests

  /** White space in a header: a blank, or a line break with the blank that continues the header. */
  datatype Gap = Blank(c: char) | Fold(c: char)

  datatype Param = ClientPort(port: nat, tail: string) | NoPort(tail: string) | Other(text: string)

  /** A header line, without its CRLF. What follows `text` in other headers may continue over several lines. The lines
      that are not in order: a number that is none, and a transport other than RTP/AVP. */
  datatype Line =
    | CSeqLine(pad: string, n: nat, tail: string)
    | LengthLine(pad: string, n: nat, tail: string)
    | NoNumber(name: string, pad: string, text: string)
    | TransportLine(lead: seq<Gap>, tcp: bool, params: seq<(seq<Gap>, Param)>)
    | OddTransport(lead: seq<Gap>, text: string)
    | OtherLine(text: string, more: seq<(Gap, string)>)

  datatype Request = Request(name: string, url: Url, lines: seq<Line>)

  predicate PlainText(s: string) {
    forall c <- s :: c != NUL && c != '\r' && c != '\n'
  }

  predicate NoDigit(s: string) {
    PlainText(s) && !IsDigit(Hd(s, 0))
  }

  predicate GoodParam(p: Param) {
    match p
    case ClientPort(_, tail) => NoDigit(tail) && ';' !in tail
    case NoPort(tail) => NoDigit(tail) && ';' !in tail
    case Other(text) =>
      text != "" && PlainText(text) && ';' !in text && !SpaceOrTab(text[0]) && !("client_port=" <= text)
  }

  predicate GoodLine(l: Line) {
    match l
    case CSeqLine(pad, _, tail) => Blanks(pad) && NoDigit(tail)
    case LengthLine(pad, _, tail) => Blanks(pad) && NoDigit(tail)
    case NoNumber(name, pad, text) =>
      (name == "CSeq:" || name == "Content-Length:") && Blanks(pad) && NoDigit(text) && !SpaceOrTab(Hd(text, 0))
    case TransportLine(lead, _, params) => GoodGaps(lead) && forall p <- params :: GoodParam(p.1) && GoodGaps(p.0)
    case OddTransport(lead, text) =>
      GoodGaps(lead) && text != "" && PlainText(text) && !White(text[0]) && !("RTP/AVP" <= text)
    case OtherLine(text, more) =>
      && text != "" && PlainText(text) && !SpaceOrTab(text[0])
      && !("CSeq:" <= text) && !("Content-Length:" <= text) && !("Transport:" <= text)
      && forall m <- more :: SpaceOrTab(m.0.c) && PlainText(m.1)
  }

  predicate GoodGaps(gs: seq<Gap>) {
    forall g <- gs :: SpaceOrTab(g.c)
  }

  predicate Blanks(s: string) {
    forall c <- s :: SpaceOrTab(c)
  }

  /** The name of a command, known or not. */
  predicate GoodName(name: string) {
    |name| <= 19 && PlainText(name) && forall c <- name :: !SpaceOrTab(c)
  }

  /** On one line, and with parts that leave room for the NUL behind them. */
  predicate GoodUrl(u: Url) {
    && SchemeShape(u.scheme) && PathShape(u) && |u.host| < 56 && |u.presentation| < 50 && |u.stream| < 50
    && Whites(u.before) && PlainText(u.before) && u.before != "" && u.before[0] == ' ' && PlainText(u.after)
  }

  predicate Good(r: Request) {
    GoodName(r.name) && GoodUrl(r.url) && forall l <- r.lines :: GoodLine(l)
  }

  /** A line that the parser has to refuse: no number, in a SETUP no RTP transport, or a client_port without a port. */
  predicate Faulty(l: Line, setup: bool) {
    || l.NoNumber?
    || (setup && l.OddTransport?)
    || (setup && l.TransportLine? && exists p <- l.params :: p.1.NoPort?)
  }

  predicate Sound(ls: seq<Line>, setup: bool) {
    forall l <- ls :: !Faulty(l, setup)
  }

  /** With `folded` false, as the line looks once its continuations are glued. */
  function GapText(gs: seq<Gap>, folded: bool): string {
    if gs == [] then "" else
      (match gs[0]
       case Blank(c) => [c]
       case Fold(c) => (if folded then "\r\n" else "  ") + [c])
        + GapText(gs[1..], folded)
  }

  function ParamText(p: Param): string {
    match p
    case ClientPort(port, tail) => "client_port=" + Decimal(port) + tail
    case NoPort(tail) => "client_port=" + tail
    case Other(text) => text
  }

  function ParamsText(ps: seq<(seq<Gap>, Param)>, folded: bool): string {
    if ps == [] then "" else ";" + GapText(ps[0].0, folded) + ParamText(ps[0].1) + ParamsText(ps[1..], folded)
  }

  function NumberText(pad: string, n: nat): string {
    pad + Decimal(n)
  }

  function MoreText(ms: seq<(Gap, string)>, folded: bool): string {
    if ms == [] then "" else GapText([ms[0].0], folded) + ms[0].1 + MoreText(ms[1..], folded)
  }

  function Protocol(tcp: bool): string {
    if tcp then "RTP/AVP/TCP" else "RTP/AVP"
  }

  function LineContent(l: Line, folded: bool): string {
    match l
    case CSeqLine(pad, n, tail) => "CSeq:" + (NumberText(pad, n) + tail)
    case LengthLine(pad, n, tail) => "Content-Length:" + (NumberText(pad, n) + tail)
    case NoNumber(name, pad, text) => name + (pad + text)
    case TransportLine(lead, tcp, params) =>
      "Transport:" + (GapText(lead, folded) + (Protocol(tcp) + ParamsText(params, folded)))
    case OddTransport(lead, text) => "Transport:" + (GapText(lead, folded) + text)
    case OtherLine(text, more) => text + MoreText(more, folded)
  }

  /** From the end of the request line on: each line after a CRLF, then the empty line. */
  function LinesText(ls: seq<Line>): string {
    "\r\n" + if ls == [] then "\r\n" else LineContent(ls[0], true) + LinesText(ls[1..])
  }

  /** The request line, with what follows it. */
  function AfterRequestLine(r: Request, w: string): string {
    r.name + UrlText(r.url, w)
  }

  function Render(r: Request): string {
    AfterRequestLine(r, LinesText(r.lines))
  }

  // ----- what the lines say

  /** What is made of lines, up to the one that is refused, if any. */
  datatype LinesRead = LinesRead(ok: bool, fields: Fields)

  /** A port, and the next one, as 16-bit numbers. */
  function WithPort(f: Fields, port: nat): Fields {
    f.(rtpPort := port % 65536, rtcpPort := (port + 1) % 65536)
  }

  function ApplyParams(f: Fields, ps: seq<(seq<Gap>, Param)>): LinesRead
    decreases |ps|
  {
    if ps == [] then LinesRead(true, f)
    else match ps[0].1
      case ClientPort(port, _) => ApplyParams(WithPort(f, port), ps[1..])
      case NoPort(_) => LinesRead(false, f)
      case Other(_) => ApplyParams(f, ps[1..])
  }

  /** Only a SETUP takes its transport from a line. */
  function ApplyLine(f: Fields, setup: bool, l: Line): LinesRead {
    match l
    case CSeqLine(_, n, _) => LinesRead(true, f.(cseq := n))
    case LengthLine(_, n, _) => LinesRead(true, f.(contentLength := n))
    case NoNumber(_, _, _) => LinesRead(false, f)
    case TransportLine(_, tcp, params) =>
      if setup then ApplyParams(f.(tcp := tcp, rtpPort := 0), params) else LinesRead(true, f)
    case OddTransport(_, _) => LinesRead(!setup, f)
    case OtherLine(_, _) => LinesRead(true, f)
  }

  function ApplyLines(f: Fields, setup: bool, ls: seq<Line>): LinesRead
    decreases |ls|
  {
    if ls == [] then LinesRead(true, f) else
      var r := ApplyLine(f, setup, ls[0]);
      if r.ok then ApplyLines(r.fields, setup, ls[1..]) else r
  }

  lemma {:induction false} ParamsSound(f: Fields, ps: seq<(seq<Gap>, Param)>)
    ensures ApplyParams(f, ps).ok <==> forall p <- ps :: !p.1.NoPort?
    decreases |ps|
  {
    if ps != [] {
      assert forall p :: p in ps <==> p == ps[0] || p in ps[1..];
      match ps[0].1 {
        case ClientPort(port, _) => ParamsSound(WithPort(f, port), ps[1..]);
        case NoPort(_) =>
        case Other(_) => ParamsSound(f, ps[1..]);
      }
    }
  }

  lemma LineSound(f: Fields, setup: bool, l: Line)
    ensures ApplyLine(f, setup, l).ok <==> !Faulty(l, setup)
  {
    if l.TransportLine? { ParamsSound(f.(tcp := l.tcp, rtpPort := 0), l.params); }
    hide ApplyParams;
  }

  /** Lines are read to their end exactly if none of them has to be refused. */
  lemma {:induction false} LinesSound(f: Fields, setup: bool, ls: seq<Line>)
    ensures ApplyLines(f, setup, ls).ok <==> Sound(ls, setup)
    decreases |ls|
  {
    hide ApplyLine, Faulty;
    if ls != [] {
      assert forall l :: l in ls <==> l == ls[0] || l in ls[1..];
      LineSound(f, setup, ls[0]);
      LinesSound(ApplyLine(f, setup, ls[0]).fields, setup, ls[1..]);
    }
  }

  // ----- scanning concatenations

  lemma {:induction false} NextPartOver(x: string, y: string)
    requires PlainText(x) && ';' !in x && y != "" && (y[0] == ';' || y[0] == '\r')
    ensures NextPart(x + y) == |x|
  {
    if x == "" {
      assert x + y == y;
    } else {
      assert x[0] in x && forall c <- x[1..] :: c in x;
      NextPartOver(x[1..], y);
      HeadTail(x, y);
    }
  }

  lemma PrefixOver(name: string, x: string, w: string)
    requires w != "" && w[0] !in name
    ensures name <= x + w <==> name <= x
  {
    if |name| <= |x| {
      assert (x + w)[..|name|] == x[..|name|];
    } else {
      assert (x + w)[|x|] == w[0] && name[|x|] != w[0];
    }
  }

  /** Text that a header line ends with: CRLF, then something that does not continue the line. */
  predicate EndsLine(w: string) {
    |w| >= 3 && w[0] == '\r' && w[1] == '\n' && !SpaceOrTab(w[2])
  }

  lemma {:induction false} GluePlain(x: string, w: string)
    requires PlainText(x)
    ensures Glue(x + w) == x + Glue(w)
  {
    if x == "" {
      assert x + w == w && x + Glue(w) == Glue(w);
    } else {
      assert x[0] in x && forall c <- x[1..] :: c in x;
      GluePlain(x[1..], w);
      HeadTail(x, w);
      Associative([x[0]], x[1..], Glue(w));
      assert [x[0]] + x[1..] == x;
    }
  }

  lemma {:induction false} GlueStop(w: string)
    requires EndsLine(w)
    ensures Glue(w) == w
  {
  }

  // ----- folding

  lemma {:induction false} GlueFold(c: char, w: string)
    requires SpaceOrTab(c)
    ensures Glue("\r\n" + [c] + w) == "  " + Glue([c] + w)
  {
    var t := "\r\n" + [c] + w;
    assert t[2..] == [c] + w;
  }

  lemma {:induction false} GlueGaps(gs: seq<Gap>, w: string)
    requires GoodGaps(gs)
    ensures Glue(GapText(gs, true) + w) == GapText(gs, false) + Glue(w)
  {
    hide Glue;
    if gs == [] {
      assert GapText(gs, true) + w == w && GapText(gs, false) + Glue(w) == Glue(w);
    } else {
      var c, a, b := gs[0].c, GapText(gs[1..], true), GapText(gs[1..], false);
      assert gs[0] in gs && forall g <- gs[1..] :: g in gs;
      GlueGaps(gs[1..], w);
      hide GapText;
      GluePlain([c], a + w);
      if gs[0].Fold? {
        GlueFold(c, a + w);
        Associative("\r\n" + [c], a, w);
        Associative("  ", [c], b + Glue(w));
        Associative("  " + [c], b, Glue(w));
      } else {
        Associative([c], a, w);
        Associative([c], b, Glue(w));
      }
    }
  }

  lemma ParamTextPlain(p: Param)
    requires GoodParam(p)
    ensures PlainText(ParamText(p)) && ';' !in ParamText(p)
  {
    assert PlainText("client_port=");
    if p.ClientPort? {
      var d := Decimal(p.port);
      assert PlainText(d) && ';' !in d;
    }
  }

  lemma Associative4(a: string, b: string, c: string, d: string, e: string)
    ensures a + b + c + d + e == a + (b + (c + (d + e)))
  {
    Associative(a + b + c, d, e);
    Associative(a + b, c, d + e);
    Associative(a, b, c + (d + e));
  }

  lemma {:induction false} GlueParams(ps: seq<(seq<Gap>, Param)>, w: string)
    requires forall p <- ps :: GoodParam(p.1) && GoodGaps(p.0)
    ensures Glue(ParamsText(ps, true) + w) == ParamsText(ps, false) + Glue(w)
  {
    hide Glue, GapText, ParamText, GoodParam;
    if ps == [] {
      assert ParamsText(ps, true) + w == w && ParamsText(ps, false) + Glue(w) == Glue(w);
    } else {
      var g, p := ps[0].0, ParamText(ps[0].1);
      var a, b := ParamsText(ps[1..], true), ParamsText(ps[1..], false);
      assert ps[0] in ps && forall q <- ps[1..] :: q in ps;
      GlueParams(ps[1..], w);
      ParamTextPlain(ps[0].1);
      GluePlain(p, a + w);
      GlueGaps(g, p + (a + w));
      GluePlain(";", GapText(g, true) + (p + (a + w)));
      hide ParamsText, PlainText;
      Associative4(";", GapText(g, true), p, a, w);
      Associative4(";", GapText(g, false), p, b, Glue(w));
    }
  }

  // ----- parameters

  lemma {:induction false} GapsSeparate(gs: seq<Gap>)
    requires GoodGaps(gs)
    ensures forall c <- GapText(gs, false) :: In(c, Separator)
  {
    if gs != [] {
      assert gs[0] in gs && forall g <- gs[1..] :: g in gs;
      GapsSeparate(gs[1..]);
    }
  }

  lemma ParamStarts(p: Param)
    requires GoodParam(p)
    ensures ParamText(p) != "" && !In(ParamText(p)[0], Separator) && ParamText(p)[0] != NUL
    ensures ParamText(p)[0] != '\r'
    ensures p.Other? ==> !("client_port=" <= ParamText(p))
  {
    ParamTextPlain(p);
    assert !p.Other? ==> ParamText(p)[0] == 'c';
    assert ParamText(p)[0] in ParamText(p);
  }

  lemma OtherNamed(text: string, w: string)
    requires !("client_port=" <= text) && w != "" && (w[0] == ';' || w[0] == '\r')
    ensures !("client_port=" <= text + w)
  {
    PrefixOver("client_port=", text, w);
  }

  lemma PortNamed(port: nat, tail: string, w: string)
    requires !IsDigit(Hd(tail, 0)) && w != "" && (w[0] == ';' || w[0] == '\r')
    ensures var u := ParamText(ClientPort(port, tail)) + w;
      "client_port=" <= u && Skip(u[12..], Digit) > 0 && PortOf(u[12..]) == port % 65536
  {
    hide Decimal, PortOf, Skip;
    var d := Decimal(port);
    Associative("client_port=" + d, tail, w);
    Associative("client_port=", d, tail + w);
    Named("client_port=", d + (tail + w));
    assert !IsDigit(Hd(tail + w, 0));
    PortRead(port, tail + w);
  }

  lemma NoPortNamed(tail: string, w: string)
    requires !IsDigit(Hd(tail, 0)) && w != "" && (w[0] == ';' || w[0] == '\r')
    ensures var u := ParamText(NoPort(tail)) + w; "client_port=" <= u && Skip(u[12..], Digit) == 0
  {
    Associative("client_port=", tail, w);
    Named("client_port=", tail + w);
    assert !IsDigit((tail + w)[0]);
  }

  lemma {:induction false} PortRead(port: nat, w: string)
    requires !IsDigit(Hd(w, 0))
    ensures Skip(Decimal(port) + w, Digit) > 0 && PortOf(Decimal(port) + w) == port % 65536
  {
    SkipOver(Decimal(port), w, Digit);
    ValueOfDecimal(port);
    assert (Decimal(port) + w)[..|Decimal(port)|] == Decimal(port);
  }

  lemma PartOver(f: Fields, sep: string, x: string, w: string)
    requires (forall c <- sep :: In(c, Separator)) && x != "" && !In(x[0], Separator) && x[0] != NUL && x[0] != '\r'
    requires w != "" && NextPart(x + w) == |x|
    ensures !("client_port=" <= x + w) ==> Params(f, sep + x + w) == Params(f, w)
    ensures "client_port=" <= x + w ==>
      var port := PortOf((x + w)[12..]);
      Params(f, sep + x + w) ==
        if Skip((x + w)[12..], Digit) == 0 then Fetched(Rejected, f, "")
        else Params(f.(rtpPort := port, rtcpPort := (port + 1) % 0x1_0000), w)
  {
    hide In, PortOf, Skip, NextPart, Params, Rest;
    var u := x + w;
    assert sep + x + w == sep + u && u[0] == x[0] && u[|x|..] == w;
    SkipOver(sep, u, Separator);
    ParamsTurn(f, sep + u, u);
  }

  /** One parameter. */
  lemma {:induction false} OneParam(f: Fields, gs: seq<Gap>, p: Param, w: string)
    requires GoodParam(p) && GoodGaps(gs) && w != "" && (w[0] == ';' || w[0] == '\r')
    ensures Params(f, ";" + GapText(gs, false) + ParamText(p) + w)
      == if p.NoPort? then Fetched(Rejected, f, "")
         else Params(if p.ClientPort? then WithPort(f, p.port) else f, w)
  {
    hide GapText, ParamText, PlainText, Decimal, PortOf, Skip, NextPart, Params, In;
    var x, sep := ParamText(p), ";" + GapText(gs, false);
    ParamStarts(p);
    ParamTextPlain(p);
    GapsSeparate(gs);
    assert In(';', Separator) by { SemicolonSeparates(); }
    NextPartOver(x, w);
    match p {
      case ClientPort(port, tail) => PortNamed(port, tail, w);
      case NoPort(tail) => NoPortNamed(tail, w);
      case Other(text) => OtherNamed(x, w);
    }
    hide GoodParam;
    PartOver(f, sep, x, w);
  }

  lemma SemicolonSeparates()
    ensures In(';', Separator)
  {
  }

  lemma {:induction false} ParamsRead(f: Fields, ps: seq<(seq<Gap>, Param)>, w: string)
    requires forall p <- ps :: GoodParam(p.1) && GoodGaps(p.0)
    requires EndsLine(w)
    ensures var r := ApplyParams(f, ps);
      Params(f, ParamsText(ps, false) + w)
        == if r.ok then Fetched(Accepted, r.fields, w) else Fetched(Rejected, r.fields, "")
    decreases |ps|
  {
    hide GapText, ParamText, GoodParam, Params;
    if ps == [] {
      assert ParamsText(ps, false) + w == w;
      ParamsStop(f, w);
    } else {
      var rest := ParamsText(ps[1..], false) + w;
      assert ps[0] in ps && forall q <- ps[1..] :: q in ps;
      RestStarts(ps[1..], w);
      OneParam(f, ps[0].0, ps[0].1, rest);
      assert ParamsText(ps, false) + w == ";" + GapText(ps[0].0, false) + ParamText(ps[0].1) + rest;
      var p := ps[0].1;
      if !p.NoPort? {
        ParamsRead(if p.ClientPort? then WithPort(f, p.port) else f, ps[1..], w);
      }
    }
  }

  lemma {:induction false} RestStarts(ps: seq<(seq<Gap>, Param)>, w: string)
    requires EndsLine(w)
    ensures var rest := ParamsText(ps, false) + w; rest != "" && (rest[0] == ';' || rest[0] == '\r')
  {
    hide GapText, ParamText;
  }

  lemma {:induction false} ParamsStop(f: Fields, w: string)
    requires EndsLine(w)
    ensures Params(f, w) == Fetched(Accepted, f, w)
  {
    assert Rest(w, Separator) == w;
    assert "\r\n" <= w;
  }

  // ----- header lines

  lemma ContentStarts(l: Line)
    requires GoodLine(l)
    ensures var c := LineContent(l, true); c != "" && !SpaceOrTab(c[0]) && c[0] != NUL && c[0] != '\r'
  {
    if l.OtherLine? { assert l.text[0] in l.text; }
  }

  /** What follows a line never continues it. */
  lemma {:induction false} LinesTextEndsLine(ls: seq<Line>)
    requires forall l <- ls :: GoodLine(l)
    ensures EndsLine(LinesText(ls)) && !Ended(LinesText(ls)) && LineEnd(LinesText(ls)) == 0
    ensures ls != [] ==> Drop(LinesText(ls), 2) == LineContent(ls[0], true) + LinesText(ls[1..])
    ensures ls != [] ==> !Ended(Drop(LinesText(ls), 2))
  {
    hide LineContent, GoodLine;
    if ls != [] {
      assert ls[0] in ls;
      ContentStarts(ls[0]);
    }
  }

  lemma {:induction false} DigitsWithin(x: string, w: string, most: int)
    requires (forall c <- x :: IsDigit(c)) && !IsDigit(Hd(w, 0))
    ensures SkipDigits(x + w, most) == if most <= 0 then 0 else if most < |x| then most else |x|
  {
    if x == "" {
      assert x + w == w;
    } else {
      assert x[0] in x && forall c <- x[1..] :: c in x;
      DigitsWithin(x[1..], w, most - 1);
      HeadTail(x, w);
    }
  }

  lemma {:induction false} BlanksWithin(x: string, w: string, most: int)
    requires Blanks(x) && !SpaceOrTab(Hd(w, 0))
    ensures SkipBlanks(x + w, most) == if most <= 0 then 0 else if most < |x| then most else |x|
  {
    if x == "" {
      assert x + w == w;
    } else {
      assert x[0] in x && forall c <- x[1..] :: c in x;
      BlanksWithin(x[1..], w, most - 1);
      HeadTail(x, w);
    }
  }

  /** Number and text after it as the parser reads them when told of `count` characters: refused when they end
      within blanks or number, except that right before a number a negative count makes it read no digit at all. */
  function NumberTold(pad: string, n: nat, w: string, count: int): Option<Number> {
    if count > |NumberText(pad, n)| then Some(Number(n, w))
    else if pad == "" && count < 0 then Some(Number(0, Decimal(n) + w))
    else None
  }

  lemma NumberRead(pad: string, n: nat, w: string, count: int)
    requires Blanks(pad) && !IsDigit(Hd(w, 0))
    ensures Numeric(NumberText(pad, n) + w, count) == NumberTold(pad, n, w, count)
  {
    var d := Decimal(n);
    assert d[0] in d;
    ValueOfDecimal(n);
    Associative(pad, d, w);
    hide Numeric, Decimal, Blanks;
    DigitsRead(pad, d, w, count);
  }

  lemma {:induction false} DigitsRead(pad: string, d: string, w: string, count: int)
    requires Blanks(pad) && d != "" && (forall c <- d :: IsDigit(c)) && !IsDigit(Hd(w, 0))
    ensures Numeric(pad + (d + w), count) ==
      if count > |pad| + |d| then Some(Number(Value(d), w))
      else if pad == "" && count < 0 then Some(Number(0, d + w))
      else None
  {
    var x := d + w;
    assert d[0] in d && x[0] == d[0];
    BlanksWithin(pad, x, count);
    if count > |pad| {
      DigitsWithin(d, w, count - |pad|);
      DigitsTold(pad, x, d, w, count);
    } else if count < 0 && pad == "" {
      assert pad + x == x;
      NoDigits(x, count);
    } else {
      NoNumber(pad, x, count);
    }
  }

  lemma {:induction false} DigitsTold(pad: string, x: string, d: string, w: string, count: int)
    requires count > |pad| && SkipBlanks(pad + x, count) == |pad| && x == d + w && d != "" && IsDigit(x[0])
    requires SkipDigits(x, count - |pad|) == if count - |pad| < |d| then count - |pad| else |d|
    ensures Numeric(pad + x, count) == if count > |pad| + |d| then Some(Number(Value(d), w)) else None
  {
    hide SkipBlanks, SkipDigits, Value, IsDigit;
    var t := pad + x;
    assert t[|pad|..] == x;
    assert x[..|d|] == d && x[|d|..] == w;
  }

  lemma NoDigits(x: string, count: int)
    requires x != "" && IsDigit(x[0]) && count < 0
    ensures Numeric(x, count) == Some(Number(0, x))
  {
    assert SkipBlanks(x, count) == 0 && x[0..] == x && SkipDigits(x, count) == 0;
    assert x[..0] == "";
  }

  lemma {:induction false} NoNumber(pad: string, x: string, count: int)
    requires count <= |pad| && (count >= 0 || pad != "") && Blanks(pad)
    requires SkipBlanks(pad + x, count) == if count <= 0 then 0 else count
    ensures Numeric(pad + x, count) == None
  {
    if count < 0 {
      assert pad[0] in pad && (pad + x)[0] == pad[0] && !IsDigit(pad[0]);
    }
  }

  lemma Named(name: string, x: string)
    ensures name <= name + x && (name + x)[|name|..] == x && |name + x| - |name| == |x|
  {
  }

  lemma LineNumber(f: Fields, setup: bool, t: string, slack: int)
    ensures HeaderLine(f, setup, "CSeq:" + t, slack) ==
      match Numeric(t, |t| + slack)
      case None => Stop(Rejected, f)
      case Some(n) => More(f.(cseq := n.value), n.rest)
    ensures HeaderLine(f, setup, "Content-Length:" + t, slack) ==
      match Numeric(t, |t| + slack)
      case None => Stop(Rejected, f)
      case Some(n) => More(f.(contentLength := n.value), n.rest)
  {
    hide Numeric, Glue, ParseTransport, Rest;
    Named("CSeq:", t);
    var u := "Content-Length:" + t;
    Named("Content-Length:", t);
    assert u[0] == 'C' && u[1] == 'o' && "CSeq:"[1] == 'S';
    assert |u| - 15 == |t| && |"CSeq:" + t| - 5 == |t|;
  }

  lemma NumberLineRead(f: Fields, setup: bool, l: Line, w: string, slack: int)
    requires EndsLine(w) && GoodLine(l) && (l.CSeqLine? || l.LengthLine?)
    ensures HeaderLine(f, setup, LineContent(l, true) + w, slack) ==
      match NumberTold(l.pad, l.n, l.tail + w, |NumberText(l.pad, l.n)| + |l.tail| + |w| + slack)
      case None => Stop(Rejected, f)
      case Some(n) => More(if l.CSeqLine? then f.(cseq := n.value) else f.(contentLength := n.value), n.rest)
  {
    NoDigitFirst(l.tail, w);
    hide HeaderLine, NumberText, NumberTold, NoDigit, PlainText, IsDigit, EndsLine;
    if l.CSeqLine? {
      CSeqLineRead(f, setup, l.pad, l.n, l.tail + w, slack);
      Associative(NumberText(l.pad, l.n), l.tail, w);
      Associative("CSeq:", NumberText(l.pad, l.n) + l.tail, w);
    } else {
      LengthLineRead(f, setup, l.pad, l.n, l.tail + w, slack);
      Associative(NumberText(l.pad, l.n), l.tail, w);
      Associative("Content-Length:", NumberText(l.pad, l.n) + l.tail, w);
    }
  }

  lemma CSeqLineRead(f: Fields, setup: bool, pad: string, n: nat, y: string, slack: int)
    requires Blanks(pad) && !IsDigit(Hd(y, 0))
    ensures HeaderLine(f, setup, "CSeq:" + (NumberText(pad, n) + y), slack) ==
      match NumberTold(pad, n, y, |NumberText(pad, n)| + |y| + slack)
      case None => Stop(Rejected, f)
      case Some(m) => More(f.(cseq := m.value), m.rest)
  {
    hide HeaderLine, NumberText, NumberTold, Numeric;
    NumberRead(pad, n, y, |NumberText(pad, n)| + |y| + slack);
    LineNumber(f, setup, NumberText(pad, n) + y, slack);
  }

  lemma LengthLineRead(f: Fields, setup: bool, pad: string, n: nat, y: string, slack: int)
    requires Blanks(pad) && !IsDigit(Hd(y, 0))
    ensures HeaderLine(f, setup, "Content-Length:" + (NumberText(pad, n) + y), slack) ==
      match NumberTold(pad, n, y, |NumberText(pad, n)| + |y| + slack)
      case None => Stop(Rejected, f)
      case Some(m) => More(f.(contentLength := m.value), m.rest)
  {
    hide HeaderLine, NumberText, NumberTold, Numeric;
    NumberRead(pad, n, y, |NumberText(pad, n)| + |y| + slack);
    LineNumber(f, setup, NumberText(pad, n) + y, slack);
  }

  lemma NoDigitFirst(tail: string, w: string)
    requires NoDigit(tail) && EndsLine(w)
    ensures !IsDigit(Hd(tail + w, 0))
  {
  }

  lemma NoNumberRead(f: Fields, setup: bool, l: Line, w: string, slack: int)
    requires EndsLine(w) && GoodLine(l) && l.NoNumber?
    ensures HeaderLine(f, setup, LineContent(l, true) + w, slack) == Stop(Rejected, f)
  {
    var x := l.text + w;
    assert !IsDigit(Hd(x, 0)) && !SpaceOrTab(Hd(x, 0));
    hide HeaderLine, EndsLine, NoDigit, IsDigit, SpaceOrTab, PlainText, Blanks;
    Associative(l.pad, l.text, w);
    if l.name == "CSeq:" {
      NoCSeqNumber(f, setup, l.pad, x, slack);
      Associative("CSeq:", l.pad + l.text, w);
    } else {
      NoLengthNumber(f, setup, l.pad, x, slack);
      Associative("Content-Length:", l.pad + l.text, w);
    }
  }

  lemma NoCSeqNumber(f: Fields, setup: bool, pad: string, x: string, slack: int)
    requires Blanks(pad) && !IsDigit(Hd(x, 0)) && !SpaceOrTab(Hd(x, 0))
    ensures HeaderLine(f, setup, "CSeq:" + (pad + x), slack) == Stop(Rejected, f)
  {
    hide HeaderLine, Numeric;
    NothingToRead(pad, x, |pad + x| + slack);
    LineNumber(f, setup, pad + x, slack);
  }

  lemma NoLengthNumber(f: Fields, setup: bool, pad: string, x: string, slack: int)
    requires Blanks(pad) && !IsDigit(Hd(x, 0)) && !SpaceOrTab(Hd(x, 0))
    ensures HeaderLine(f, setup, "Content-Length:" + (pad + x), slack) == Stop(Rejected, f)
  {
    hide HeaderLine, Numeric;
    NothingToRead(pad, x, |pad + x| + slack);
    LineNumber(f, setup, pad + x, slack);
  }

  lemma NothingToRead(pad: string, x: string, count: int)
    requires Blanks(pad) && !IsDigit(Hd(x, 0)) && !SpaceOrTab(Hd(x, 0))
    ensures Numeric(pad + x, count) == None
  {
    BlanksWithin(pad, x, count);
    var k := SkipBlanks(pad + x, count);
    hide SkipBlanks, SkipDigits, Value;
    assert Hd((pad + x)[k..], 0) == if k < |pad| then pad[k] else Hd(x, 0);
    assert k < |pad| ==> pad[k] in pad;
  }

  lemma RestOfLine(x: string, w: string)
    requires PlainText(x) && EndsLine(w)
    ensures Rest(x + w, LineText) == w
  {
    SkipOver(x, w, LineText);
  }

  lemma {:induction false} GlueMore(ms: seq<(Gap, string)>, w: string)
    requires forall m <- ms :: SpaceOrTab(m.0.c) && PlainText(m.1)
    ensures Glue(MoreText(ms, true) + w) == MoreText(ms, false) + Glue(w)
    ensures PlainText(MoreText(ms, false))
  {
    hide Glue, GapText;
    if ms == [] {
      assert MoreText(ms, true) + w == w && MoreText(ms, false) + Glue(w) == Glue(w);
    } else {
      var g, x := [ms[0].0], ms[0].1;
      var a, b := MoreText(ms[1..], true), MoreText(ms[1..], false);
      assert ms[0] in ms && forall m <- ms[1..] :: m in ms;
      GlueMore(ms[1..], w);
      GlueGaps(g, x + (a + w));
      GluePlain(x, a + w);
      GapPlain(g);
      hide MoreText;
      Associative(GapText(g, true) + x, a, w);
      Associative(GapText(g, true), x, a + w);
      Associative(GapText(g, false) + x, b, Glue(w));
      Associative(GapText(g, false), x, b + Glue(w));
    }
  }

  lemma {:induction false} GapPlain(gs: seq<Gap>)
    requires |gs| == 1 && SpaceOrTab(gs[0].c)
    ensures PlainText(GapText(gs, false))
    ensures GapText(gs, true) != "" && (SpaceOrTab(GapText(gs, true)[0]) || GapText(gs, true)[0] == '\r')
    ensures GapText(gs, false) != "" && SpaceOrTab(GapText(gs, false)[0])
  {
    assert gs[1..] == [] && GapText([], true) == "" && GapText([], false) == "";
  }

  /** Nothing that follows the text of another header makes it one of those that are looked at. */
  lemma {:induction false} MoreStarts(ms: seq<(Gap, string)>, folded: bool, w: string)
    requires EndsLine(w) && forall m <- ms :: SpaceOrTab(m.0.c)
    ensures var t := MoreText(ms, folded) + w; t != "" && (SpaceOrTab(t[0]) || t[0] == '\r')
  {
    hide GapText;
    if ms != [] {
      assert ms[0] in ms;
      GapPlain([ms[0].0]);
    }
  }

  lemma {:induction false} OtherRead(f: Fields, setup: bool, text: string, more: seq<(Gap, string)>, w: string,
                                     slack: int)
    requires GoodLine(OtherLine(text, more)) && EndsLine(w)
    ensures HeaderLine(f, setup, text + MoreText(more, true) + w, slack) == More(f, w)
  {
    var a, b := MoreText(more, true), MoreText(more, false);
    hide Glue, Rest, Numeric, ParseTransport, MoreText, GapText;
    GlueMore(more, w);
    MoreStarts(more, true, w);
    MoreStarts(more, false, w);
    assert PlainText(text + b);
    hide PlainText;
    RestOfLine(text + b, w);
    GluePlain(text, a + w);
    GlueStop(w);
    hide EndsLine;
    PrefixOver("CSeq:", text, a + w);
    PrefixOver("Content-Length:", text, a + w);
    PrefixOver("Transport:", text, b + w);
    Associative(text, a, w);
    Associative(text, b, w);
    assert Glue(text + a + w) == text + b + w;
  }

  lemma {:induction false} ParamsFront(ps: seq<(seq<Gap>, Param)>, w: string)
    requires EndsLine(w)
    ensures var t := ParamsText(ps, false) + w; t[0] == ';' || t[0] == '\r'
  {
  }

  lemma {:induction false} GapsSpace(gs: seq<Gap>)
    requires GoodGaps(gs)
    ensures forall c <- GapText(gs, false) :: In(c, Space)
  {
    if gs != [] {
      assert gs[0] in gs && forall g <- gs[1..] :: g in gs;
      GapsSpace(gs[1..]);
    }
  }

  lemma {:induction false} ProtocolRead(f: Fields, lead: seq<Gap>, tcp: bool, tail: string)
    requires GoodGaps(lead) && tail != "" && (tail[0] == ';' || tail[0] == '\r')
    ensures ParseTransport(f, GapText(lead, false) + (Protocol(tcp) + tail))
      == Params(f.(tcp := tcp, rtpPort := 0), tail)
  {
    hide Params, GapText, In;
    var u := Protocol(tcp) + tail;
    ProtocolSplits(tcp, tail);
    assert u[0] == 'R' && !In('R', Space) by { NoSpace(); }
    hide Protocol;
    GapsSpace(lead);
    SkipOver(GapText(lead, false), u, Space);
    hide Rest;
  }

  lemma NoSpace()
    ensures !In('R', Space)
  {
  }

  lemma ProtocolSplits(tcp: bool, tail: string)
    requires tail != "" && (tail[0] == ';' || tail[0] == '\r')
    ensures var u := Protocol(tcp) + tail;
      "RTP/AVP" <= u && ("/TCP" <= u[7..] <==> tcp) && (if tcp then u[11..] else u[7..]) == tail
  {
    var u := Protocol(tcp) + tail;
    if tcp {
      assert "RTP/AVP/TCP" == "RTP/AVP" + "/TCP";
      Associative("RTP/AVP", "/TCP", tail);
      Named("RTP/AVP", "/TCP" + tail);
      Named("/TCP", tail);
      assert u[11..] == u[7..][4..];
    } else {
      Named("RTP/AVP", tail);
    }
  }

  lemma {:induction false} GlueTransport(lead: seq<Gap>, tcp: bool, ps: seq<(seq<Gap>, Param)>, w: string)
    requires GoodLine(TransportLine(lead, tcp, ps)) && EndsLine(w)
    ensures Glue(LineContent(TransportLine(lead, tcp, ps), true) + w)
      == "Transport:" + (GapText(lead, false) + (Protocol(tcp) + (ParamsText(ps, false) + w)))
  {
    var name, g, p, x := "Transport:", GapText(lead, true), Protocol(tcp), ParamsText(ps, true);
    hide Glue, ParamsText, EndsLine, GapText, ParamText, GoodParam;
    GlueParams(ps, w);
    GlueStop(w);
    assert PlainText(name) && PlainText(p);
    GlueGaps(lead, p + (x + w));
    hide Protocol, GoodLine, PlainText;
    assert LineContent(TransportLine(lead, tcp, ps), true) == name + (g + (p + x));
    hide LineContent;
    GluePlain(p, x + w);
    GluePlain(name, g + (p + (x + w)));
    Associative(p, x, w);
    Associative(g, p + x, w);
    Associative(name, g + (p + x), w);
  }

  lemma {:induction false} LineTransport(f: Fields, u: string, t: string, slack: int)
    requires Glue(u) == "Transport:" + t && u != "" && u[0] == 'T'
    ensures var r := ParseTransport(f, t);
      HeaderLine(f, true, u, slack)
        == if r.verdict.Accepted? then More(r.fields, Rest(r.rest, LineText)) else Stop(r.verdict, r.fields)
  {
    hide Glue, ParseTransport, Rest, Numeric;
    Named("Transport:", t);
    assert "CSeq:"[0] == 'C' && "Content-Length:"[0] == 'C';
  }

  lemma TransportRead(f: Fields, lead: seq<Gap>, tcp: bool, ps: seq<(seq<Gap>, Param)>, w: string, slack: int)
    requires GoodLine(TransportLine(lead, tcp, ps)) && EndsLine(w)
    ensures var r := ApplyLine(f, true, TransportLine(lead, tcp, ps));
      HeaderLine(f, true, LineContent(TransportLine(lead, tcp, ps), true) + w, slack)
        == if r.ok then More(r.fields, w) else Stop(Rejected, r.fields)
  {
    hide Glue, Params, ParseTransport, Protocol, GoodParam, ApplyParams, HeaderLine, GapText;
    var tail := ParamsText(ps, false) + w;
    ParamsFront(ps, w);
    hide ParamsText;
    GlueTransport(lead, tcp, ps, w);
    ParamsRead(f.(tcp := tcp, rtpPort := 0), ps, w);
    ProtocolRead(f, lead, tcp, tail);
    TransportStarts(TransportLine(lead, tcp, ps), w);
    LineTransport(f, LineContent(TransportLine(lead, tcp, ps), true) + w, GapText(lead, false) + (Protocol(tcp) + tail),
                  slack);
    RestOfLine("", w);
    assert "" + w == w;
  }

  lemma {:induction false} ParamsPlain(ps: seq<(seq<Gap>, Param)>)
    requires forall p <- ps :: GoodParam(p.1) && GoodGaps(p.0)
    ensures PlainText(ParamsText(ps, false))
  {
    hide GoodParam, GapText, ParamText;
    if ps != [] {
      assert ps[0] in ps && forall p <- ps[1..] :: p in ps;
      ParamsPlain(ps[1..]);
      GapsPlain(ps[0].0);
      ParamTextPlain(ps[0].1);
    }
  }

  lemma {:induction false} GapsPlain(gs: seq<Gap>)
    requires GoodGaps(gs)
    ensures PlainText(GapText(gs, false))
  {
    if gs != [] {
      assert gs[0] in gs && forall g <- gs[1..] :: g in gs;
      GapsPlain(gs[1..]);
    }
  }

  /** In other requests than a SETUP it is passed over like any line. */
  lemma TransportPassed(f: Fields, lead: seq<Gap>, tcp: bool, ps: seq<(seq<Gap>, Param)>, w: string, slack: int)
    requires GoodLine(TransportLine(lead, tcp, ps)) && EndsLine(w)
    ensures HeaderLine(f, false, LineContent(TransportLine(lead, tcp, ps), true) + w, slack) == More(f, w)
  {
    hide Glue, GapText, ParamsText, Numeric, GoodParam;
    var text := "Transport:" + (GapText(lead, false) + (Protocol(tcp) + ParamsText(ps, false)));
    GlueTransport(lead, tcp, ps, w);
    ParamsPlain(ps);
    GapsPlain(lead);
    PlainTransport(GapText(lead, false), tcp, ParamsText(ps, false));
    hide PlainText, Protocol, EndsLine, Rest, LineContent, HeaderLine;
    RestOfLine(text, w);
    Associative(Protocol(tcp), ParamsText(ps, false), w);
    Associative(GapText(lead, false), Protocol(tcp) + ParamsText(ps, false), w);
    Associative("Transport:", GapText(lead, false) + (Protocol(tcp) + ParamsText(ps, false)), w);
    TransportStarts(TransportLine(lead, tcp, ps), w);
    OtherLineRead(f, LineContent(TransportLine(lead, tcp, ps), true) + w, slack);
  }

  /** A transport that a SETUP cannot have; other requests pass it over. */
  lemma OddRead(f: Fields, setup: bool, lead: seq<Gap>, text: string, w: string, slack: int)
    requires GoodLine(OddTransport(lead, text)) && EndsLine(w)
    ensures HeaderLine(f, setup, LineContent(OddTransport(lead, text), true) + w, slack)
      == if setup then Stop(Rejected, f) else More(f, w)
  {
    var l, g := OddTransport(lead, text), GapText(lead, false);
    GluedOdd(lead, text, w);
    GapsPlain(lead);
    OddPlain(g, text);
    TransportStarts(l, w);
    hide Glue, GapText, Numeric, PlainText, Rest, LineContent, HeaderLine;
    if setup {
      LineTransport(f, LineContent(l, true) + w, g + (text + w), slack);
      OddRefused(f, lead, text, w);
    } else {
      hide EndsLine;
      RestOfLine("Transport:" + (g + text), w);
      Associative(g, text, w);
      Associative("Transport:", g + text, w);
      OtherLineRead(f, LineContent(l, true) + w, slack);
    }
  }

  lemma OddPlain(gaps: string, text: string)
    requires PlainText(gaps) && PlainText(text)
    ensures PlainText("Transport:" + (gaps + text))
  {
    assert PlainText("Transport:");
  }

  lemma {:induction false} GluedOdd(lead: seq<Gap>, text: string, w: string)
    requires GoodLine(OddTransport(lead, text)) && EndsLine(w)
    ensures Glue(LineContent(OddTransport(lead, text), true) + w) == "Transport:" + (GapText(lead, false) + (text + w))
  {
    var name, g := "Transport:", GapText(lead, true);
    assert PlainText(name);
    hide Glue, EndsLine, GapText;
    GlueStop(w);
    GluePlain(text, w);
    GlueGaps(lead, text + w);
    hide GoodLine, PlainText;
    assert LineContent(OddTransport(lead, text), true) == name + (g + text);
    hide LineContent;
    GluePlain(name, g + (text + w));
    Associative(g, text, w);
    Associative(name, g + text, w);
  }

  lemma {:induction false} OddRefused(f: Fields, lead: seq<Gap>, text: string, w: string)
    requires GoodLine(OddTransport(lead, text)) && EndsLine(w)
    ensures ParseTransport(f, GapText(lead, false) + (text + w)) == Fetched(Rejected, f, "")
  {
    hide Params, GapText, PlainText;
    PrefixOver("RTP/AVP", text, w);
    assert (text + w)[0] == text[0];
    GapsSpace(lead);
    SkipOver(GapText(lead, false), text + w, Space);
    hide Rest;
  }

  lemma PlainTransport(gaps: string, tcp: bool, params: string)
    requires PlainText(gaps) && PlainText(params)
    ensures PlainText("Transport:" + (gaps + (Protocol(tcp) + params)))
  {
    assert PlainText("Transport:") && PlainText(Protocol(tcp));
  }

  lemma TransportStarts(l: Line, w: string)
    requires l.TransportLine? || l.OddTransport?
    ensures LineContent(l, true) + w != "" && (LineContent(l, true) + w)[0] == 'T'
  {
    hide GapText, ParamsText, Protocol;
  }

  lemma {:induction false} OtherLineRead(f: Fields, u: string, slack: int)
    requires u != "" && u[0] == 'T'
    ensures HeaderLine(f, false, u, slack) == More(f, Rest(Glue(u), LineText))
  {
    hide Numeric, Glue, Rest;
    assert "CSeq:"[0] == 'C' && "Content-Length:"[0] == 'C';
  }

  /** What the parser, told of `slack` more characters than there are, makes of a line before w. What it is told matters
      only for a line that holds a number. */
  function ReadLine(f: Fields, setup: bool, l: Line, w: string, slack: int): LinesRead {
    if l.CSeqLine? || l.LengthLine? then
      var left := |l.tail| + |w| + slack;
      if left > 0 then ApplyLine(f, setup, l)
      else if l.pad == "" && |Decimal(l.n)| + left < 0 then ApplyLine(f, setup, l.(n := 0))
      else LinesRead(false, f)
    else ApplyLine(f, setup, l)
  }

  /** A line, and where the parser goes on: somewhere before its end. */
  lemma LineRead(f: Fields, setup: bool, l: Line, w: string, slack: int)
    requires GoodLine(l) && EndsLine(w)
    ensures var r, g := HeaderLine(f, setup, LineContent(l, true) + w, slack), ReadLine(f, setup, l, w, slack);
      if !g.ok then r == Stop(Rejected, g.fields)
      else r.More? && r.fields == g.fields && exists x :: PlainText(x) && r.rest == x + w
  {
    assert "" + w == w && PlainText("");
    hide HeaderLine;
    match l
    case CSeqLine(_, _, _) => NumberedRead(f, setup, l, w, slack);
    case LengthLine(_, _, _) => NumberedRead(f, setup, l, w, slack);
    case NoNumber(_, _, _) => NoNumberRead(f, setup, l, w, slack);
    case TransportLine(lead, tcp, ps) =>
      if setup {
        TransportRead(f, lead, tcp, ps, w, slack);
      } else {
        TransportPassed(f, lead, tcp, ps, w, slack);
      }
    case OddTransport(lead, text) => OddRead(f, setup, lead, text, w, slack);
    case OtherLine(text, more) => OtherRead(f, setup, text, more, w, slack);
  }

  lemma {:induction false} NumberedRead(f: Fields, setup: bool, l: Line, w: string, slack: int)
    requires GoodLine(l) && EndsLine(w) && (l.CSeqLine? || l.LengthLine?)
    ensures var r, g := HeaderLine(f, setup, LineContent(l, true) + w, slack), ReadLine(f, setup, l, w, slack);
      if !g.ok then r == Stop(Rejected, g.fields)
      else r.More? && r.fields == g.fields && exists x :: PlainText(x) && r.rest == x + w
  {
    TailPlain(l.n, l.tail, w);
    hide HeaderLine, LineContent, PlainText, Decimal, EndsLine, GoodLine;
    NumberLineRead(f, setup, l, w, slack);
    ToldLength(l.pad, l.n, l.tail + w, |l.tail| + |w| + slack);
  }

  /** The same bound, counted from behind the number. */
  lemma {:induction false} ToldLength(pad: string, n: nat, y: string, left: int)
    ensures NumberTold(pad, n, y, |NumberText(pad, n)| + left) ==
      if left > 0 then Some(Number(n, y))
      else if pad == "" && |Decimal(n)| + left < 0 then Some(Number(0, Decimal(n) + y))
      else None
  {
    hide Decimal;
  }

  lemma {:induction false} TailPlain(n: nat, tail: string, w: string)
    requires PlainText(tail)
    ensures PlainText(tail) && PlainText(Decimal(n) + tail) && Decimal(n) + (tail + w) == Decimal(n) + tail + w
  {
    assert PlainText(Decimal(n));
  }

  lemma {:induction false} LineEndOver(x: string, w: string)
    requires PlainText(x) && EndsLine(w)
    ensures LineEnd(x + w) == |x|
  {
    if x == "" {
      assert x + w == w;
    } else {
      assert x[0] in x && forall c <- x[1..] :: c in x;
      LineEndOver(x[1..], w);
      HeadTail(x, w);
      assert Hd(x + w, 1) == if |x| > 1 then x[1] else w[0];
      assert |x| > 1 ==> x[1] in x;
    }
  }

  /** What is left of a line makes no difference: the next turn skips to its end. */
  lemma {:induction false} LeftSkipped(f: Fields, setup: bool, x: string, w: string, slack: int)
    requires PlainText(x) && EndsLine(w)
    ensures Headers(f, setup, x + w, slack) == Headers(f, setup, w, slack)
  {
    LineEndOver(x, w);
    LineEndOver("", w);
    assert "" + w == w;
    assert (x + w)[|x|..] == w == w[0..];
    hide LineEnd, HeaderLine;
  }

  /** The end of the header: the loop goes round once more on the empty line before it sees it. */
  lemma {:induction false} EmptyLineRead(f: Fields, setup: bool, slack: int)
    ensures Headers(f, setup, "\r\n\r\n", slack) == (Accepted, f)
  {
    hide Numeric, ParseTransport;
    var t := "\r\n\r\n";
    assert Drop(t, 2) == "\r\n";
    assert Glue("\r\n") == "\r\n";
    assert Rest("\r\n", LineText) == "\r\n";
    assert HeaderLine(f, setup, "\r\n", slack) == More(f, "\r\n");
    assert t[0..] == t && LineEnd(t) == 0;
    assert OneLine(f, setup, t, slack) == More(f, "\r\n");
    var last := "\r\n";
    assert last[0..] == last && LineEnd(last) == 0;
    assert OneLine(f, setup, last, slack) == Stop(Accepted, f);
  }

  /** What the parser makes of all lines: up to the one it refuses, if any. */
  function ReadLines(f: Fields, setup: bool, ls: seq<Line>, slack: int): LinesRead
    decreases |ls|
  {
    if ls == [] then LinesRead(true, f) else
      var r := ReadLine(f, setup, ls[0], LinesText(ls[1..]), slack);
      if r.ok then ReadLines(r.fields, setup, ls[1..], slack) else r
  }

  /** Told the true size, or more, it reads every line as it stands. */
  lemma {:induction false} ReadInOneGo(f: Fields, setup: bool, ls: seq<Line>, slack: nat)
    ensures ReadLines(f, setup, ls, slack) == ApplyLines(f, setup, ls)
    decreases |ls|
  {
    hide ApplyLine;
    if ls != [] {
      var r := ApplyLine(f, setup, ls[0]);
      if r.ok { ReadInOneGo(r.fields, setup, ls[1..], slack); }
    }
  }

  /** The line is in order, and the parser is told enough for it: of a character after its number, or, where no blank
      stands before the number, of so little that it reads none of it. */
  predicate Passes(l: Line, setup: bool, w: string, slack: int) {
    && !Faulty(l, setup)
    && (l.CSeqLine? || l.LengthLine? ==>
      var left := |l.tail| + |w| + slack;
      left > 0 || (l.pad == "" && |Decimal(l.n)| + left < 0))
  }

  predicate AllPass(ls: seq<Line>, setup: bool, slack: int) {
    forall i :: 0 <= i < |ls| ==> Passes(ls[i], setup, LinesText(ls[i + 1..]), slack)
  }

  lemma {:induction false} ReadsIfAllPass(f: Fields, setup: bool, ls: seq<Line>, slack: int)
    ensures ReadLines(f, setup, ls, slack).ok <==> AllPass(ls, setup, slack)
    decreases |ls|
  {
    if ls != [] {
      var w := LinesText(ls[1..]);
      PassesOne(f, setup, ls[0], w, slack);
      hide LinesText, ReadLine, Passes;
      var r := ReadLine(f, setup, ls[0], w, slack);
      assert Passes(ls[0], setup, LinesText(ls[0 + 1..]), slack) <==> r.ok;
      if r.ok {
        ReadsIfAllPass(r.fields, setup, ls[1..], slack);
        AllPassTail(ls, setup, slack);
      }
    }
  }

  lemma PassesOne(f: Fields, setup: bool, l: Line, w: string, slack: int)
    ensures ReadLine(f, setup, l, w, slack).ok <==> Passes(l, setup, w, slack)
  {
    LineSound(f, setup, l);
    hide ApplyParams, Decimal;
  }

  lemma AllPassTail(ls: seq<Line>, setup: bool, slack: int)
    requires ls != [] && Passes(ls[0], setup, LinesText(ls[1..]), slack)
    ensures AllPass(ls, setup, slack) <==> AllPass(ls[1..], setup, slack)
  {
    hide LinesText, Passes;
    assert forall i :: 0 <= i < |ls| - 1 ==> ls[1..][i] == ls[i + 1] && ls[1..][i + 1..] == ls[i + 2..];
    if AllPass(ls[1..], setup, slack) {
      forall i | 0 <= i < |ls| ensures Passes(ls[i], setup, LinesText(ls[i + 1..]), slack) {
        if i > 0 { assert Passes(ls[1..][i - 1], setup, LinesText(ls[1..][i - 1 + 1..]), slack); }
      }
    }
    if AllPass(ls, setup, slack) {
      forall i | 0 <= i < |ls| - 1 ensures Passes(ls[1..][i], setup, LinesText(ls[1..][i + 1..]), slack) {
        assert Passes(ls[i + 1], setup, LinesText(ls[i + 1 + 1..]), slack);
      }
    }
  }

  lemma {:induction false} HeadersRead(f: Fields, setup: bool, ls: seq<Line>, slack: int)
    requires forall l <- ls :: GoodLine(l)
    ensures var r := ReadLines(f, setup, ls, slack);
      Headers(f, setup, LinesText(ls), slack) == (if r.ok then Accepted else Rejected, r.fields)
    decreases |ls|
  {
    hide HeaderLine, LineContent, GoodLine, ApplyLine, LineEnd, Drop, ReadLine, Decimal;
    var t := LinesText(ls);
    LinesTextEndsLine(ls);
    if ls == [] {
      assert t == "\r\n\r\n";
      EmptyLineRead(f, setup, slack);
    } else {
      assert ls[0] in ls && forall l <- ls[1..] :: l in ls;
      var w := LinesText(ls[1..]);
      LinesTextEndsLine(ls[1..]);
      LineRead(f, setup, ls[0], w, slack);
      assert t[0..] == t;
      var r := HeaderLine(f, setup, LineContent(ls[0], true) + w, slack);
      assert OneLine(f, setup, t, slack) == r;
      if r.More? {
        HeadersRead(r.fields, setup, ls[1..], slack);
        var x :| PlainText(x) && r.rest == x + w;
        LeftSkipped(r.fields, setup, x, w, slack);
      }
    }
  }

  // ----- the whole request

  function WithUrl(f: Fields, r: Request): Fields {
    f.(host := r.url.host, presentation := r.url.presentation, stream := r.url.stream, contentLength := 0)
  }

  /** A request is accepted if and only if all its lines are in order and what the parser is told, the size of the last
      read, is enough for them; either way the session holds its host, presentation and stream and what was read of its
      lines. */
  lemma {:induction false} RequestAcceptance(f: Fields, setup: bool, r: Request, slack: int)
    requires Good(r)
    ensures Parse(f, setup, Render(r), slack) ==
      (if AllPass(r.lines, setup, slack) then Accepted else Rejected,
       ReadLines(WithUrl(f, r), setup, r.lines, slack).fields)
  {
    GoodShape(r);
    hide ParseTarget, Headers, UrlText, LinesText, EndsLine, AllPass, ReadLines, GoodName, GoodUrl, UrlShape;
    LinesTextEndsLine(r.lines);
    TargetRead(r.name, r.url, LinesText(r.lines));
    HeadersRead(WithUrl(f, r), setup, r.lines, slack);
    ReadsIfAllPass(WithUrl(f, r), setup, r.lines, slack);
  }

  lemma GoodShape(r: Request)
    requires Good(r)
    ensures UrlShape(r.name, r.url)
  {
    hide PathShape, SchemeShape;
  }

  /** Read in one go it is accepted if and only if all its lines are in order, and they are read as they stand. */
  lemma {:induction false} RequestRoundTrip(f: Fields, setup: bool, r: Request)
    requires Good(r)
    ensures Parse(f, setup, Render(r), 0) ==
      (if Sound(r.lines, setup) then Accepted else Rejected, ApplyLines(WithUrl(f, r), setup, r.lines).fields)
  {
    hide Parse, Render, Good, ApplyLines, ReadLines, AllPass, Sound;
    RequestAcceptance(f, setup, r, 0);
    ReadInOneGo(WithUrl(f, r), setup, r.lines, 0);
    ReadsIfAllPass(WithUrl(f, r), setup, r.lines, 0);
    LinesSound(WithUrl(f, r), setup, r.lines);
  }

  lemma {:induction false} NoLineEnd(x: string)
    requires PlainText(x)
    ensures LineEnd(x) == |x|
  {
    if x != "" {
      assert x[0] in x && forall c <- x[1..] :: c in x;
      NoLineEnd(x[1..]);
      assert |x| > 1 ==> x[1] in x;
    }
  }

  lemma {:induction false} NothingMore(f: Fields, setup: bool, x: string, slack: int)
    requires PlainText(x)
    ensures Headers(f, setup, x, slack) == (Rejected, f)
  {
    NoLineEnd(x);
    assert x[|x|..] == "";
    hide LineEnd, HeaderLine;
  }

  lemma {:induction false} ParamsUnended(f: Fields, t: string)
    requires PlainText(t)
    ensures Params(f, t).verdict == Rejected
    decreases |t|
  {
    hide Skip, NextPart, PortOf;
    var x := SkippedSplits(t, Separator);
    var u := Rest(t, Separator);
    assert forall c <- u :: c in t;
    ParamsTurn(f, t, u);
    if !Ended(u) {
      var n := NextPart(u);
      assert u[0] in u;
      if 0 < n < |u| {
        assert forall c <- u[n..] :: c in u;
        var g :=
          if "client_port=" <= u then f.(rtpPort := PortOf(u[12..]), rtcpPort := (PortOf(u[12..]) + 1) % 0x1_0000)
          else f;
        ParamsUnended(g, u[n..]);
      } else if n == 0 {
        NoSemicolon(t, u);
        assert false;
      }
    }
  }

  lemma NoSemicolon(t: string, u: string)
    requires u == Rest(t, Separator) && u != ""
    ensures u[0] != ';'
  {
  }

  lemma TransportUnended(f: Fields, t: string)
    requires PlainText(t)
    ensures ParseTransport(f, t).verdict == Rejected
  {
    hide Params, Skip;
    var x := SkippedSplits(t, Space);
    var u := Rest(t, Space);
    if "RTP/AVP" <= u {
      var tcp := "/TCP" <= u[7..];
      var v := if tcp then u[11..] else u[7..];
      assert forall c <- v :: c in u && c in t;
      ParamsUnended(f.(tcp := tcp, rtpPort := 0), v);
    }
  }

  lemma NumberUnended(t: string, count: int)
    requires PlainText(t)
    ensures var n := Numeric(t, count); n.Some? ==> PlainText(n.value.rest)
  {
    hide SkipBlanks, SkipDigits, Value, PlainText, IsDigit, Hd;
    var k := SkipBlanks(t, count);
    PlainAfter(t, k);
    var d := SkipDigits(t[k..], count - k);
    PlainAfter(t[k..], d);
    assert Numeric(t, count).Some? ==> Numeric(t, count).value.rest == t[k..][d..];
  }

  lemma PlainAfter(t: string, n: nat)
    requires PlainText(t) && n <= |t|
    ensures PlainText(t[n..])
  {
    assert forall c <- t[n..] :: c in t;
  }

  /** A line that is not ended is refused, whatever it holds. */
  lemma {:induction false} LastLine(f: Fields, setup: bool, text: string, slack: int)
    requires PlainText(text) && text != ""
    ensures Headers(f, setup, "\r\n" + text, slack).0 == Rejected
  {
    var t := "\r\n" + text;
    assert LineEnd(t) == 0 && t[0..] == t && Drop(t, 2) == text && text[0] in text;
    assert OneLine(f, setup, t, slack) == HeaderLine(f, setup, text, slack);
    hide LineEnd;
    UnendedLine(f, setup, text, slack);
    hide HeaderLine;
  }

  lemma {:induction false} UnendedLine(f: Fields, setup: bool, text: string, slack: int)
    requires PlainText(text) && text != ""
    ensures var r := HeaderLine(f, setup, text, slack);
      if r.Stop? then r.verdict == Rejected else Headers(r.fields, setup, r.rest, slack).0 == Rejected
  {
    hide Headers, PlainText, HeaderLine;
    var r := HeaderLine(f, setup, text, slack);
    if "CSeq:" <= text {
      assert text == "CSeq:" + text[5..];
      UnendedNumber(f, setup, "CSeq:", text[5..], slack);
    } else if "Content-Length:" <= text {
      assert text == "Content-Length:" + text[15..];
      UnendedNumber(f, setup, "Content-Length:", text[15..], slack);
    } else {
      UnendedOther(f, setup, text, slack);
    }
    if r.More? { NothingMore(r.fields, setup, r.rest, slack); }
  }

  lemma UnendedNumber(f: Fields, setup: bool, name: string, t: string, slack: int)
    requires (name == "CSeq:" || name == "Content-Length:") && PlainText(name + t)
    ensures var r := HeaderLine(f, setup, name + t, slack);
      if r.Stop? then r.verdict == Rejected else PlainText(r.rest)
  {
    hide HeaderLine, PlainText, Numeric;
    Named(name, t);
    PlainAfter(name + t, |name|);
    NumberUnended(t, |t| + slack);
    LineNumber(f, setup, t, slack);
  }

  lemma UnendedOther(f: Fields, setup: bool, text: string, slack: int)
    requires PlainText(text) && text != "" && !("CSeq:" <= text) && !("Content-Length:" <= text)
    ensures var r := HeaderLine(f, setup, text, slack);
      if r.Stop? then r.verdict == Rejected else PlainText(r.rest)
  {
    PlainIsGlued(text);
    assert PlainText("");
    hide Glue, Rest, ParseTransport, Numeric, PlainText;
    if setup && "Transport:" <= text {
      PlainAfter(text, 10);
      TransportUnended(f, text[10..]);
    }
  }

  lemma {:induction false} PlainIsGlued(text: string)
    requires PlainText(text)
    ensures Glue(text) == text && Rest(text, LineText) == "" && text[|text|..] == ""
  {
    GluePlain(text, "");
    assert text + "" == text && text + Glue("") == text;
    SkipOver(text, "", LineText);
  }

  /** A request may end with the line break after its request line, but not before it, nor within a header line. */
  lemma RequestEnd(f: Fields, setup: bool, r: Request, text: string, slack: int)
    requires Good(r) && PlainText(text) && text != ""
    ensures Parse(f, setup, AfterRequestLine(r, ""), slack) == (Rejected, WithUrl(f, r))
    ensures Parse(f, setup, AfterRequestLine(r, "\r\n"), slack) == (Accepted, WithUrl(f, r))
    ensures Parse(f, setup, AfterRequestLine(r, "\r\n" + text), slack).0 == Rejected
  {
    GoodShape(r);
    var g := WithUrl(f, r);
    var last := "\r\n";
    assert LineEnd(last) == 0 && last[0..] == last && Drop(last, 2) == "";
    assert OneLine(g, setup, last, slack) == Stop(Accepted, g);
    hide ParseTarget, HeaderLine, UrlText, GoodName, GoodUrl, UrlShape, GoodLine, LineEnd;
    TargetRead(r.name, r.url, "");
    TargetRead(r.name, r.url, last);
    TargetRead(r.name, r.url, last + text);
    NothingMore(g, setup, "", slack);
    LastLine(g, setup, text, slack);
  }

  lemma {:induction false} LineEndBefore(x: string, c: char, w: string)
    requires PlainText(x) && c != NUL && c != '\r' && c != '\n'
    ensures LineEnd(x + ([c, '\n'] + w)) == |x|
  {
    if x == "" {
      assert x + ([c, '\n'] + w) == [c, '\n'] + w;
    } else {
      assert x[0] in x && forall d <- x[1..] :: d in x;
      LineEndBefore(x[1..], c, w);
      HeadTail(x, [c, '\n'] + w);
      if |x| > 1 {
        assert x[1] in x && Hd(x + ([c, '\n'] + w), 1) == x[1];
      } else {
        assert Hd(x + ([c, '\n'] + w), 1) == c;
      }
    }
  }

  /** A line feed alone ends a line as CRLF does, taking the character before it along, if that is not one itself. */
  lemma {:induction false} LineFeedAlone(f: Fields, setup: bool, x: string, c: char, w: string, slack: int)
    requires PlainText(x) && c != NUL && c != '\r' && c != '\n'
    ensures Headers(f, setup, x + ([c, '\n'] + w), slack) == Headers(f, setup, "\r\n" + w, slack)
  {
    var t, u := x + ([c, '\n'] + w), "\r\n" + w;
    LineEndBefore(x, c, w);
    assert t[|x|..] == [c, '\n'] + w && Drop(t[|x|..], 2) == w;
    assert LineEnd(u) == 0 && u[0..] == u && Drop(u, 2) == w;
    hide LineEnd, HeaderLine;
  }

  /** The usual shape of a SETUP: one CSeq, one Transport line with one client_port, anything else around them. */
  lemma SetupFields(f: Fields, r: Request, i: nat, j: nat, k: nat)
    requires Good(r) && Sound(r.lines, true) && i < |r.lines| && j < |r.lines|
    requires r.lines[i].CSeqLine? && forall m :: i < m < |r.lines| ==> !r.lines[m].CSeqLine?
    requires r.lines[j].TransportLine? && forall m :: j < m < |r.lines| ==> !r.lines[m].TransportLine?
    requires k < |r.lines[j].params| && r.lines[j].params[k].1.ClientPort?
    requires forall m :: k < m < |r.lines[j].params| ==> !r.lines[j].params[m].1.ClientPort?
    ensures var (v, g) := Parse(f, true, Render(r), 0);
      var p := r.lines[j].params[k].1.port;
      && v == Accepted
      && g.host == r.url.host && g.presentation == r.url.presentation && g.stream == r.url.stream
      && g.cseq == r.lines[i].n && g.tcp == r.lines[j].tcp && g.rtpPort == p % 65536 && g.rtcpPort == (p + 1) % 65536
  {
    hide Parse, Render, Good, ApplyLines, Sound;
    RequestRoundTrip(f, true, r);
    var g := WithUrl(f, r);
    LastCSeq(g, true, r.lines, i);
    LastTransport(g, r.lines, j, k);
  }

  lemma {:induction false} ParamsKeep(f: Fields, ps: seq<(seq<Gap>, Param)>)
    ensures var g := ApplyParams(f, ps).fields; g == f.(rtpPort := g.rtpPort, rtcpPort := g.rtcpPort)
    ensures (forall p <- ps :: !p.1.ClientPort?) ==> ApplyParams(f, ps).fields == f
    decreases |ps|
  {
    if ps != [] {
      assert ps[0] in ps && forall p <- ps[1..] :: p in ps;
      var p := ps[0].1;
      ParamsKeep(if p.ClientPort? then WithPort(f, p.port) else f, ps[1..]);
    }
  }

  lemma {:induction false} LastPort(f: Fields, ps: seq<(seq<Gap>, Param)>, k: nat)
    requires k < |ps| && ps[k].1.ClientPort? && forall m :: k < m < |ps| ==> !ps[m].1.ClientPort?
    requires forall p <- ps :: !p.1.NoPort?
    ensures var g := ApplyParams(f, ps).fields;
      g == WithPort(f, ps[k].1.port)
    decreases |ps|
  {
    var p := ps[0].1;
    assert ps[0] in ps && forall p <- ps[1..] :: p in ps;
    var h := if p.ClientPort? then WithPort(f, p.port) else f;
    if k == 0 {
      ParamsKeep(h, ps[1..]);
    } else {
      LastPort(h, ps[1..], k - 1);
    }
  }

  /** Lines other than CSeq leave the number alone, and lines other than those of a SETUP's transport the transport. */
  lemma {:induction false} LinesKeep(f: Fields, setup: bool, ls: seq<Line>)
    ensures var g := ApplyLines(f, setup, ls).fields;
      && g.host == f.host && g.presentation == f.presentation && g.stream == f.stream
      && ((forall l <- ls :: !l.CSeqLine?) ==> g.cseq == f.cseq)
      && (!setup || (forall l <- ls :: !l.TransportLine?) ==>
        g.tcp == f.tcp && g.rtpPort == f.rtpPort && g.rtcpPort == f.rtcpPort)
    decreases |ls|
  {
    if ls != [] {
      assert ls[0] in ls && forall l <- ls[1..] :: l in ls;
      if ls[0].TransportLine? { ParamsKeep(f.(tcp := ls[0].tcp, rtpPort := 0), ls[0].params); }
      LinesKeep(ApplyLine(f, setup, ls[0]).fields, setup, ls[1..]);
    }
  }

  lemma {:induction false} OneSound(f: Fields, setup: bool, ls: seq<Line>)
    requires Sound(ls, setup) && ls != []
    ensures ApplyLine(f, setup, ls[0]).ok && Sound(ls[1..], setup)
    ensures ApplyLines(f, setup, ls) == ApplyLines(ApplyLine(f, setup, ls[0]).fields, setup, ls[1..])
  {
    LineSound(f, setup, ls[0]);
    hide ApplyLine, Faulty;
    assert ls[0] in ls && forall l <- ls[1..] :: l in ls;
  }

  lemma {:induction false} LastCSeq(f: Fields, setup: bool, ls: seq<Line>, i: nat)
    requires Sound(ls, setup)
    requires i < |ls| && ls[i].CSeqLine? && forall m :: i < m < |ls| ==> !ls[m].CSeqLine?
    ensures var g := ApplyLines(f, setup, ls).fields;
      g.cseq == ls[i].n && g.host == f.host && g.presentation == f.presentation && g.stream == f.stream
    decreases |ls|
  {
    hide Sound;
    OneSound(f, setup, ls);
    var g := ApplyLine(f, setup, ls[0]).fields;
    LinesKeep(f, setup, ls);
    if i == 0 {
      LinesKeep(g, setup, ls[1..]);
    } else {
      LastCSeq(g, setup, ls[1..], i - 1);
    }
  }

  lemma {:induction false} LastTransport(f: Fields, ls: seq<Line>, j: nat, k: nat)
    requires Sound(ls, true)
    requires j < |ls| && ls[j].TransportLine? && forall m :: j < m < |ls| ==> !ls[m].TransportLine?
    requires k < |ls[j].params| && ls[j].params[k].1.ClientPort?
    requires forall m :: k < m < |ls[j].params| ==> !ls[j].params[m].1.ClientPort?
    ensures var g := ApplyLines(f, true, ls).fields;
      && g.tcp == ls[j].tcp
      && g.rtpPort == ls[j].params[k].1.port % 65536 && g.rtcpPort == (ls[j].params[k].1.port + 1) % 65536
    decreases |ls|
  {
    OneSound(f, true, ls);
    if j == 0 {
      assert !Faulty(ls[0], true) by { assert ls[0] in ls; }
      LastPort(f.(tcp := ls[0].tcp, rtpPort := 0), ls[0].params, k);
      LinesKeep(ApplyLine(f, true, ls[0]).fields, true, ls[1..]);
    } else {
      LastTransport(ApplyLine(f, true, ls[0]).fields, ls[1..], j - 1, k);
    }
  }
}
