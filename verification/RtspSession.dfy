/** CRtspSession of src/CRtspSession.cpp: reading requests off a connection and acting on them. */
module RtspSession {
  import opened FanOut
  import opened RtspParser
  import opened RtspReplies
  import opened Sequences
  import opened UdpTransport
  import opened Wrappers

  const RTSP_BUFFER_SIZE := 500

  datatype Command = Options | Describe | Setup | Play | Teardown | Unknown

  datatype HdrState = HdrUnknown | GotMethod | Invalid

  /** What socketread delivers: bytes, the end of the connection, or a timeout. */
  datatype Read = Data(bytes: string) | Closed | TimedOut

  /** A session's state: the request received so far, and what earlier requests left behind. */
  datatype Conn = Conn(recv: string, hdr: HdrState, command: Command, streaming: bool, stopped: bool,
                       fields: Fields, rtpClientPort: nat, rtcpClientPort: nat)

  function NewConn(): Conn {
    Conn("", HdrUnknown, Unknown, false, false, Fields("", "", "", 0, 0, false, 0, 0), 0, 0)
  }

  /** The outcome of a call: what it returns, whether it brought up UDP, whether the parser hung, and what it wrote
      to its socket. */
  datatype Step = Step(conn: Conn, ret: bool, initUdp: bool, stuck: bool, reply: Option<Reply>)

  // ----- one call, on values

  function HasLine(t: string): bool {
    !Ended(t) && ((t[0] == '\r' && Hd(t, 1) == '\n') || HasLine(t[1..]))
  }

  /** The command name at the start, after an optional empty line. */
  function Classify(recv: string): Command {
    var s := if "\r\n" <= recv then recv[2..] else recv;
    if "OPTIONS " <= s then Options
    else if "DESCRIBE " <= s then Describe
    else if "SETUP " <= s then Setup
    else if "PLAY " <= s then Play
    else if "TEARDOWN " <= s then Teardown
    else Unknown
  }

  /** Only the last four characters are searched for the end of the header. */
  predicate EndsHeader(recv: string) {
    |recv| >= 4 && recv[|recv| - 4..] == "\r\n\r\n"
  }

  /** A buffer that is empty, or that a bad client filled, starts over before the next read. */
  function Fresh(c: Conn): Conn {
    if |c.recv| == 0 || |c.recv| >= RTSP_BUFFER_SIZE - 1 then c.(recv := "", hdr := HdrUnknown) else c
  }

  /** How much the next read asks for. */
  function ReadLimit(c: Conn): (n: nat)
    requires |c.recv| < RTSP_BUFFER_SIZE
    ensures 1 <= n <= RTSP_BUFFER_SIZE - 1
    ensures |Fresh(c).recv| + n == RTSP_BUFFER_SIZE - 1
  {
    RTSP_BUFFER_SIZE - |Fresh(c).recv| - 1
  }

  predicate CanRead(c: Conn, read: Read) {
    |c.recv| < RTSP_BUFFER_SIZE && (read.Data? ==> 1 <= |read.bytes| <= ReadLimit(c))
  }

  /** newCommandInit */
  function Cleared(f: Fields): Fields {
    f.(host := "", presentation := "", stream := "", contentLength := 0)
  }

  /** The command type is settled by the first read that completes a line. */
  function Recognise(c: Conn): Conn {
    if c.hdr.HdrUnknown? && |c.recv| >= 6 && HasLine(c.recv) then
      var command := Classify(c.recv);
      c.(command := command, fields := Cleared(c.fields), hdr := if command.Unknown? then Invalid else GotMethod)
    else c
  }

  /** What the handler of a command replies. */
  function ReplyTo(command: Command, f: Fields): Option<Reply> {
    match command
    case Options => Some(Capabilities(f.cseq))
    case Describe =>
      Some(if f.presentation == URI_PRESENTATION && f.stream == URI_STREAM
           then Described(f.cseq, f.host, f.presentation, f.stream) else NotFound(f.cseq))
    case Setup => Some(Prepared(f.cseq, f.tcp, f.rtpPort, f.rtcpPort))
    case Play => Some(Playing(f.cseq))
    case Teardown => None
    case Unknown => None
  }

  /** Handle_RtspRequest and what follows it; the parser is told the size of the last read only. */
  function Handle(c: Conn, size: nat): Step {
    var (verdict, fields) := Parse(c.fields, c.command.Setup?, c.recv, size - |c.recv|);
    var setup := verdict.Accepted? && c.command.Setup?;
    var d := c.(
      fields := fields,
      rtpClientPort := if setup then fields.rtpPort else c.rtpClientPort,
      rtcpClientPort := if setup then fields.rtcpPort else c.rtcpClientPort);
    if verdict.Stuck? then Step(d, false, false, true, None)
    else
      var e := d.(streaming := c.streaming || c.command.Play?, stopped := c.command.Teardown?,
                  hdr := HdrUnknown, recv := "");
      Step(e, true, setup && !fields.tcp, false, if verdict.Accepted? then ReplyTo(c.command, fields) else None)
  }

  function OneRead(c: Conn, read: Read): Step {
    if c.stopped then Step(c, false, false, false, None)
    else match read
      case TimedOut => Step(Fresh(c), false, false, false, None)
      case Closed => Step(Fresh(c).(stopped := true), true, false, false, None)
      case Data(bytes) =>
        var d := Recognise(Fresh(c).(recv := Fresh(c).recv + bytes));
        if !d.hdr.HdrUnknown? && !EndsHeader(d.recv) then Step(d, true, false, false, None)
        else if d.hdr.Invalid? then Step(d.(recv := ""), false, false, false, Some(BadRequest(d.fields.cseq)))
        else Handle(d, |bytes|)
  }

  /** The end of the connection stops a session at once, whatever it has received or is doing, and without a word. */
  lemma EndStops(c: Conn, read: Read)
    requires read.Closed? && !c.stopped
    ensures var step := OneRead(c, read);
      && step.conn.stopped && step.ret && step.reply == None && !step.initUdp && !step.stuck
      && step.conn.streaming == c.streaming && step.conn.fields == c.fields
      && step.conn.rtpClientPort == c.rtpClientPort
  {
  }

  /** Nothing else does but a TEARDOWN. */
  lemma StopsBy(c: Conn, read: Read)
    requires !c.stopped && !read.Closed? && OneRead(c, read).conn.stopped
    ensures OneRead(c, read).conn.command.Teardown?
  {
    hide Parse, HasLine, Classify, EndsHeader, ReplyTo;
  }

  /** And only a PLAY makes it stream. */
  lemma StreamsBy(c: Conn, read: Read)
    requires !c.streaming && OneRead(c, read).conn.streaming
    ensures OneRead(c, read).conn.command.Play?
  {
    hide Parse, HasLine, Classify, EndsHeader, ReplyTo;
  }

  /** A buffer that holds 499 bytes starts over with the next read; one that holds fewer goes on, and nothing is done,
      until its last four bytes are two line breaks, even if it holds such before. */
  lemma FullBuffer(c: Conn, bytes: string)
    requires !c.stopped && !c.hdr.HdrUnknown? && 0 < |c.recv| < 500
    ensures |c.recv| == 499 ==> OneRead(c, Data(bytes)) == OneRead(c.(recv := ""), Data(bytes))
    ensures |c.recv| < 499 ==>
      var t := c.recv + bytes;
      |t| < 4 || t[|t| - 4..] != "\r\n\r\n" ==> OneRead(c, Data(bytes)) == Step(c.(recv := t), true, false, false, None)
  {
    hide Parse, HasLine, Classify, ReplyTo, Cleared;
  }

  /** What has been received never fills the buffer. */
  lemma ReadFits(c: Conn, read: Read)
    requires CanRead(c, read)
    ensures |OneRead(c, read).conn.recv| < RTSP_BUFFER_SIZE
  {
    hide Parse, HasLine, Classify, ReplyTo, EndsHeader;
  }

  // ----- the loops of the parser

  method SkipWhile(req: string, from: nat, cls: Class) returns (cur: nat)
    requires from <= |req|
    ensures from <= cur <= |req| && cur == from + Skip(req[from..], cls)
    ensures req[cur..] == Rest(req[from..], cls)
  {
    cur := from;
    while cur < |req| && In(req[cur], cls)
      invariant from <= cur <= |req|
      invariant cur + Skip(req[cur..], cls) == from + Skip(req[from..], cls)
    {
      assert req[cur..][1..] == req[cur + 1..];
      cur := cur + 1;
    }
  }

  method SkipName(req: string) returns (cur: nat)
    ensures cur == NameLength(req, 19)
  {
    cur := 0;
    assert req[0..] == req;
    while cur < 19 && cur < |req| && !IsBlank(req[cur])
      invariant cur <= |req| && cur <= 19
      invariant cur + NameLength(req[cur..], 19 - cur) == NameLength(req, 19)
    {
      assert req[cur..][1..] == req[cur + 1..];
      cur := cur + 1;
    }
  }

  method SkipToLineEnd(req: string, from: nat) returns (cur: nat)
    requires from <= |req|
    ensures from <= cur <= |req| && cur == from + LineEnd(req[from..])
  {
    cur := from;
    while cur < |req| && req[cur] != NUL && req[cur] != '\r' && (cur + 1 == |req| || req[cur + 1] != '\n')
      invariant from <= cur <= |req|
      invariant cur + LineEnd(req[cur..]) == from + LineEnd(req[from..])
    {
      assert req[cur..][1..] == req[cur + 1..];
      cur := cur + 1;
    }
  }

  /** The loop that copies a part of the URL. */
  method CopyPart(req: string, from: nat, limit: nat) returns (ok: bool, word: string, cur: nat)
    requires from <= |req|
    ensures var p := TakePart(req[from..], limit);
      && ok == p.fits && word == p.word && from <= cur <= |req| && (ok ==> req[cur..] == p.after)
  {
    hide In, Skip;
    ghost var t := req[from..];
    cur := from;
    word := "";
    ok := true;
    while cur < |req| && In(req[cur], Token)
      invariant from <= cur <= |req| && cur - from <= limit
      invariant word == t[..cur - from]
      invariant forall i :: 0 <= i < cur - from ==> In(t[i], Token)
    {
      assert t[cur - from] == req[cur];
      if |word| == limit {
        assert Skip(t, Token) > limit;
        ok := false;
        return;
      }
      word := word + [req[cur]];
      cur := cur + 1;
    }
    SkipIs(t, Token, cur - from);
    assert t[cur - from..] == req[cur..];
  }

  method SkipBlanksWithin(req: string, from: nat, most: int) returns (cur: nat)
    requires from <= |req|
    ensures from <= cur <= |req| && cur == from + SkipBlanks(req[from..], most)
  {
    cur := from;
    var count := most;
    while cur < |req| && count > 0 && IsBlank(req[cur])
      invariant from <= cur <= |req| && count == most - (cur - from)
      invariant cur + SkipBlanks(req[cur..], count) == from + SkipBlanks(req[from..], most)
    {
      assert req[cur..][1..] == req[cur + 1..];
      cur, count := cur + 1, count - 1;
    }
  }

  method SkipDigitsWithin(req: string, from: nat, most: int) returns (cur: nat)
    requires from <= |req|
    ensures from <= cur <= |req| && cur == from + SkipDigits(req[from..], most)
  {
    cur := from;
    var count := most;
    while cur < |req| && IsDigit(req[cur]) && count > 0
      invariant from <= cur <= |req| && count == most - (cur - from)
      invariant cur + SkipDigits(req[cur..], count) == from + SkipDigits(req[from..], most)
    {
      assert req[cur..][1..] == req[cur + 1..];
      cur, count := cur + 1, count - 1;
    }
  }

  method ParseNumericHeader(req: string, from: nat, maxLength: int) returns (r: Option<nat>, cur: nat)
    requires from <= |req|
    ensures var n := Numeric(req[from..], maxLength);
      && from <= cur <= |req|
      && (n.None? <==> r.None?)
      && (n.Some? ==> r == Some(n.value.value) && req[cur..] == n.value.rest)
  {
    hide SkipBlanks, SkipDigits, Value, IsDigit, Numeric;
    var start := SkipBlanksWithin(req, from, maxLength);
    var count := maxLength - (start - from);
    if start == |req| || !IsDigit(req[start]) || count == 0 {
      NumericNone(req, from, maxLength, start);
      return None, from;
    }
    cur := SkipDigitsWithin(req, start, count);
    NumericSome(req, from, maxLength, start, cur);
    if count - (cur - start) == 0 {
      return None, from;
    }
    r := Some(Value(req[start..cur]));
  }

  lemma {:induction false} NumericSome(req: string, from: nat, most: int, start: nat, cur: nat)
    requires from <= start < |req| && start == from + SkipBlanks(req[from..], most) && IsDigit(req[start])
    requires start <= cur <= |req| && most != start - from
    requires cur == start + SkipDigits(req[start..], most - (start - from))
    ensures Numeric(req[from..], most)
      == if most == cur - from then None else Some(Number(Value(req[start..cur]), req[cur..]))
  {
    hide SkipBlanks, SkipDigits, Value, IsDigit, Numeric;
    Slice(req, from, start, cur);
    assert Hd(req[from..], start - from) == req[start];
    NumericIs(req[from..], most, start - from, cur - start);
  }

  lemma Slice(req: string, from: nat, a: nat, b: nat)
    requires from <= a <= b <= |req|
    ensures req[from..][a - from..] == req[a..] && req[from..][b - from..] == req[b..]
    ensures req[from..][a - from..b - from] == req[a..b]
  {
  }

  lemma {:induction false} NumericNone(req: string, from: nat, most: int, start: nat)
    requires from <= start <= |req| && start == from + SkipBlanks(req[from..], most)
    requires start == |req| || !IsDigit(req[start]) || most == start - from
    ensures Numeric(req[from..], most) == None
  {
    hide SkipDigits, Value, SkipBlanks;
    var t, k := req[from..], start - from;
    assert Hd(t[k..], 0) == if start < |req| then req[start] else NUL;
  }

  lemma GlueTwo(req: string, p: nat)
    requires p + 2 < |req| && req[p] == '\r' && req[p + 1] == '\n' && IsBlank(req[p + 2])
    ensures Glue(req[p..]) == "  " + Glue(req[p + 2..])
  {
    assert req[p..][2..] == req[p + 2..];
  }

  lemma GlueOne(req: string, p: nat)
    requires p < |req| && req[p] != NUL && !(req[p] == '\r' && p + 1 < |req| && req[p + 1] == '\n')
    ensures Glue(req[p..]) == [req[p]] + Glue(req[p + 1..])
  {
    assert req[p..][1..] == req[p + 1..];
  }

  lemma GlueEnd(req: string, p: nat)
    requires p <= |req|
    requires p == |req| || req[p] == NUL
      || (req[p] == '\r' && p + 1 < |req| && req[p + 1] == '\n' && (p + 2 == |req| || !IsBlank(req[p + 2])))
    ensures Glue(req[p..]) == req[p..]
  {
  }

  /** Up to p the text from `from` on has been glued, to `done`. */
  predicate Gluing(req: string, from: nat, p: nat, glued: string, done: string) {
    && from <= p <= |req| && |done| == p - from && glued == req[..from] + done + req[p..]
    && done + Glue(req[p..]) == Glue(req[from..])
  }

  lemma GlueStart(req: string, from: nat)
    requires from <= |req|
    ensures Gluing(req, from, from, req, "")
  {
    hide Glue;
    assert "" + Glue(req[from..]) == Glue(req[from..]);
    assert req == req[..from] + "" + req[from..];
  }

  lemma GlueSame(req: string, from: nat, p: nat, glued: string, done: string)
    requires Gluing(req, from, p, glued, done)
    ensures |glued| == |req| && forall i :: p <= i < |req| ==> glued[i] == req[i]
  {
  }

  lemma GlueBreak(req: string, from: nat, p: nat, glued: string, done: string)
    requires Gluing(req, from, p, glued, done)
    requires p + 2 < |req| && req[p] == '\r' && req[p + 1] == '\n' && IsBlank(req[p + 2])
    ensures |glued| == |req| && Gluing(req, from, p + 2, glued[p := ' '][p + 1 := ' '], done + "  ")
  {
    GlueTwo(req, p);
    hide Glue, IsBlank;
    Associative(done, "  ", Glue(req[p + 2..]));
    assert glued[p := ' '][p + 1 := ' '] == req[..from] + (done + "  ") + req[p + 2..];
  }

  lemma GlueChar(req: string, from: nat, p: nat, glued: string, done: string)
    requires Gluing(req, from, p, glued, done)
    requires p < |req| && req[p] != NUL && !(req[p] == '\r' && p + 1 < |req| && req[p + 1] == '\n')
    ensures Gluing(req, from, p + 1, glued, done + [req[p]])
  {
    GlueOne(req, p);
    hide Glue, IsBlank;
    Associative(done, [req[p]], Glue(req[p + 1..]));
    assert glued == req[..from] + (done + [req[p]]) + req[p + 1..];
  }

  /** The loop that peeks past each CRLF of a header line and blanks it out where the line continues. */
  method GlueLines(req: string, from: nat) returns (glued: string)
    requires from <= |req|
    ensures |glued| == |req| && glued[..from] == req[..from] && glued[from..] == Glue(req[from..])
  {
    hide Glue, IsBlank;
    glued := req;
    var p := from;
    ghost var done := "";
    GlueStart(req, from);
    while p < |glued| && glued[p] != NUL
      invariant from <= p <= |glued| == |req| && |done| == p - from
      invariant Gluing(req, from, p, glued, done)
    {
      GlueSame(req, from, p, glued, done);
      if glued[p] == '\r' && p + 1 < |glued| && glued[p + 1] == '\n' {
        if p + 2 == |glued| || !IsBlank(glued[p + 2]) {
          break;
        }
        GlueBreak(req, from, p, glued, done);
        glued := glued[p := ' '];
        p := p + 1;
        glued := glued[p := ' '];
        done := done + "  ";
      } else {
        GlueChar(req, from, p, glued, done);
        done := done + [req[p]];
      }
      p := p + 1;
    }
    GlueSame(req, from, p, glued, done);
    GlueEnd(req, p);
    assert glued[from..] == done + req[p..];
  }

  // ----- the parser

  method CopyPartSlash(req: string, from: nat, limit: nat) returns (ok: bool, word: string, cur: nat)
    requires from <= |req|
    ensures var p := TakePartSlash(req[from..], limit);
      && ok == p.fits && word == p.word && from <= cur <= |req| && (ok ==> req[cur..] == p.after)
  {
    hide TakePart, Skip;
    ok, word, cur := CopyPart(req, from, limit);
    if !ok || cur == |req| || req[cur] != '/' {
      ok := false;
      return;
    }
    cur := SkipWhile(req, cur, Slash);
  }

  method ParseStreamPart(req: string, from: nat) returns (ok: bool, stream: string, cur: nat)
    requires from <= |req|
    ensures var (k, word, rest) := ParseStream(req[from..]);
      ok == k && stream == word && cur <= |req| && (ok ==> req[cur..] == rest)
  {
    hide Skip, TakePart, IsBlank, Rest;
    var fits;
    ok := false;
    fits, stream, cur := CopyPart(req, from, RTSP_PARAM_STRING_MAX);
    if !fits {
      return;
    }
    cur := SkipWhile(req, cur, Slash);
    assert IsBlank(Hd(req[cur..], 0)) ==> cur < |req| by { NulIsNoBlank(); }
    if cur == |req| || !IsBlank(req[cur]) {
      return;
    }
    cur := SkipWhile(req, cur, Space);
    if !("RTSP/" <= req[cur..]) {
      return;
    }
    var v := cur + 5;
    if v + 2 >= |req| || !IsDigit(req[v]) || req[v + 1] != '.' || !IsDigit(req[v + 2]) {
      return;
    }
    assert req[cur..][8..] == req[v + 3..];
    ok := true;
    cur := v + 3;
  }

  lemma NulIsNoBlank()
    ensures !IsBlank(NUL)
  {
  }

  method ParseUrl(req: string) returns (ok: bool, host: string, presentation: string, stream: string, cur: nat)
    ensures var t := ParseTarget(req);
      && ok == t.ok && host == t.host && presentation == t.presentation && stream == t.stream
      && cur <= |req| && (ok ==> req[cur..] == t.rest)
  {
    hide NameLength, Skip, TakePartSlash, Lower, Rest, ParseStream;
    ok, host, presentation, stream := false, "", "", "";
    cur := SkipName(req);
    cur := SkipWhile(req, cur, Space);
    if !StartsNoCase(req[cur..], "rtsp://") {
      return;
    }
    assert req[cur..][7..] == req[cur + 7..];
    var fits;
    fits, host, cur := CopyPartSlash(req, cur + 7, MAX_HOSTNAME_LEN);
    if !fits {
      return;
    }
    fits, presentation, cur := CopyPartSlash(req, cur, RTSP_PARAM_STRING_MAX);
    if !fits {
      return;
    }
    ok, stream, cur := ParseStreamPart(req, cur);
  }

  /** A port of the Transport line. The NUL that ends it for atoi stays in the buffer unless it stands where the
      next parameter starts; nothing reads that far back again. */
  method ParsePort(f: Fields, req0: string, from: nat, next: nat) returns (ok: bool, g: Fields, req: string)
    requires from + 12 <= next < |req0| && "client_port=" <= req0[from..] && next == from + NextPart(req0[from..])
    ensures |req| == |req0| && req[next..] == req0[next..]
    ensures var u := req0[from..][12..];
      && (ok <==> Skip(u, Digit) > 0)
      && g == if ok then f.(rtpPort := PortOf(u), rtcpPort := (PortOf(u) + 1) % 0x1_0000) else f
  {
    hide Skip, NextPart, Value;
    req, g := req0, f;
    ghost var u := req0[from..];
    assert u[12..] == req0[from + 12..];
    var p := SkipWhile(req, from + 12, Digit);
    if p == from + 12 {
      ok := false;
      return;
    }
    PortBeforeNext(u, p - from);
    var last := req[next];
    req := req[p := NUL];
    assert u[12..][..p - from - 12] == req[from + 12..p];
    var port := Value(req[from + 12..p]) % 0x1_0000;
    g := g.(rtpPort := port, rtcpPort := (port + 1) % 0x1_0000);
    req := req[next := last];
    ok := true;
  }

  method ParseParams(f: Fields, req0: string, from: nat) returns (v: Verdict, g: Fields, req: string, cur: nat)
    requires from <= |req0|
    ensures var r := Params(f, req0[from..]);
      && v == r.verdict && g == r.fields && |req| == |req0| && cur <= |req|
      && (v.Accepted? ==> req[cur..] == r.rest)
  {
    hide Skip, NextPart, PortOf, Params, Rest;
    req, cur, g := req0, from, f;
    ghost var goal := Params(f, req0[from..]);
    while true
      invariant cur <= |req| == |req0|
      invariant Params(g, req[cur..]) == goal
      decreases |req| - cur
    {
      ghost var t := req[cur..];
      cur := SkipWhile(req, cur, Separator);
      ghost var u := req[cur..];
      ParamsTurn(g, t, u);
      if cur == |req| || req[cur] == NUL {
        v := Rejected;
        return;
      }
      if "\r\n" <= req[cur..] {
        v := Accepted;
        return;
      }
      var next := cur + NextPart(req[cur..]);
      if next == |req| {
        v := Rejected;
        return;
      }
      if "client_port=" <= req[cur..] {
        PortNameBeforeNext(u);
        var ok;
        ok, g, req := ParsePort(g, req, cur, next);
        if !ok {
          v := Rejected;
          return;
        }
      }
      if next == cur {
        v := Stuck;
        return;
      }
      assert u[next - cur..] == req[next..];
      cur := next;
    }
  }

  lemma {:induction false} PortNameBeforeNext(u: string)
    requires "client_port=" <= u && NextPart(u) < |u|
    ensures 12 <= NextPart(u)
  {
    hide NextPart;
    assert forall i :: 0 <= i < 12 ==> u[i] == "client_port="[i];
  }

  lemma {:induction false} PortBeforeNext(u: string, p: nat)
    requires "client_port=" <= u && p == 12 + Skip(u[12..], Digit) && NextPart(u) < |u|
    ensures p <= NextPart(u)
  {
    hide NextPart, Skip;
    PortNameBeforeNext(u);
    var n := NextPart(u);
    assert u[n] == u[12..][n - 12];
  }

  /** A Transport line, from after its name on. */
  method ParseTransportLine(f: Fields, req0: string, from: nat) returns (v: Verdict, g: Fields, req: string, cur: nat)
    requires from <= |req0|
    ensures var r := ParseTransport(f, req0[from..]);
      && v == r.verdict && g == r.fields && |req| == |req0| && cur <= |req|
      && (v.Accepted? ==> req[cur..] == r.rest)
  {
    hide Skip, Params;
    req, g := req0, f;
    cur := SkipWhile(req, from, Space);
    if !("RTP/AVP" <= req[cur..]) {
      v := Rejected;
      return;
    }
    assert req[cur..][7..] == req[cur + 7..];
    cur := cur + 7;
    var tcp := "/TCP" <= req[cur..];
    if tcp {
      assert req[cur..][4..] == req[cur + 4..];
      cur := cur + 4;
    }
    v, g, req, cur := ParseParams(f.(tcp := tcp, rtpPort := 0), req, cur);
  }

  method ParseHeaderLine(f: Fields, setup: bool, req0: string, from: nat, size: nat)
      returns (v: Verdict, g: Fields, req: string, cur: nat)
    requires from < |req0|
    ensures var r := HeaderLine(f, setup, req0[from..], size - |req0|);
      && |req| == |req0| && cur <= |req|
      && (r.Stop? ==> v == r.verdict && !v.Accepted? && g == r.end)
      && (r.More? ==> v.Accepted? && g == r.fields && req[cur..] == r.rest)
  {
    hide Skip, Numeric, Glue, ParseTransport, Rest;
    req, cur, g, v := req0, from, f, Rejected;
    ghost var u := req[cur..];
    var left := size - cur;
    if "CSeq:" <= req[cur..] {
      assert u[5..] == req[cur + 5..];
      var n;
      n, cur := ParseNumericHeader(req, cur + 5, left - 5);
      if n.Some? {
        g, v := g.(cseq := n.value), Accepted;
      }
    } else if "Content-Length:" <= req[cur..] {
      assert u[15..] == req[cur + 15..];
      var n;
      n, cur := ParseNumericHeader(req, cur + 15, left - 15);
      if n.Some? {
        g, v := g.(contentLength := n.value), Accepted;
      }
    } else {
      req := GlueLines(req, cur);
      if setup && "Transport:" <= req[cur..] {
        assert req[cur..][10..] == req[cur + 10..];
        v, g, req, cur := ParseTransportLine(g, req, cur + 10);
        if !v.Accepted? {
          return;
        }
      }
      cur := SkipWhile(req, cur, LineText);
      v := Accepted;
    }
  }

  /** The loop over header lines; `size` is what the caller says the request's size is. */
  method ParseHeaders(f: Fields, setup: bool, req0: string, from: nat, size: nat) returns (v: Verdict, g: Fields)
    requires from <= |req0|
    ensures (v, g) == Headers(f, setup, req0[from..], size - |req0|)
  {
    hide LineEnd, HeaderLine;
    var req, cur := req0, from;
    g := f;
    while true
      invariant cur <= |req| == |req0|
      invariant Headers(g, setup, req[cur..], size - |req0|) == Headers(f, setup, req0[from..], size - |req0|)
      decreases |req| - cur
    {
      ghost var t, start := req[cur..], cur;
      cur := SkipToLineEnd(req, cur);
      assert t[cur - start..] == req[cur..];
      if cur == |req| || req[cur] == NUL {
        v := Rejected;
        return;
      }
      assert Drop(req[cur..], 2) == Drop(req, cur + 2);
      cur := if cur + 2 <= |req| then cur + 2 else |req|;
      if cur == |req| || req[cur] == NUL {
        v := Accepted;
        return;
      }
      v, g, req, cur := ParseHeaderLine(g, setup, req, cur, size);
      if !v.Accepted? {
        return;
      }
    }
  }

  method ParseRequest(f: Fields, setup: bool, req: string, size: nat) returns (v: Verdict, g: Fields)
    ensures (v, g) == Parse(f, setup, req, size - |req|)
  {
    hide ParseTarget, Headers;
    var ok, host, presentation, stream, cur := ParseUrl(req);
    g := f.(host := host, presentation := presentation, stream := stream, contentLength := 0);
    if !ok {
      v := Rejected;
      return;
    }
    v, g := ParseHeaders(g, setup, req, cur, size);
  }

  // ----- the session

  /** What a call does to the shared UDP transport. */
  function UdpAfter(u: Udp, init: bool, free: nat -> bool): Udp {
    if init then Init(u, free) else u
  }

  class CRtspSession {
    const socket: nat
    const udp: Transport
    const recvBuf: array<char>
    var bufPos: nat
    var hdr: HdrState
    var command: Command
    var streaming: bool
    var stopped: bool
    var fields: Fields  // what the last request left: URL parts, CSeq, content length, transport, client ports
    var rtpClientPort: nat
    var rtcpClientPort: nat

    ghost predicate Valid()
      reads this
    {
      recvBuf.Length == RTSP_BUFFER_SIZE && bufPos < RTSP_BUFFER_SIZE
    }

    function View(): (c: Conn)
      requires Valid()
      reads this, recvBuf
      ensures |c.recv| < RTSP_BUFFER_SIZE
    {
      Conn(recvBuf[..bufPos], hdr, command, streaming, stopped, fields, rtpClientPort, rtcpClientPort)
    }

    constructor (socket: nat, udp: Transport)
      ensures Valid() && fresh(recvBuf) && this.socket == socket && this.udp == udp
      ensures View() == NewConn()
        == Conn("", HdrUnknown, Unknown, false, false, Fields("", "", "", 0, 0, false, 0, 0), 0, 0)
    {
      this.socket := socket;
      this.udp := udp;
      recvBuf := new char[RTSP_BUFFER_SIZE](_ => NUL);
      bufPos, hdr, command, streaming, stopped := 0, HdrUnknown, Unknown, false, false;
      fields, rtpClientPort, rtcpClientPort := Fields("", "", "", 0, 0, false, 0, 0), 0, 0;
    }

    /** What the media path looks at. */
    function AsClient(): Client
      reads this
    {
      Client(socket, streaming, stopped, fields.tcp, rtpClientPort)
    }

    method InitTransport(rtpPort: nat, rtcpPort: nat, free: nat -> bool)
      modifies this`rtpClientPort, this`rtcpClientPort, udp
      ensures rtpClientPort == rtpPort && rtcpClientPort == rtcpPort
      ensures udp.View() == UdpAfter(old(udp.View()), !fields.tcp, free)
    {
      rtpClientPort := rtpPort;
      rtcpClientPort := rtcpPort;
      if !fields.tcp {
        var _ := udp.InitUdpTransport(free);
      }
    }

    /** Handle_RtspRequest; what it writes to the socket is handed to the caller. */
    method HandleRtspRequest(size: nat, free: nat -> bool) returns (stuck: bool, reply: Option<Reply>)
      requires Valid()
      modifies this`fields, this`rtpClientPort, this`rtcpClientPort, udp
      ensures var (verdict, g) := Parse(old(fields), command.Setup?, recvBuf[..bufPos], size - bufPos);
        var setup := verdict.Accepted? && command.Setup?;
        && fields == g && stuck == verdict.Stuck?
        && reply == (if verdict.Accepted? then ReplyTo(command, g) else None)
        && rtpClientPort == (if setup then g.rtpPort else old(rtpClientPort))
        && rtcpClientPort == (if setup then g.rtcpPort else old(rtcpClientPort))
        && udp.View() == UdpAfter(old(udp.View()), setup && !g.tcp, free)
    {
      hide Parse;
      var verdict;
      verdict, fields := ParseRequest(fields, command.Setup?, recvBuf[..bufPos], size);
      stuck, reply := verdict.Stuck?, None;
      if verdict.Accepted? {
        match command {
          case Options =>
            reply := Some(Capabilities(fields.cseq));
          case Describe =>
            if fields.presentation == URI_PRESENTATION && fields.stream == URI_STREAM {
              reply := Some(Described(fields.cseq, fields.host, fields.presentation, fields.stream));
            } else {
              reply := Some(NotFound(fields.cseq));
            }
          case Setup =>
            InitTransport(fields.rtpPort, fields.rtcpPort, free);
            reply := Some(Prepared(fields.cseq, fields.tcp, fields.rtpPort, fields.rtcpPort));
          case Play =>
            reply := Some(Playing(fields.cseq));
          case Teardown =>
          case Unknown =>
        }
      }
    }

    /** The buffer starts over after a request, or when a bad client filled it. */
    method StartOver()
      requires Valid()
      modifies this`bufPos, this`hdr, recvBuf
      ensures Valid() && View() == Fresh(old(View()))
    {
      if bufPos == 0 || bufPos >= recvBuf.Length - 1 {
        forall i | 0 <= i < recvBuf.Length {
          recvBuf[i] := NUL;
        }
        bufPos := 0;
        hdr := HdrUnknown;
      }
    }

    /** What a read does to the buffer, and the search for the command once a line is complete. */
    method Receive(bytes: string)
      requires Valid() && bufPos + |bytes| < RTSP_BUFFER_SIZE
      modifies this`bufPos, this`hdr, this`command, this`fields, recvBuf
      ensures Valid() && View() == Recognise(old(View()).(recv := old(View()).recv + bytes))
    {
      hide HasLine, Classify;
      var res := |bytes|;
      forall i | 0 <= i < res {
        recvBuf[bufPos + i] := bytes[i];
      }
      bufPos := bufPos + res;
      recvBuf[bufPos] := NUL;
      assert recvBuf[..bufPos] == old(recvBuf[..bufPos]) + bytes;
      if hdr.HdrUnknown? && bufPos >= 6 {
        if HasLine(recvBuf[..bufPos]) {
          fields := Cleared(fields);
          command := Classify(recvBuf[..bufPos]);
          hdr := if !command.Unknown? then GotMethod else Invalid;
        }
      }
    }

    /** One call of handleRequests, with what the socket delivers. */
    method HandleRequests(read: Read, free: nat -> bool) returns (ret: bool, stuck: bool, reply: Option<Reply>)
      requires Valid() && CanRead(View(), read)
      modifies this, recvBuf, udp
      ensures Valid()
      ensures var step := OneRead(old(View()), read);
        && View() == step.conn && ret == step.ret && stuck == step.stuck && reply == step.reply
        && udp.View() == UdpAfter(old(udp.View()), step.initUdp, free)
    {
      hide Parse, Recognise, ReplyTo;
      stuck, reply := false, None;
      if stopped {
        return false, false, None;
      }
      StartOver();
      match read {
        case TimedOut =>
          return false, false, None;
        case Closed =>
          stopped := true;
          return true, false, None;
        case Data(bytes) =>
          Receive(bytes);
          if !hdr.HdrUnknown? {
            if !EndsHeader(recvBuf[..bufPos]) {
              return true, false, None;
            }
            if hdr.Invalid? {
              bufPos := 0;
              return false, false, Some(BadRequest(fields.cseq));
            }
          }
          ret, stuck, reply := Answer(|bytes|, free);
      }
    }

    /** Acts on the request in the buffer. */
    method Answer(size: nat, free: nat -> bool) returns (ret: bool, stuck: bool, reply: Option<Reply>)
      requires Valid() && !stopped
      modifies this`fields, this`rtpClientPort, this`rtcpClientPort, this`streaming, this`stopped, this`hdr
      modifies this`bufPos, udp
      ensures Valid()
      ensures var step := Handle(old(View()), size);
        && View() == step.conn && ret == step.ret && stuck == step.stuck && reply == step.reply
        && udp.View() == UdpAfter(old(udp.View()), step.initUdp, free)
    {
      hide Parse, ReplyTo;
      stuck, reply := HandleRtspRequest(size, free);
      if stuck {
        return false, true, None;
      }
      if command.Play? {
        streaming := true;
      } else if command.Teardown? {
        stopped := true;
      }
      hdr := HdrUnknown;
      bufPos := 0;
      ret := true;
    }
  }
}
