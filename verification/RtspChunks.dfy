/** Requests that arrive in pieces: CRtspSession::handleRequests of src/CRtspSession.cpp over several reads. */
module RtspChunks {
  import opened RtspParser
  import opened RtspReplies
  import opened RtspRequest
  import opened RtspSession
  import opened RtspUrl
  import opened Wrappers
  import opened Sequences

  /** What a series of calls comes to: the session, how often it brought up UDP, and what it replied. */
  datatype Fed = Fed(conn: Conn, inits: nat, replies: seq<Reply>)

  function Feed(c: Conn, rs: seq<Read>): Fed
    decreases |rs|
  {
    if rs == [] then Fed(c, 0, [])
    else
      var step := OneRead(c, rs[0]);
      After(step, Feed(step.conn, rs[1..]))
  }

  function After(step: Step, d: Fed): Fed {
    Fed(d.conn, d.inits + (if step.initUdp then 1 else 0),
        (if step.reply.Some? then [step.reply.value] else []) + d.replies)
  }

  function Bytes(rs: seq<Read>): string {
    if rs == [] then "" else (if rs[0].Data? then rs[0].bytes else "") + Bytes(rs[1..])
  }

  /** Non-empty pieces with timeouts in between. */
  predicate Pieces(rs: seq<Read>) {
    forall r <- rs :: !r.Closed? && (r.Data? ==> r.bytes != "")
  }

  /** The first piece. */
  function FirstData(rs: seq<Read>): string {
    if rs == [] then "" else if rs[0].Data? then rs[0].bytes else FirstData(rs[1..])
  }

  /** The last piece, whose size is what the parser is told. */
  function LastData(rs: seq<Read>): string {
    if rs == [] then ""
    else if LastData(rs[1..]) != "" then LastData(rs[1..])
    else if rs[0].Data? then rs[0].bytes
    else ""
  }

  /** Every CR is followed by LF. */
  predicate Paired(t: string) {
    forall i :: 0 <= i < |t| && t[i] == '\r' ==> i + 1 < |t| && t[i + 1] == '\n'
  }

  /** A request that fits the buffer and whose only empty line is at its end. */
  predicate Whole(req: string) {
    && |req| < RTSP_BUFFER_SIZE && NUL !in req && Paired(req) && EndsHeader(req)
    && forall n :: 0 <= n < |req| ==> !EndsHeader(req[..n])
  }

  /** The request line is complete: a line ends after the optional empty line in front. */
  predicate HoldsRequestLine(first: string) {
    && |first| >= 6
    && exists i :: (if "\r\n" <= first then 2 else 0) <= i < |first| - 1 && first[i] == '\r' && first[i + 1] == '\n'
  }

  // ----- the parser cannot hang on such a request

  lemma PairedRest(t: string, n: nat)
    requires Paired(t) && n <= |t|
    ensures Paired(t[n..])
  {
  }

  lemma {:induction false} ParamsNotStuck(f: Fields, t: string)
    requires Paired(t)
    ensures !Params(f, t).verdict.Stuck? && Paired(Params(f, t).rest)
    decreases |t|
  {
    hide Skip, NextPart, PortOf;
    var u := Rest(t, Separator);
    PairedRest(t, Skip(t, Separator));
    ParamsTurn(f, t, u);
    if !Ended(u) && !("\r\n" <= u) {
      var n := NextPart(u);
      if 0 < n < |u| {
        PairedRest(u, n);
        var g :=
          if "client_port=" <= u then f.(rtpPort := PortOf(u[12..]), rtcpPort := (PortOf(u[12..]) + 1) % 0x1_0000)
          else f;
        ParamsNotStuck(g, u[n..]);
      } else if n == 0 {
        NothingBeforeSeparator(t);
      }
    }
  }

  lemma NothingBeforeSeparator(t: string)
    requires Rest(t, Separator) != ""
    ensures Rest(t, Separator)[0] != ';'
  {
  }

  lemma {:induction false} GluePaired(t: string)
    requires Paired(t)
    ensures Paired(Glue(t))
    decreases |t|
  {
    if !Ended(t) {
      if t[0] == '\r' && Hd(t, 1) == '\n' {
        if SpaceOrTab(Hd(t, 2)) {
          PairedRest(t, 2);
          GluePaired(t[2..]);
        }
      } else {
        PairedRest(t, 1);
        GluePaired(t[1..]);
        GlueFront(t[1..]);
      }
    }
  }

  lemma {:induction false} GlueFront(t: string)
    ensures t != "" && t[0] == '\n' ==> Glue(t)[0] == '\n'
  {
  }

  lemma TransportNotStuck(f: Fields, t: string)
    requires Paired(t)
    ensures !ParseTransport(f, t).verdict.Stuck? && Paired(ParseTransport(f, t).rest)
  {
    hide Skip, Params;
    PairedRest(t, Skip(t, Space));
    var u := Rest(t, Space);
    if "RTP/AVP" <= u {
      var tcp := "/TCP" <= u[7..];
      PairedRest(u, if tcp then 11 else 7);
      ParamsNotStuck(f.(tcp := tcp, rtpPort := 0), if tcp then u[11..] else u[7..]);
    }
  }

  lemma NumericPaired(t: string, count: int)
    requires Paired(t)
    ensures Numeric(t, count).Some? ==> Paired(Numeric(t, count).value.rest)
  {
    hide Value;
  }

  lemma LineNotStuck(f: Fields, setup: bool, t: string, slack: int)
    requires Paired(t)
    ensures var r := OneLine(f, setup, t, slack);
      (r.Stop? ==> !r.verdict.Stuck?) && (r.More? ==> Paired(r.rest))
  {
    hide LineEnd, Numeric, Skip, Glue, ParseTransport, Paired;
    PairedRest(t, LineEnd(t));
    var line := t[LineEnd(t)..];
    if !Ended(line) {
      PairedRest(line, if |line| < 2 then |line| else 2);
      var u := Drop(line, 2);
      assert |line| < 2 ==> line[|line|..] == "";
      if !Ended(u) {
        HeaderNotStuck(f, setup, u, slack);
      }
    }
  }

  lemma HeaderNotStuck(f: Fields, setup: bool, u: string, slack: int)
    requires Paired(u)
    ensures var r := HeaderLine(f, setup, u, slack);
      (r.Stop? ==> !r.verdict.Stuck?) && (r.More? ==> Paired(r.rest))
  {
    hide Numeric, Skip, Glue, ParseTransport, Paired;
    if "CSeq:" <= u {
      PairedRest(u, 5);
      NumericPaired(u[5..], |u| + slack - 5);
    } else if "Content-Length:" <= u {
      PairedRest(u, 15);
      NumericPaired(u[15..], |u| + slack - 15);
    } else {
      var g := Glue(u);
      GluePaired(u);
      PairedRest(g, Skip(g, LineText));
      if "Transport:" <= g {
        PairedRest(g, 10);
        TransportNotStuck(f, g[10..]);
        var rest := ParseTransport(f, g[10..]).rest;
        PairedRest(rest, Skip(rest, LineText));
      }
    }
  }

  lemma {:induction false} HeadersNotStuck(f: Fields, setup: bool, t: string, slack: int)
    requires Paired(t)
    ensures !Headers(f, setup, t, slack).0.Stuck?
    decreases |t|
  {
    hide OneLine, Paired;
    LineNotStuck(f, setup, t, slack);
    var r := OneLine(f, setup, t, slack);
    if r.More? {
      HeadersNotStuck(r.fields, setup, r.rest, slack);
    }
  }

  lemma PartPaired(t: string, limit: nat)
    requires Paired(t)
    ensures Paired(TakePart(t, limit).after) && Paired(TakePartSlash(t, limit).after)
  {
    hide Skip, Paired;
    var n := Skip(t, Token);
    if n <= limit {
      PairedRest(t, n);
      PairedRest(t[n..], Skip(t[n..], Slash));
    }
    PairedRest("", 0);
    assert Paired("") by { NothingPaired(); }
  }

  lemma NothingPaired()
    ensures Paired("")
  {
  }

  lemma StreamPaired(t: string)
    requires Paired(t)
    ensures Paired(ParseStream(t).2)
  {
    NothingPaired();
    PartPaired(t, RTSP_PARAM_STRING_MAX);
    hide Skip, Paired, TakePart;
    var after := TakePart(t, RTSP_PARAM_STRING_MAX).after;
    PairedRest(after, Skip(after, Slash));
    var tail := Rest(after, Slash);
    PairedRest(tail, Skip(tail, Space));
    var u := Rest(tail, Space);
    if |u| >= 8 { PairedRest(u, 8); }
  }

  lemma TargetPaired(t: string)
    requires Paired(t)
    ensures Paired(ParseTarget(t).rest)
  {
    NothingPaired();
    hide Skip, Paired, NameLength, TakePartSlash, ParseStream;
    PairedRest(t, NameLength(t, 19));
    var t0 := t[NameLength(t, 19)..];
    PairedRest(t0, Skip(t0, Space));
    var u := Rest(t0, Space);
    if StartsNoCase(u, "rtsp://") {
      PairedRest(u, 7);
      PartPaired(u[7..], MAX_HOSTNAME_LEN);
      var host := TakePartSlash(u[7..], MAX_HOSTNAME_LEN);
      PartPaired(host.after, RTSP_PARAM_STRING_MAX);
      StreamPaired(TakePartSlash(host.after, RTSP_PARAM_STRING_MAX).after);
    }
  }

  lemma NotStuck(f: Fields, setup: bool, t: string, slack: int)
    requires Paired(t)
    ensures !Parse(f, setup, t, slack).0.Stuck?
  {
    hide ParseTarget, Headers, Paired;
    TargetPaired(t);
    var target := ParseTarget(t);
    HeadersNotStuck(f.(host := target.host, presentation := target.presentation, stream := target.stream,
                       contentLength := 0), setup, target.rest, slack);
  }

  // ----- the first piece settles the command

  /** A line is complete once it has its CR and LF, wherever they are. */
  lemma {:induction false} LineSeen(t: string)
    requires NUL !in t
    ensures HasLine(t) <==> exists i :: 0 <= i < |t| - 1 && t[i] == '\r' && t[i + 1] == '\n'
  {
    if t != "" {
      assert t[0] in t && forall c <- t[1..] :: c in t;
      LineSeen(t[1..]);
      if HasLine(t[1..]) {
        var i :| 0 <= i < |t[1..]| - 1 && t[1..][i] == '\r' && t[1..][i + 1] == '\n';
        assert t[i + 1] == '\r' && t[i + 1 + 1] == '\n';
      }
      if i :| 0 < i < |t| - 1 && t[i] == '\r' && t[i + 1] == '\n' {
        assert t[1..][i - 1] == '\r' && t[1..][i - 1 + 1] == '\n';
      }
    }
  }

  lemma {:induction false} LineFound(t: string, i: nat)
    requires NUL !in t && i + 1 < |t| && t[i] == '\r' && t[i + 1] == '\n'
    ensures HasLine(t)
  {
    assert t[0] in t;
    if i > 0 {
      assert forall c <- t[1..] :: c in t;
      LineFound(t[1..], i - 1);
    }
  }

  lemma NameSettled(name: string, first: string, req: string, i: nat)
    requires '\r' !in name && first <= req && i < |first| && first[i] == '\r'
    ensures name <= first <==> name <= req
  {
    if i < |name| {
      assert name[i] in name && req[i] == first[i];
    } else {
      assert first[..|name|] == req[..|name|];
    }
  }

  lemma CommandSettled(first: string, req: string)
    requires first <= req && HoldsRequestLine(first)
    ensures Classify(first) == Classify(req)
  {
    var skip: nat := if "\r\n" <= first then 2 else 0;
    var i :| skip <= i < |first| - 1 && first[i] == '\r' && first[i + 1] == '\n';
    assert "\r\n" <= first <==> "\r\n" <= req by {
      assert |first| >= 2 && first[0] == req[0] && first[1] == req[1];
    }
    assert first[skip..][i - skip] == '\r';
    hide HoldsRequestLine;
    Suffixes(first, req, skip);
    NamesSettled(first[skip..], req[skip..], i - skip);
  }

  lemma Suffixes(first: string, req: string, skip: nat)
    requires first <= req && skip <= |first|
    ensures first[skip..] <= req[skip..]
  {
    assert req[skip..][..|first| - skip] == req[..|first|][skip..];
  }

  lemma NamesSettled(first: string, req: string, i: nat)
    requires first <= req && i < |first| && first[i] == '\r'
    ensures "OPTIONS " <= first <==> "OPTIONS " <= req
    ensures "DESCRIBE " <= first <==> "DESCRIBE " <= req
    ensures "SETUP " <= first <==> "SETUP " <= req
    ensures "PLAY " <= first <==> "PLAY " <= req
    ensures "TEARDOWN " <= first <==> "TEARDOWN " <= req
  {
    NameSettled("OPTIONS ", first, req, i);
    NameSettled("DESCRIBE ", first, req, i);
    NameSettled("SETUP ", first, req, i);
    NameSettled("PLAY ", first, req, i);
    NameSettled("TEARDOWN ", first, req, i);
  }

  // ----- from piece to piece

  /** A session that has the whole request, its command recognised. */
  function Recognised(c: Conn, req: string): Conn {
    var command := Classify(req);
    c.(recv := req, hdr := if command.Unknown? then Invalid else GotMethod, command := command,
       fields := Cleared(c.fields))
  }

  /** What happens to a request of which the last piece has the given size. */
  function Dealt(c: Conn, req: string, size: nat): Step {
    var d := Recognised(c, req);
    if d.hdr.Invalid? then Step(d.(recv := ""), false, false, false, Some(BadRequest(d.fields.cseq)))
    else Handle(d, size)
  }

  /** Part of the request has arrived, at least its first line. */
  predicate Underway(c: Conn, start: Conn, req: string) {
    6 <= |c.recv| < |req| && c.recv <= req && !c.stopped && c.(recv := req) == Recognised(start, req)
  }

  /** The same but for the header state, which the next call resets as the buffer is empty. */
  predicate Alike(c: Conn, d: Conn) {
    c.recv == d.recv == "" && c == d.(hdr := c.hdr)
  }

  lemma DealtEmpty(c: Conn, req: string, size: nat)
    requires Paired(req)
    ensures Dealt(c, req, size).conn.recv == "" && !Dealt(c, req, size).stuck
  {
    hide Parse, Classify, Paired, ReplyTo;
    var d := Recognised(c, req);
    NotStuck(d.fields, d.command.Setup?, req, size - |req|);
  }

  /** What a call makes of bytes that bring the buffer to d. */
  lemma CompletePiece(c: Conn, start: Conn, req: string, b: string, d: Conn)
    requires !c.stopped && d == Recognise(Fresh(c).(recv := Fresh(c).recv + b)) && Whole(req)
    requires d.recv <= req && 6 <= |d.recv| && d.(recv := req) == Recognised(start, req) && !d.stopped
    ensures OneRead(c, Data(b)) ==
      if d.recv == req then Dealt(start, req, |b|) else Step(d, true, false, false, None)
    ensures d.recv != req ==> Underway(d, start, req)
  {
    hide Parse, Recognise, Classify, Handle, Fresh, Paired;
    if d.recv == req {
      assert d == Recognised(start, req);
    } else {
      assert d.recv == req[..|d.recv|] && !EndsHeader(d.recv);
    }
  }

  /** A further piece. */
  lemma NextPiece(c: Conn, start: Conn, req: string, b: string)
    requires Whole(req) && Underway(c, start, req) && b != "" && c.recv + b <= req
    ensures var d := c.(recv := c.recv + b);
      && OneRead(c, Data(b)) == (if d.recv == req then Dealt(start, req, |b|) else Step(d, true, false, false, None))
      && (d.recv != req ==> Underway(d, start, req))
  {
    hide Parse, HasLine, Classify, OneRead, Dealt;
    assert Fresh(c) == c;
    CompletePiece(c, start, req, b, c.(recv := c.recv + b));
  }

  /** The piece that holds the request line. */
  lemma FirstPiece(c: Conn, req: string, b: string)
    requires Whole(req) && c.recv == "" && !c.stopped && HoldsRequestLine(b) && b <= req
    ensures var d := Recognised(c, req).(recv := b);
      && OneRead(c, Data(b)) == (if b == req then Dealt(c, req, |b|) else Step(d, true, false, false, None))
      && (b != req ==> Underway(d, c, req))
  {
    FirstLineSeen(req, b);
    hide Parse, HasLine, Classify, HoldsRequestLine, OneRead, Whole, Dealt, Cleared;
    var d := c.(recv := b, hdr := HdrUnknown);
    assert Fresh(c) == d.(recv := "") && "" + b == b;
    assert Recognise(d) == Recognised(c, req).(recv := b);
    hide Recognise, Fresh;
    CompletePiece(c, c, req, b, Recognised(c, req).(recv := b));
  }

  lemma {:induction false} FirstLineSeen(req: string, b: string)
    requires NUL !in req && HoldsRequestLine(b) && b <= req
    ensures |b| >= 6 && HasLine(b) && Classify(b) == Classify(req)
  {
    var skip := if "\r\n" <= b then 2 else 0;
    var i :| skip <= i < |b| - 1 && b[i] == '\r' && b[i + 1] == '\n';
    assert NUL !in b by { assert forall k :: 0 <= k < |b| ==> b[k] == req[k] && req[k] in req; }
    hide HasLine, Classify;
    LineFound(b, i);
    CommandSettled(b, req);
  }

  /** Timeouts with an empty buffer. */
  lemma {:induction false} FeedQuiet(c: Conn, rs: seq<Read>)
    requires c.recv == "" && Pieces(rs) && Bytes(rs) == ""
    ensures Alike(Feed(c, rs).conn, c) && Feed(c, rs).inits == 0 && Feed(c, rs).replies == [] && LastData(rs) == ""
    decreases |rs|
  {
    if rs != [] {
      assert rs[0] in rs && forall r <- rs[1..] :: r in rs;
      assert rs[0] == TimedOut;
      var d := OneRead(c, TimedOut).conn;
      assert Alike(d, c);
      FeedQuiet(d, rs[1..]);
    }
  }

  /** The state d after a request that was dealt with in the last piece b, and what came of it. */
  predicate Finished(d: Fed, start: Conn, req: string, size: nat) {
    var step := Dealt(start, req, size);
    && Alike(d.conn, step.conn)
    && d.inits == (if step.initUdp then 1 else 0)
    && d.replies == if step.reply.Some? then [step.reply.value] else []
  }

  lemma {:induction false} FeedDealt(c: Conn, start: Conn, req: string, b: string, rs: seq<Read>)
    requires Paired(req) && OneRead(c, Data(b)) == Dealt(start, req, |b|)
    requires Pieces(rs) && Bytes(rs) == ""
    ensures Finished(Feed(c, [Data(b)] + rs), start, req, |b|) && LastData([Data(b)] + rs) == b
  {
    hide OneRead, Dealt, Paired;
    var step := Dealt(start, req, |b|);
    DealtEmpty(start, req, |b|);
    HeadTail([Data(b)], rs);
    FeedQuiet(step.conn, rs);
    hide Feed;
    FeedOne(c, Data(b), rs);
    var replies := if step.reply.Some? then [step.reply.value] else [];
    assert replies + [] == replies;
  }

  lemma {:induction false} FeedOne(c: Conn, read: Read, rs: seq<Read>)
    ensures Feed(c, [read] + rs) == After(OneRead(c, read), Feed(OneRead(c, read).conn, rs))
  {
    hide OneRead;
    HeadTail([read], rs);
  }

  /** A call that only takes in a piece, or nothing, changes nothing else. */
  lemma {:induction false} FeedPlain(c: Conn, read: Read, rs: seq<Read>)
    requires !OneRead(c, read).initUdp && OneRead(c, read).reply.None?
    ensures Feed(c, [read] + rs) == Feed(OneRead(c, read).conn, rs)
  {
    hide OneRead;
    FeedOne(c, read, rs);
    assert [] + Feed(OneRead(c, read).conn, rs).replies == Feed(OneRead(c, read).conn, rs).replies;
  }

  lemma {:induction false} BytesHead(read: Read, rs: seq<Read>)
    requires Pieces([read] + rs)
    ensures Pieces(rs) && !read.Closed? && (read.Data? ==> read.bytes != "")
    ensures Bytes([read] + rs) == (if read.Data? then read.bytes else "") + Bytes(rs)
    ensures LastData([read] + rs) == if LastData(rs) != "" then LastData(rs) else if read.Data? then read.bytes else ""
    ensures FirstData([read] + rs) == if read.Data? then read.bytes else FirstData(rs)
  {
    HeadTail([read], rs);
    assert ([read] + rs)[0] == read && forall r <- rs :: r in [read] + rs;
  }

  lemma {:induction false} LastOfBytes(rs: seq<Read>)
    requires Pieces(rs)
    ensures LastData(rs) == "" <==> Bytes(rs) == ""
  {
    if rs != [] {
      assert rs == [rs[0]] + rs[1..];
      BytesHead(rs[0], rs[1..]);
      LastOfBytes(rs[1..]);
    }
  }

  lemma {:induction false} FeedUnderway(c: Conn, start: Conn, req: string, rs: seq<Read>)
    requires Whole(req) && Underway(c, start, req) && Pieces(rs) && c.recv + Bytes(rs) == req
    ensures Finished(Feed(c, rs), start, req, |LastData(rs)|)
    decreases |rs|
  {
    assert Paired(req);
    assert rs == [] ==> c.recv + Bytes(rs) == c.recv;
    hide Whole, OneRead, Finished, Dealt, Recognised, Feed, Paired, LastData, Bytes;
    if rs != [] {
      var tail := rs[1..];
      assert rs == [rs[0]] + tail;
      BytesHead(rs[0], tail);
      if rs[0].Data? {
        var b := rs[0].bytes;
        Associative(c.recv, b, Bytes(tail));
        NextPiece(c, start, req, b);
        if c.recv + b == req {
          assert (c.recv + b) + "" == req;
          CancelLeft(c.recv + b, Bytes(tail), "");
          FeedDealt(c, start, req, b, tail);
        } else {
          LastOfBytes(tail);
          assert Bytes(tail) == "" ==> c.recv + b + Bytes(tail) == c.recv + b;
          FeedPlain(c, rs[0], tail);
          FeedUnderway(c.(recv := c.recv + b), start, req, tail);
        }
      } else {
        assert "" + Bytes(tail) == Bytes(tail);
        LastOfBytes(tail);
        TimeoutChangesNothing(c, start, req);
        FeedPlain(c, rs[0], tail);
        FeedUnderway(c, start, req, tail);
      }
    }
  }

  lemma TimeoutChangesNothing(c: Conn, start: Conn, req: string)
    requires Whole(req) && Underway(c, start, req)
    ensures OneRead(c, TimedOut) == Step(c, false, false, false, None)
  {
    hide Recognised;
  }

  lemma {:induction false} FeedFirst(c: Conn, req: string, rs: seq<Read>)
    requires Whole(req) && c.recv == "" && !c.stopped
    requires Pieces(rs) && Bytes(rs) == req && HoldsRequestLine(FirstData(rs))
    ensures Finished(Feed(c, rs), c, req, |LastData(rs)|)
    decreases |rs|
  {
    assert Paired(req);
    assert rs == [] ==> FirstData(rs) == "";
    NoRequestLine();
    hide Whole, OneRead, HoldsRequestLine, Classify, Finished, Underway, Recognised, Dealt, Feed, Paired;
    hide LastData, Bytes, FirstData;
    if rs != [] {
      var tail := rs[1..];
      assert rs == [rs[0]] + tail;
      BytesHead(rs[0], tail);
      if rs[0].Data? {
        var b := rs[0].bytes;
        FirstPiece(c, req, b);
        if b == req {
          assert b + "" == b;
          CancelLeft(b, Bytes(tail), "");
          FeedDealt(c, c, req, b, tail);
        } else {
          LastOfBytes(tail);
          assert Bytes(tail) == "" ==> b + Bytes(tail) == b;
          FeedPlain(c, rs[0], tail);
          FeedUnderway(Recognised(c, req).(recv := b), c, req, tail);
        }
      } else {
        assert "" + Bytes(tail) == Bytes(tail);
        QuietBefore(c);
        var d := OneRead(c, TimedOut).conn;
        FeedPlain(c, rs[0], tail);
        FeedFirst(d, req, tail);
        SameStart(Feed(d, tail), c, d, req, |LastData(tail)|);
        NothingLast(rs[0], tail);
      }
    }
  }

  lemma {:induction false} NothingLast(read: Read, rs: seq<Read>)
    requires !read.Data?
    ensures LastData([read] + rs) == LastData(rs)
  {
    HeadTail([read], rs);
  }

  lemma SameStart(e: Fed, c: Conn, d: Conn, req: string, size: nat)
    requires Finished(e, d, req, size) && d == c.(hdr := HdrUnknown)
    ensures Finished(e, c, req, size)
  {
    hide Parse, Classify;
  }

  lemma MoreHoldsRequestLine(first: string, req: string)
    requires HoldsRequestLine(first) && first <= req
    ensures HoldsRequestLine(req)
  {
    var skip: nat := if "\r\n" <= first then 2 else 0;
    var i :| skip <= i < |first| - 1 && first[i] == '\r' && first[i + 1] == '\n';
    assert req[0] == first[0] && req[1] == first[1] && req[i] == '\r' && req[i + 1] == '\n';
  }

  lemma {:induction false} FirstDataFirst(rs: seq<Read>)
    ensures FirstData(rs) <= Bytes(rs)
  {
    if rs != [] { FirstDataFirst(rs[1..]); }
  }

  lemma NoRequestLine()
    ensures !HoldsRequestLine("")
  {
  }

  lemma QuietBefore(c: Conn)
    requires c.recv == "" && !c.stopped
    ensures OneRead(c, TimedOut) == Step(c.(hdr := HdrUnknown), false, false, false, None)
  {
  }

  /** However a request is cut into reads, as long as the first one holds the request line, and whatever timeouts
      fall in between, the session ends up with the same command type, streaming and stopped flags as after one
      read of the whole request. */
  lemma {:induction false} ChunkingIndependent(c: Conn, req: string, rs: seq<Read>)
    requires Whole(req) && c.recv == "" && !c.stopped
    requires Pieces(rs) && Bytes(rs) == req && HoldsRequestLine(FirstData(rs))
    ensures var (d, whole) := (Feed(c, rs).conn, OneRead(c, Data(req)).conn);
      && d.command == whole.command == Classify(req)
      && d.streaming == whole.streaming == (c.streaming || whole.command.Play?)
      && d.stopped == whole.stopped == whole.command.Teardown?
      && d.recv == whole.recv == ""
  {
    FirstDataFirst(rs);
    MoreHoldsRequestLine(FirstData(rs), req);
    assert Paired(req);
    hide Whole, OneRead, HoldsRequestLine, Classify, Dealt, Feed, Paired;
    FeedFirst(c, req, rs);
    FirstPiece(c, req, req);
    DealtFlags(c, req, |LastData(rs)|);
    DealtFlags(c, req, |req|);
  }

  lemma DealtFlags(c: Conn, req: string, size: nat)
    requires Paired(req) && !c.stopped
    ensures var d := Dealt(c, req, size).conn;
      && d.command == Classify(req) && d.streaming == (c.streaming || d.command.Play?)
      && d.stopped == d.command.Teardown? && d.recv == ""
  {
    hide Parse, Classify, Paired, ReplyTo;
    var d := Recognised(c, req);
    NotStuck(d.fields, d.command.Setup?, req, size - |req|);
  }

  // ----- a request in pieces

  /** Text in which a CR is followed by LF and then by something other than CR, and that could go on like that. */
  predicate Tame(s: string) {
    NUL !in s && forall i :: 0 <= i < |s| && s[i] == '\r' ==> i + 2 < |s| && s[i + 1] == '\n' && s[i + 2] != '\r'
  }

  lemma TamePlain(s: string)
    requires PlainText(s)
    ensures Tame(s)
  {
    assert forall i :: 0 <= i < |s| ==> s[i] in s;
  }

  lemma TameAppend(a: string, b: string)
    requires Tame(a) && Tame(b)
    ensures Tame(a + b)
  {
    var s := a + b;
    forall i | 0 <= i < |s| && s[i] == '\r' ensures i + 2 < |s| && s[i + 1] == '\n' && s[i + 2] != '\r' {
      if i >= |a| { assert b[i - |a|] == s[i]; }
    }
  }

  lemma TameBreak(s: string)
    requires Tame(s) && s != "" && s[0] != '\r'
    ensures Tame("\r\n" + s)
  {
    var t := "\r\n" + s;
    forall i | 0 <= i < |t| && t[i] == '\r' ensures i + 2 < |t| && t[i + 1] == '\n' && t[i + 2] != '\r' {
      if i >= 2 { assert s[i - 2] == t[i]; }
    }
  }

  lemma {:induction false} TameGaps(gs: seq<Gap>)
    requires GoodGaps(gs)
    ensures Tame(GapText(gs, true))
  {
    hide Tame;
    if gs == [] {
      TamePlain("");
    } else {
      var c := gs[0].c;
      assert gs[0] in gs && forall g <- gs[1..] :: g in gs;
      TameGaps(gs[1..]);
      assert PlainText([c]);
      TamePlain([c]);
      TameBreak([c]);
      TameAppend(if gs[0].Fold? then "\r\n" + [c] else [c], GapText(gs[1..], true));
    }
  }

  lemma {:induction false} TameParams(ps: seq<(seq<Gap>, Param)>)
    requires forall p <- ps :: GoodParam(p.1) && GoodGaps(p.0)
    ensures Tame(ParamsText(ps, true))
  {
    hide Tame, GoodParam, GapText, ParamText;
    if ps == [] {
      TamePlain("");
    } else {
      assert ps[0] in ps && forall p <- ps[1..] :: p in ps;
      TameParams(ps[1..]);
      TamePlain(";");
      TameGaps(ps[0].0);
      ParamTextPlain(ps[0].1);
      TamePlain(ParamText(ps[0].1));
      TameAppend(";", GapText(ps[0].0, true));
      TameAppend(";" + GapText(ps[0].0, true), ParamText(ps[0].1));
      TameAppend(";" + GapText(ps[0].0, true) + ParamText(ps[0].1), ParamsText(ps[1..], true));
    }
  }

  lemma {:induction false} TameMore(ms: seq<(Gap, string)>)
    requires forall m <- ms :: SpaceOrTab(m.0.c) && PlainText(m.1)
    ensures Tame(MoreText(ms, true))
  {
    hide Tame, GapText;
    if ms == [] {
      TamePlain("");
    } else {
      assert ms[0] in ms && forall m <- ms[1..] :: m in ms;
      TameMore(ms[1..]);
      TameGaps([ms[0].0]);
      TamePlain(ms[0].1);
      TameAppend(GapText([ms[0].0], true), ms[0].1);
      TameAppend(GapText([ms[0].0], true) + ms[0].1, MoreText(ms[1..], true));
    }
  }

  lemma TameContent(l: Line)
    requires GoodLine(l)
    ensures Tame(LineContent(l, true)) && LineContent(l, true) != "" && LineContent(l, true)[0] != '\r'
  {
    ContentStarts(l);
    hide Tame, GapText, MoreText, NumberText;
    match l
    case CSeqLine(pad, n, tail) =>
      TameNumber("CSeq:", pad, n, tail);
    case LengthLine(pad, n, tail) =>
      TameNumber("Content-Length:", pad, n, tail);
    case NoNumber(_, _, _) => TameNoNumber(l);
    case TransportLine(lead, tcp, ps) => TameTransport(lead, tcp, ps);
    case OddTransport(lead, text) => TameOdd(lead, text);
    case OtherLine(text, more) =>
      TamePlain(text);
      TameMore(more);
      TameAppend(text, MoreText(more, true));
  }

  lemma TameNoNumber(l: Line)
    requires GoodLine(l) && l.NoNumber?
    ensures Tame(LineContent(l, true))
  {
    assert PlainText(l.name) && PlainText(l.pad);
    hide PlainText, Tame;
    PlainJoin(l.pad, l.text);
    PlainJoin(l.name, l.pad + l.text);
    TamePlain(l.name + (l.pad + l.text));
  }

  lemma TameOdd(lead: seq<Gap>, text: string)
    requires GoodLine(OddTransport(lead, text))
    ensures Tame(LineContent(OddTransport(lead, text), true))
  {
    assert PlainText("Transport:");
    hide PlainText, Tame, GapText;
    TamePlain("Transport:");
    TameGaps(lead);
    TamePlain(text);
    TameAppend(GapText(lead, true), text);
    TameAppend("Transport:", GapText(lead, true) + text);
  }

  lemma TameTransport(lead: seq<Gap>, tcp: bool, ps: seq<(seq<Gap>, Param)>)
    requires GoodLine(TransportLine(lead, tcp, ps))
    ensures Tame(LineContent(TransportLine(lead, tcp, ps), true))
  {
    hide Tame, GapText, ParamsText, GoodParam;
    assert PlainText("Transport:") && PlainText(Protocol(tcp));
    hide PlainText;
    TamePlain("Transport:");
    TamePlain(Protocol(tcp));
    TameGaps(lead);
    TameParams(ps);
    TameAppend(Protocol(tcp), ParamsText(ps, true));
    TameAppend(GapText(lead, true), Protocol(tcp) + ParamsText(ps, true));
    TameAppend("Transport:", GapText(lead, true) + (Protocol(tcp) + ParamsText(ps, true)));
  }

  lemma TameNumber(name: string, pad: string, n: nat, tail: string)
    requires PlainText(name) && Blanks(pad) && PlainText(tail)
    ensures Tame(name + (NumberText(pad, n) + tail))
  {
    assert PlainText(NumberText(pad, n) + tail);
    hide Tame;
    TamePlain(name);
    TamePlain(NumberText(pad, n) + tail);
    TameAppend(name, NumberText(pad, n) + tail);
  }

  /** The lines, without the two CRLF at the end. */
  function Front(ls: seq<Line>): string {
    if ls == [] then "" else "\r\n" + LineContent(ls[0], true) + Front(ls[1..])
  }

  lemma {:induction false} TameFront(ls: seq<Line>)
    requires forall l <- ls :: GoodLine(l)
    ensures Tame(Front(ls)) && LinesText(ls) == Front(ls) + "\r\n\r\n"
  {
    hide Tame, GoodLine, LineContent;
    if ls == [] {
      TamePlain("");
    } else {
      assert ls[0] in ls && forall l <- ls[1..] :: l in ls;
      TameFront(ls[1..]);
      TameContent(ls[0]);
      TameBreak(LineContent(ls[0], true));
      TameAppend("\r\n" + LineContent(ls[0], true), Front(ls[1..]));
      FrontEnds(LineContent(ls[0], true), Front(ls[1..]));
    }
  }

  lemma FrontEnds(a: string, b: string)
    ensures "\r\n" + (a + (b + "\r\n\r\n")) == "\r\n" + a + b + "\r\n\r\n"
  {
    Associative("\r\n" + a, b, "\r\n\r\n");
    Associative("\r\n", a, b + "\r\n\r\n");
  }

  lemma TameWhole(s: string)
    requires Tame(s) && |s| + 4 < RTSP_BUFFER_SIZE
    ensures Whole(s + "\r\n\r\n")
  {
    var t := s + "\r\n\r\n";
    assert forall i :: 0 <= i < |s| ==> t[i] == s[i];
    assert NUL !in t;
    forall n | 0 <= n < |t| ensures !EndsHeader(t[..n]) {
      if n >= 4 { assert t[n - 4] == '\r' && n - 4 < |s| ==> s[n - 2] != '\r'; }
    }
  }

  lemma WordPlain(w: string)
    requires Word(w)
    ensures PlainText(w)
  {
  }

  lemma SlashesPlain(s: string)
    requires Slashes(s)
    ensures PlainText(s)
  {
  }

  /** A request that fits the buffer has its only empty line at the end. */
  lemma RenderWhole(r: Request)
    requires Good(r) && |Render(r)| < RTSP_BUFFER_SIZE
    ensures Whole(Render(r))
  {
    hide Tame, Whole, Front, LinesText, UrlText, PlainText, GoodLine, GoodUrl, GoodName, RequestLine;
    TameFront(r.lines);
    LinePlain(r);
    LineFirst(r, LinesText(r.lines));
    TamePlain(RequestLine(r));
    TameAppend(RequestLine(r), Front(r.lines));
    Associative(RequestLine(r), Front(r.lines), "\r\n\r\n");
    TameWhole(RequestLine(r) + Front(r.lines));
  }

  /** The request line. */
  function RequestLine(r: Request): string {
    r.name + UrlText(r.url, "")
  }

  lemma LinePlain(r: Request)
    requires GoodName(r.name) && GoodUrl(r.url)
    ensures PlainText(RequestLine(r))
  {
    var u := r.url;
    assert PlainText(u.scheme) by { SchemePlain(u.scheme); }
    WordPlain(u.host);
    WordPlain(u.presentation);
    WordPlain(u.stream);
    SlashesPlain(u.gap1);
    SlashesPlain(u.gap2);
    SlashesPlain(u.gap3);
    assert PlainText(VersionText(u, "")) by { assert PlainText("RTSP/" + [u.major, '.', u.minor]); }
    hide VersionText, PlainText, Word, Slashes, Whites;
    PlainJoin(u.after, VersionText(u, ""));
    PlainJoin(u.gap3, u.after + VersionText(u, ""));
    PlainJoin(u.stream, u.gap3 + (u.after + VersionText(u, "")));
    PlainJoin(u.gap2, StreamText(u, ""));
    PlainJoin(u.presentation, u.gap2 + StreamText(u, ""));
    PlainJoin(u.gap1, u.presentation + (u.gap2 + StreamText(u, "")));
    PlainJoin(u.host, u.gap1 + (u.presentation + (u.gap2 + StreamText(u, ""))));
    PlainJoin(u.scheme, PathText(u, ""));
    PlainJoin(u.before, u.scheme + PathText(u, ""));
    PlainJoin(r.name, UrlText(u, ""));
  }

  lemma SchemePlain(scheme: string)
    requires SchemeShape(scheme)
    ensures PlainText(scheme)
  {
  }

  lemma PlainJoin(a: string, b: string)
    requires PlainText(a) && PlainText(b)
    ensures PlainText(a + b)
  {
  }

  lemma LineFirst(r: Request, w: string)
    ensures AfterRequestLine(r, w) == RequestLine(r) + w
  {
    var u := r.url;
    var v := VersionText(u, "");
    assert VersionText(u, w) == v + w;
    hide VersionText;
    Associative(u.after, v, w);
    Associative(u.gap3, u.after + v, w);
    Associative(u.stream, u.gap3 + (u.after + v), w);
    Associative(u.gap2, StreamText(u, ""), w);
    Associative(u.presentation, u.gap2 + StreamText(u, ""), w);
    Associative(u.gap1, u.presentation + (u.gap2 + StreamText(u, "")), w);
    Associative(u.host, u.gap1 + (u.presentation + (u.gap2 + StreamText(u, ""))), w);
    Associative(u.scheme, PathText(u, ""), w);
    Associative(u.before, u.scheme + PathText(u, ""), w);
    Associative(r.name, UrlText(u, ""), w);
  }

  // ----- commands

  function CommandOf(name: string): Command {
    if name == "OPTIONS" then Options
    else if name == "DESCRIBE" then Describe
    else if name == "SETUP" then Setup
    else if name == "PLAY" then Play
    else if name == "TEARDOWN" then Teardown
    else Unknown
  }

  /** A text that starts with a name and a blank starts with no other name and a blank. */
  lemma OnlyName(name: string, other: string, t: string)
    requires ' ' !in name && ' ' !in other
    ensures other + " " <= name + " " + t <==> other == name
  {
    var o, s := other + " ", name + " " + t;
    assert o[|other|] == ' ' && s[|name|] == ' ';
    if |other| < |name| {
      assert s[|other|] == name[|other|] && name[|other|] in name;
    } else if |other| > |name| {
      assert o[|name|] == other[|name|] && other[|name|] in other;
    } else {
      assert s[..|name| + 1] == name + " " && s[..|name|] == name && o[..|name|] == other;
    }
  }

  lemma Classified(name: string, t: string)
    requires GoodName(name)
    ensures Classify(name + " " + t) == CommandOf(name)
  {
    var s := name + " " + t;
    assert s[0] != '\r' by { if name != "" { assert s[0] == name[0] && name[0] in name; } }
    assert ' ' !in name;
    hide GoodName;
    OnlyName(name, "OPTIONS", t);
    OnlyName(name, "DESCRIBE", t);
    OnlyName(name, "SETUP", t);
    OnlyName(name, "PLAY", t);
    OnlyName(name, "TEARDOWN", t);
    assert "OPTIONS " == "OPTIONS" + " " && "DESCRIBE " == "DESCRIBE" + " " && "SETUP " == "SETUP" + " ";
    assert "PLAY " == "PLAY" + " " && "TEARDOWN " == "TEARDOWN" + " ";
  }

  /** A request after its name and a blank. */
  function AfterName(r: Request): string
    requires r.url.before != ""
  {
    r.url.before[1..] + (r.url.scheme + PathText(r.url, LinesText(r.lines)))
  }

  lemma RenderNamed(r: Request)
    requires r.url.before != "" && r.url.before[0] == ' '
    ensures Render(r) == r.name + (" " + AfterName(r))
  {
    hide LinesText, PathText;
    assert r.url.before == " " + r.url.before[1..];
  }

  lemma RenderLong(r: Request)
    requires GoodUrl(r.url)
    ensures |AfterName(r)| >= 18 && |Render(r)| >= |r.name| + 19
  {
    hide Word, Slashes, Whites;
  }

  lemma RenderClassified(r: Request)
    requires Good(r)
    ensures Classify(Render(r)) == CommandOf(r.name)
  {
    hide Classify, GoodName, GoodLine, CommandOf, AfterName, Render;
    RenderNamed(r);
    Classified(r.name, AfterName(r));
    Associative(r.name, " ", AfterName(r));
  }

  /** An empty line in front of a request makes no difference. */
  lemma EmptyLineFirst(f: Fields, setup: bool, r: Request)
    requires Good(r) && |r.name| <= 17
    ensures Classify("\r\n" + Render(r)) == Classify(Render(r))
    ensures Parse(f, setup, "\r\n" + Render(r), 0) == Parse(f, setup, Render(r), 0)
  {
    hide UrlShape, UrlText, LinesText, Good, ParseTarget, Headers, Classify;
    NoBreakFirst(r);
    BreakSkipped(Render(r));
    GoodShape(r);
    BreakShape(r);
    Associative("\r\n", r.name, UrlText(r.url, LinesText(r.lines)));
    TargetRead(r.name, r.url, LinesText(r.lines));
    TargetRead("\r\n" + r.name, r.url, LinesText(r.lines));
  }

  lemma BreakSkipped(t: string)
    requires !("\r\n" <= t)
    ensures Classify("\r\n" + t) == Classify(t)
  {
    var s := "\r\n" + t;
    assert "\r\n" <= s && s[2..] == t;
  }

  lemma BreakShape(r: Request)
    requires Good(r) && |r.name| <= 17
    ensures UrlShape("\r\n" + r.name, r.url)
  {
    hide SchemeShape, PathShape, GoodLine;
  }

  lemma NoBreakFirst(r: Request)
    requires Good(r)
    ensures !("\r\n" <= Render(r))
  {
    RenderNamed(r);
    FirstOf(r.name, " " + AfterName(r));
    hide GoodLine, AfterName, Render;
    assert (" " + AfterName(r))[0] == ' ';
    assert Render(r)[0] != '\r';
  }

  /** In however many pieces it arrives: from the size of the last piece alone it follows whether a request of a known
      command is accepted. If so, it is answered; the ports and the transport of a SETUP are taken over, and UDP is
      brought up once unless the transport is TCP. If not, there is no reply, no port changes and no UDP is brought up,
      but what was read of its lines, the kind of transport among it, is kept. */
  lemma {:induction false} RequestInPieces(c: Conn, r: Request, rs: seq<Read>)
    requires Good(r) && |Render(r)| < RTSP_BUFFER_SIZE && c.recv == "" && !c.stopped
    requires Pieces(rs) && Bytes(rs) == Render(r) && HoldsRequestLine(FirstData(rs))
    ensures var slack := |LastData(rs)| - |Render(r)|;
      var d, command := Feed(c, rs), CommandOf(r.name);
      var g := ReadLines(WithUrl(Cleared(c.fields), r), command.Setup?, r.lines, slack).fields;
      && d.conn.fields == (if command.Unknown? then Cleared(c.fields) else g)
      && (if AllPass(r.lines, command.Setup?, slack) && command.Setup? then
            && d.conn.rtpClientPort == g.rtpPort && d.conn.rtcpClientPort == g.rtcpPort
            && d.inits == (if g.tcp then 0 else 1)
          else
            && d.conn.rtpClientPort == c.rtpClientPort && d.conn.rtcpClientPort == c.rtcpClientPort && d.inits == 0)
      && d.replies == if command.Unknown? then [BadRequest(c.fields.cseq)]
                      else if AllPass(r.lines, command.Setup?, slack) && !command.Teardown?
                      then [ReplyTo(command, g).value]
                      else []
  {
    hide Whole, HoldsRequestLine, Feed, Dealt, Good, AllPass, ReadLines, WithUrl, Render, Pieces, Bytes, FirstData;
    hide LastData, CommandOf;
    RenderWhole(r);
    FeedFirst(c, Render(r), rs);
    if CommandOf(r.name).Unknown? {
      DealtUnknown(c, r, |LastData(rs)|);
    } else {
      DealtRequest(c, r, |LastData(rs)|);
    }
  }

  lemma DealtUnknown(c: Conn, r: Request, size: nat)
    requires Good(r) && CommandOf(r.name).Unknown?
    ensures Dealt(c, Render(r), size) == Step(
      c.(recv := "", hdr := Invalid, command := Unknown, fields := Cleared(c.fields)), false, false, false,
      Some(BadRequest(c.fields.cseq)))
  {
    hide Classify, Render, Good, CommandOf, Handle;
    RenderClassified(r);
  }

  lemma DealtRequest(c: Conn, r: Request, size: nat)
    requires Good(r) && !CommandOf(r.name).Unknown?
    ensures var slack, command := size - |Render(r)|, CommandOf(r.name);
      var step := Dealt(c, Render(r), size);
      var g := ReadLines(WithUrl(Cleared(c.fields), r), command.Setup?, r.lines, slack).fields;
      && step.conn.fields == g
      && (if AllPass(r.lines, command.Setup?, slack) && command.Setup? then
            && step.conn.rtpClientPort == g.rtpPort && step.conn.rtcpClientPort == g.rtcpPort && step.initUdp == !g.tcp
          else
            && step.conn.rtpClientPort == c.rtpClientPort && step.conn.rtcpClientPort == c.rtcpClientPort
            && !step.initUdp)
      && step.reply == if AllPass(r.lines, command.Setup?, slack) then ReplyTo(command, g) else None
  {
    hide Classify, Render, Good, AllPass, ReadLines, WithUrl, Cleared, CommandOf, ReplyTo, Handle, Parse;
    RenderClassified(r);
    var d := Recognised(c, Render(r));
    RequestAcceptance(Cleared(c.fields), d.command.Setup?, r, size - |Render(r)|);
    Handled(d, size);
  }

  /** What a parsed request comes to. */
  lemma Handled(d: Conn, size: nat)
    ensures var (v, g) := Parse(d.fields, d.command.Setup?, d.recv, size - |d.recv|);
      var step := Handle(d, size);
      && step.conn.fields == g
      && (if v.Accepted? && d.command.Setup? then
            && step.conn.rtpClientPort == g.rtpPort && step.conn.rtcpClientPort == g.rtcpPort && step.initUdp == !g.tcp
          else
            && step.conn.rtpClientPort == d.rtpClientPort && step.conn.rtcpClientPort == d.rtcpClientPort
            && !step.initUdp)
      && step.reply == if v.Accepted? then ReplyTo(d.command, g) else None
  {
    hide Parse, ReplyTo;
  }

  // ----- a first piece without the request line

  /** It is parsed all the same, as a request of the command before, and dropped. */
  lemma {:induction false} FirstPieceDropped(c: Conn, b: string)
    requires c.recv == "" && !c.stopped && (|b| < 6 || !HasLine(b))
    ensures OneRead(c, Data(b)) == Handle(c.(recv := b, hdr := HdrUnknown), |b|)
    ensures Paired(b) ==>
      var step := OneRead(c, Data(b)); step.ret && step.conn.recv == "" && step.conn.command == c.command
  {
    hide HasLine, Paired, Parse, ReplyTo, Handle, EndsHeader;
    assert "" + b == b;
    var d := c.(recv := b, hdr := HdrUnknown);
    if Paired(b) { HandleDrops(d, |b|); }
  }

  lemma HandleDrops(d: Conn, size: nat)
    requires Paired(d.recv)
    ensures var step := Handle(d, size); step.ret && step.conn.recv == "" && step.conn.command == d.command
  {
    hide Paired, Parse, ReplyTo;
    NotStuck(d.fields, d.command.Setup?, d.recv, size - |d.recv|);
  }

  lemma {:induction false} NoLine(b: string)
    requires '\r' !in b
    ensures !HasLine(b)
  {
    if b != "" {
      assert b[0] in b && forall c <- b[1..] :: c in b;
      NoLine(b[1..]);
    }
  }

  lemma {:induction false} NameAlone(b: string, most: nat)
    requires |b| <= most && forall c <- b :: !SpaceOrTab(c)
    ensures NameLength(b, most) == |b|
  {
    if b != "" {
      assert b[0] in b && forall c <- b[1..] :: c in b;
      NameAlone(b[1..], most - 1);
    }
  }

  lemma {:induction false} NameNoLine(b: string)
    requires GoodName(b)
    ensures !HasLine(b)
  {
    NoLine(b);
  }

  /** A part of a name is no request. */
  lemma NameRejected(f: Fields, setup: bool, b: string, slack: int)
    requires GoodName(b)
    ensures Parse(f, setup, b, slack) == (Rejected, Cleared(f))
  {
    hide Headers, TakePartSlash, ParseStream, NameLength;
    NameAlone(b, 19);
    assert b[|b|..] == "" && Rest("", Space) == "";
  }

  lemma NoCommandLeft(name: string, k: nat)
    requires 1 <= k <= |name| && !CommandOf(name).Unknown?
    ensures CommandOf(name[k..]).Unknown?
  {
    assert k < |name| ==> name[k..][0] == name[k];
  }

  lemma PartOfName(name: string, k: nat)
    requires GoodName(name) && k <= |name|
    ensures GoodName(name[..k]) && GoodName(name[k..])
  {
    assert forall c :: c in name[..k] || c in name[k..] ==> c in name;
  }

  /** What is left after the first k bytes, within its name, of a request. */
  lemma LeftOver(r: Request, k: nat)
    requires Good(r) && |Render(r)| < RTSP_BUFFER_SIZE && 1 <= k <= |r.name| && !CommandOf(r.name).Unknown?
    ensures var req := Render(r);
      && |req| >= k + 6 && req[..k] == r.name[..k]
      && HasLine(req[k..]) && EndsHeader(req[k..]) && Classify(req[k..]) == Unknown
  {
    hide GoodLine, PlainText, CommandOf, Classify, HasLine, Whole, Render, GoodName, AfterName, EndsHeader;
    var req, t := Render(r), AfterName(r);
    RenderWhole(r);
    RenderNamed(r);
    RenderLong(r);
    PartOfName(r.name, k);
    NoCommandLeft(r.name, k);
    assert req[k..] == r.name[k..] + (" " + t);
    Associative(r.name[k..], " ", t);
    Classified(r.name[k..], t);
    WholeTail(req, k);
  }

  lemma WholeTail(req: string, k: nat)
    requires Whole(req) && k + 4 <= |req|
    ensures HasLine(req[k..]) && EndsHeader(req[k..])
  {
    hide HasLine;
    var u := req[k..];
    assert NUL !in u by { assert forall c <- u :: c in req; }
    assert u[|u| - 4..] == req[|req| - 4..];
    LineFound(u, |u| - 4);
  }

  /** A request cut within the name of its command: the first piece is dropped, and the second is answered as a bad
      request. No port changes and no UDP is brought up, and the session streams if it did or its command before was a
      PLAY. */
  lemma {:induction false} CutNameRefused(c: Conn, r: Request, k: nat)
    requires Good(r) && |Render(r)| < RTSP_BUFFER_SIZE && 1 <= k <= |r.name| && !CommandOf(r.name).Unknown?
    requires c.recv == "" && !c.stopped && !c.command.Teardown?
    ensures var req := Render(r);
      Feed(c, [Data(req[..k]), Data(req[k..])]) == Fed(
        c.(hdr := Invalid, command := Unknown, streaming := c.streaming || c.command.Play?,
           fields := Cleared(c.fields)),
        0, [BadRequest(c.fields.cseq)])
  {
    assert GoodName(r.name);
    hide Render, Good, CommandOf, GoodName, HasLine, Classify, EndsHeader, Cleared, OneRead, Feed;
    LeftOver(r, k);
    PartOfName(r.name, k);
    CutFeeds(c, r.name[..k], Render(r)[k..]);
  }

  lemma {:induction false} CutFeeds(c: Conn, b: string, rest: string)
    requires c.recv == "" && !c.stopped && !c.command.Teardown? && GoodName(b)
    requires |rest| >= 6 && HasLine(rest) && EndsHeader(rest) && Classify(rest) == Unknown
    ensures Feed(c, [Data(b), Data(rest)]) == Fed(
      c.(hdr := Invalid, command := Unknown, streaming := c.streaming || c.command.Play?, fields := Cleared(c.fields)),
      0, [BadRequest(c.fields.cseq)])
  {
    hide GoodName, HasLine, Classify, EndsHeader, OneRead;
    NameNoLine(b);
    var d := c.(recv := "", hdr := HdrUnknown, streaming := c.streaming || c.command.Play?,
                fields := Cleared(c.fields));
    DroppedName(c, b, d);
    RefusedRest(d, rest);
    var e := d.(hdr := Invalid, command := Unknown, fields := Cleared(d.fields));
    assert Cleared(d.fields) == Cleared(c.fields) && d.fields.cseq == c.fields.cseq;
    assert [Data(b), Data(rest)][1..] == [Data(rest)] && [Data(rest)][1..] == [];
    assert Feed(d, [Data(rest)]) == Fed(e, 0, [BadRequest(c.fields.cseq)]);
  }

  lemma {:induction false} DroppedName(c: Conn, b: string, d: Conn)
    requires c.recv == "" && !c.stopped && !c.command.Teardown? && GoodName(b) && !HasLine(b)
    requires d == c.(recv := "", hdr := HdrUnknown, streaming := c.streaming || c.command.Play?,
                     fields := Cleared(c.fields))
    ensures OneRead(c, Data(b)) == Step(d, true, false, false, None)
  {
    hide HasLine, GoodName, Parse;
    FirstPieceDropped(c, b);
    NameRejected(c.fields, c.command.Setup?, b, 0);
  }

  lemma {:induction false} RefusedRest(d: Conn, rest: string)
    requires d.recv == "" && !d.stopped && |rest| >= 6 && HasLine(rest) && EndsHeader(rest) && Classify(rest) == Unknown
    ensures OneRead(d, Data(rest)) == Step(
      d.(hdr := Invalid, command := Unknown, fields := Cleared(d.fields)), false, false, false,
      Some(BadRequest(d.fields.cseq)))
  {
    hide HasLine, EndsHeader, Classify, Handle;
    assert "" + rest == rest;
  }
}
