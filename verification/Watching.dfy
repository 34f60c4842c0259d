/** From the text of a client's requests to the units it gets. */
module Watching {
  import opened AnnexB
  import opened Bytes
  import opened FanOut
  import opened RtpContext
  import opened RtspChunks
  import opened RtspParser
  import opened RtspReplies
  import opened RtspRequest
  import opened RtspSession
  import opened SimStreamer
  import opened Streamer
  import opened Viewer
  import opened Worker
  import opened Wrappers

  /** A request for this command, in order, that fits the buffer. */
  predicate Asking(r: Request, name: string) {
    Good(r) && Sound(r.lines, name == "SETUP") && r.name == name && |Render(r)| < 500
  }

  function Quiet(n: nat): seq<Read> {
    seq(n, _ => TimedOut)
  }

  // ----- one request in one read

  lemma RenderHoldsLine(r: Request)
    requires Good(r) && |Render(r)| < RTSP_BUFFER_SIZE
    ensures Whole(Render(r)) && HoldsRequestLine(Render(r))
  {
    hide Good, Render, Whole;
    RenderWhole(r);
    RenderLongGood(r);
    WholeHoldsLine(Render(r));
  }

  lemma RenderLongGood(r: Request)
    requires Good(r)
    ensures |Render(r)| >= 19
  {
    RenderLong(r);
  }

  lemma WholeHoldsLine(t: string)
    requires Whole(t) && |t| >= 6
    ensures HoldsRequestLine(t)
  {
    assert t[|t| - 4..] == "\r\n\r\n";
    var i := |t| - 4;
    assert t[i] == t[i..][0] == '\r' && t[i + 1] == t[i..][1] == '\n';
  }

  /** The session after such a request. */
  function Obeyed(c: Conn, r: Request): Conn {
    var command := CommandOf(r.name);
    var f := ApplyLines(WithUrl(Cleared(c.fields), r), command.Setup?, r.lines).fields;
    c.(recv := "", hdr := HdrUnknown, command := command, fields := f,
       streaming := c.streaming || command.Play?, stopped := command.Teardown?,
       rtpClientPort := if command.Setup? then f.rtpPort else c.rtpClientPort,
       rtcpClientPort := if command.Setup? then f.rtcpPort else c.rtcpClientPort)
  }

  /** A request of a known command, read in one go, is carried out and replied to. */
  lemma RequestObeyed(c: Conn, r: Request)
    requires Good(r) && |Render(r)| < RTSP_BUFFER_SIZE && c.recv == "" && !c.stopped && !CommandOf(r.name).Unknown?
    requires Sound(r.lines, CommandOf(r.name).Setup?)
    ensures var d := Obeyed(c, r);
      Polled(c, Data(Render(r))) ==
        Step(d, true, d.command.Setup? && !d.fields.tcp, false, ReplyTo(d.command, d.fields))
  {
    hide Good, Render, CommandOf, Classify, Whole, HoldsRequestLine, OneRead, Dealt, ApplyLines, WithUrl, Cleared;
    hide ReplyTo, Parse, Sound;
    var req := Render(r);
    RenderHoldsLine(r);
    RenderLongGood(r);
    AllDelivered(c, req);
    FirstPiece(c, req, req);
    RenderClassified(r);
    var d := Recognised(c, req);
    RequestRoundTrip(Cleared(c.fields), d.command.Setup?, r);
    HandledWell(c, d, req, ApplyLines(WithUrl(Cleared(c.fields), r), d.command.Setup?, r.lines).fields);
  }

  lemma AllDelivered(c: Conn, req: string)
    requires c.recv == "" && 0 < |req| < RTSP_BUFFER_SIZE
    ensures Delivered(c, Data(req)) == Data(req)
  {
    assert req[..|req|] == req;
  }

  lemma HandledWell(c: Conn, d: Conn, req: string, g: Fields)
    requires d == Recognised(c, req) && !d.command.Unknown?
    requires Parse(d.fields, d.command.Setup?, req, 0) == (Accepted, g)
    ensures Dealt(c, req, |req|) == Step(
      d.(recv := "", hdr := HdrUnknown, fields := g,
         streaming := c.streaming || d.command.Play?, stopped := d.command.Teardown?,
         rtpClientPort := if d.command.Setup? then g.rtpPort else c.rtpClientPort,
         rtcpClientPort := if d.command.Setup? then g.rtcpPort else c.rtcpClientPort),
      true, d.command.Setup? && !g.tcp, false, ReplyTo(d.command, g))
  {
    hide Parse, Classify, ReplyTo, Cleared;
  }

  /** The number of a request: that of its last CSeq line, or else of the request before. */
  function CSeqOf(ls: seq<Line>, n: nat): nat
    decreases |ls|
  {
    if ls == [] then n else CSeqOf(ls[1..], if ls[0].CSeqLine? then ls[0].n else n)
  }

  lemma {:induction false} CSeqRead(f: Fields, setup: bool, ls: seq<Line>)
    requires Sound(ls, setup)
    ensures ApplyLines(f, setup, ls).fields.cseq == CSeqOf(ls, f.cseq)
    decreases |ls|
  {
    if ls != [] {
      hide Sound;
      OneSound(f, setup, ls);
      if ls[0].TransportLine? { ParamsKeep(f.(tcp := ls[0].tcp, rtpPort := 0), ls[0].params); }
      CSeqRead(ApplyLine(f, setup, ls[0]).fields, setup, ls[1..]);
    }
  }

  /** How each command is answered: with the number of the request, and a DESCRIBE with the stream if and only if it
      asks for /live/1. */
  lemma Answered(c: Conn, r: Request)
    requires Good(r) && Sound(r.lines, r.name == "SETUP") && |Render(r)| < 500 && c.recv == "" && !c.stopped
    requires r.name in ["OPTIONS", "DESCRIBE", "SETUP", "PLAY", "TEARDOWN"]
    ensures var reply, n := Polled(c, Data(Render(r))).reply, CSeqOf(r.lines, c.fields.cseq);
      var g := ApplyLines(WithUrl(Cleared(c.fields), r), r.name == "SETUP", r.lines).fields;
      && (r.name == "OPTIONS" ==> reply == Some(Capabilities(n)))
      && (r.name == "DESCRIBE" ==> reply == Some(
            if r.url.presentation == "live" && r.url.stream == "1"
            then Described(n, r.url.host, r.url.presentation, r.url.stream) else NotFound(n)))
      && (r.name == "SETUP" ==> reply == Some(Prepared(n, g.tcp, g.rtpPort, g.rtcpPort)))
      && (r.name == "PLAY" ==> reply == Some(Playing(n)))
      && (r.name == "TEARDOWN" ==> reply == None)
  {
    hide Good, Render, Polled, ApplyLines, WithUrl, Sound, CommandOf, Cleared, CSeqOf, ReplyTo;
    var g := ApplyLines(WithUrl(Cleared(c.fields), r), r.name == "SETUP", r.lines).fields;
    ReplyByName(r.name, g);
    RequestObeyed(c, r);
    AnswerFields(c.fields, r);
  }

  lemma ReplyByName(name: string, f: Fields)
    requires name in ["OPTIONS", "DESCRIBE", "SETUP", "PLAY", "TEARDOWN"]
    ensures !CommandOf(name).Unknown? && (CommandOf(name).Setup? <==> name == "SETUP")
    ensures var reply := ReplyTo(CommandOf(name), f);
      && (name == "OPTIONS" ==> reply == Some(Capabilities(f.cseq)))
      && (name == "DESCRIBE" ==> reply == Some(
            if f.presentation == "live" && f.stream == "1"
            then Described(f.cseq, f.host, f.presentation, f.stream) else NotFound(f.cseq)))
      && (name == "SETUP" ==> reply == Some(Prepared(f.cseq, f.tcp, f.rtpPort, f.rtcpPort)))
      && (name == "PLAY" ==> reply == Some(Playing(f.cseq)))
      && (name == "TEARDOWN" ==> reply == None)
  {
  }

  lemma AnswerFields(f: Fields, r: Request)
    requires Sound(r.lines, r.name == "SETUP")
    ensures var g := ApplyLines(WithUrl(Cleared(f), r), r.name == "SETUP", r.lines).fields;
      && g.cseq == CSeqOf(r.lines, f.cseq)
      && g.host == r.url.host && g.presentation == r.url.presentation && g.stream == r.url.stream
  {
    CSeqRead(WithUrl(Cleared(f), r), r.name == "SETUP", r.lines);
    LinesKeep(WithUrl(Cleared(f), r), r.name == "SETUP", r.lines);
    hide ApplyLines, Sound;
  }

  /** Calls without a request. */
  lemma {:induction false} QuietTurns(c: Conn, n: nat)
    requires c.recv == "" && c.hdr.HdrUnknown? && !c.stopped
    ensures Turns(c, Quiet(n)) == seq(n, _ => Step(c, false, false, false, None))
  {
    if n > 0 {
      QuietTurns(c, n - 1);
      assert Quiet(n)[1..] == Quiet(n - 1);
      assert Polled(c, TimedOut) == Step(c, false, false, false, None);
      assert seq(n, _ => Step(c, false, false, false, None))
        == [Step(c, false, false, false, None)] + seq(n - 1, _ => Step(c, false, false, false, None));
    }
  }

  /** A PLAY of a session, and n turns without a request. */
  lemma {:induction false} PlayTurns(c: Conn, b: Request, n: nat)
    requires Asking(b, "PLAY") && c.recv == "" && !c.stopped
    ensures var d := Obeyed(c, b);
      && Turns(c, [Data(Render(b))] + Quiet(n))
        == [Step(d, true, false, false, Some(Playing(d.fields.cseq)))] + seq(n, _ => Step(d, false, false, false, None))
      && d.streaming && !d.stopped && d.fields.tcp == c.fields.tcp && d.rtpClientPort == c.rtpClientPort
  {
    hide Good, Render, Polled, ApplyLines, WithUrl, Turns, Quiet;
    RequestObeyed(c, b);
    var d := Obeyed(c, b);
    LinesKeep(WithUrl(Cleared(c.fields), b), false, b.lines);
    assert d.fields.tcp == c.fields.tcp by { SameTransport(c.fields, b); }
    hide Obeyed;
    QuietTurns(d, n);
    TurnsOne(c, Data(Render(b)), Quiet(n));
  }

  lemma SameTransport(f: Fields, r: Request)
    ensures WithUrl(Cleared(f), r).tcp == f.tcp
  {
  }

  lemma {:induction false} TurnsOne(c: Conn, read: Read, polls: seq<Read>)
    requires |c.recv| < RTSP_BUFFER_SIZE && !c.stopped
    ensures Turns(c, [read] + polls) == [Polled(c, read)] + Turns(Polled(c, read).conn, polls)
  {
    hide Polled;
    assert ([read] + polls)[1..] == polls;
  }

  // ----- a client that sets up and plays

  /** A SETUP, a PLAY, and n turns without a request. */
  function Watch(a: Request, b: Request, n: nat): seq<Read> {
    [Data(Render(a))] + ([Data(Render(b))] + Quiet(n))
  }

  /** The way that a SETUP asks for. */
  function WayOf(c: Conn, free: nat -> bool): Way {
    if c.fields.tcp then OverTcp
    else if c.rtpClientPort != 0 && Binds(free) then OverUdp(c.rtpClientPort)
    else Nowhere
  }

  /** What the calls of such a run are. */
  predicate WatchSteps(steps: seq<Step>, c: Conn, n: nat) {
    && |steps| == n + 2 && (forall i :: 0 <= i < |steps| ==> !steps[i].stuck && (steps[i].ret <==> i < 2))
    && steps[0].reply.Some? && steps[0].reply.value.Prepared? && steps[0].initUdp == !c.fields.tcp
    && steps[1].reply.Some? && steps[1].reply.value.Playing?
    && forall i :: 2 <= i < |steps| ==>
      && steps[i].reply.None? && steps[i].conn.streaming
      && steps[i].conn.fields.tcp == c.fields.tcp && steps[i].conn.rtpClientPort == c.rtpClientPort
  }

  lemma WatchTurns(a: Request, b: Request, n: nat)
    requires Asking(a, "SETUP") && Asking(b, "PLAY")
    ensures WatchSteps(Turns(NewConn(), Watch(a, b, n)), Obeyed(NewConn(), a), n)
  {
    hide Good, Render, Polled, ApplyLines, WithUrl, Turns, Quiet;
    RequestObeyed(NewConn(), a);
    var c := Obeyed(NewConn(), a);
    TurnsOne(NewConn(), Data(Render(a)), [Data(Render(b))] + Quiet(n));
    assert c.recv == "" && !c.stopped;
    hide Obeyed;
    PlayTurns(c, b, n);
  }

  /** All the units, and only they, are played while the session streams, and go where the SETUP has asked for. */
  lemma {:induction false} WatchLeads(steps: seq<Step>, c: Conn, n: nat, free: nat -> bool)
    requires WatchSteps(steps, c, n)
    ensures Leads(steps, WayOf(c, free), free) && NoneStuck(steps)
    ensures WayOf(c, free) != Nowhere ==> Asks(steps, WayOf(c, free))
    ensures Plays(steps, false) == 0 && Plays(steps, true) == n
  {
    hide Binds, Plays;
    if !c.fields.tcp { assert forall j :: 0 < j <= |steps| ==> SetUpBy(steps, j); }
    assert forall step <- steps :: step.reply.Some? ==> !step.reply.value.NotFound?;
    WatchPlays(steps, c, n, n + 2);
    assert steps[..n + 2] == steps;
  }

  lemma {:induction false} WatchPlays(steps: seq<Step>, c: Conn, n: nat, i: nat)
    requires WatchSteps(steps, c, n) && i <= n + 2
    ensures Plays(steps[..i], false) == 0 && Plays(steps[..i], true) == if i < 2 then 0 else i - 2
  {
    if i > 0 {
      WatchPlays(steps, c, n, i - 1);
      PlaysMore(steps, i - 1, false);
      PlaysMore(steps, i - 1, true);
      hide Plays;
    }
  }

  /** workerThread and a client that sends a SETUP and a PLAY: the viewer, who looks where the SETUP asked for its
      packets, recovers the first n units of the stream in a cycle if and only if each of them arrives. Over UDP, a
      pair of ports must be found and the client must have named its own. */
  method ServeWatcher(ghost us: seq<Unit>, ctx: RtpMuxContext, s: seq<byte>, addr: nat, socket: nat, a: Request,
                      b: Request, n: nat, words: nat -> PlainWords, free: nat -> bool)
      returns (streamer: CStreamer)
    requires Playable(us) && s == Join(us) && forall u <- us :: |u.nal| >= 2
    requires ctx.Valid() && !ctx.aggregation && ctx.bufPtr == 0
    requires Asking(a, "SETUP") && Asking(b, "PLAY")
    modifies ctx`bufPtr, ctx`seqno, ctx`timestamp, ctx.cache, ctx.buf
    ensures var way := WayOf(Obeyed(NewConn(), a), free);
      way != Nowhere ==>
        Gives(Seen(streamer.wire, socket, SourceSay(), way), Cycle(us, 0, n), true, old(ctx.timestamp), 0)
  {
    assert us != [];
    hide Playable, Join, Seen, Gives, Cycle, Plays, Turns, Asks, Leads, NewConn, NoneStuck, SourceSay, Obeyed, Asking;
    hide Watch, WatchSteps, WayOf;
    WatchTurns(a, b, n);
    var stuck;
    ghost var c, steps := Obeyed(NewConn(), a), Turns(NewConn(), Watch(a, b, n));
    WatchLeads(steps, c, n, free);
    streamer, stuck := ServeViewer(us, ctx, s, addr, socket, Watch(a, b, n), words, free);
  }
}
