/** Inputs on which the program falls short of what it is for, one for each exact condition elsewhere. */
module Shortfalls {
  import opened AnnexB
  import opened Bytes
  import opened Connection
  import opened FanOut
  import opened Rtp
  import opened RtspParser
  import opened RtspChunks
  import opened RtspReplies
  import opened RtspRequest
  import opened RtspSession
  import opened RtspUrl
  import opened SimStreamer
  import opened StartCode
  import opened UdpTransport
  import opened Units
  import opened Viewer
  import opened Watching
  import opened Worker
  import opened Wrappers
  import H264
  import H265

  /** A unit of n bytes that starts with these two. */
  function Long(n: nat, h0: byte, h1: byte): (nal: Nal)
    requires n >= 2
    ensures |nal| == n && nal[0] == h0 && nal[1] == h1
  {
    [h0, h1] + seq(n - 2, _ => 7)
  }

  /** A unit of 1400 bytes after a small one that waits to be aggregated (src/CStreamer.cpp:231-298). */
  lemma PendingUnitLost()
    ensures var calls := [Call([2, 1], false), Call(Long(1400, 2, 1), false)];
      H265.AllNals(calls) && !H265.Conserved(true, [], calls, [])
  {
    var calls := [Call([2, 1], false), Call(Long(1400, 2, 1), false)];
    hide Long, H265.Conserved, H265.NoneLossy, H265.HeadersKept;
    H265.RunConserves(true, [], calls, []);
    H265.NoneLossyWithAggregation([], calls);
    assert H265.Waiting([], calls, 1);
    assert !H265.Harmless([], calls, 1);
  }

  /** A unit of type 48, sent whole, is taken for an aggregation packet (src/CStreamer.cpp:297). */
  lemma ReservedTypeLost()
    ensures var calls := [Call([48 << 1, 1], true)]; H265.AllNals(calls) && !H265.Conserved(false, [], calls, [])
  {
    var calls := [Call([48 << 1, 1], true)];
    hide H265.Conserved, H265.NoneLossy, H265.HeadersKept;
    H265.RunConserves(false, [], calls, []);
    H265.NoneLossyWithoutAggregation(calls);
    assert H265.TypeOf(48 << 1) == 48;
    assert calls[0] in calls;
  }

  /** A fragmented unit with a TID of 2 comes out with a TID of 1 (src/CStreamer.cpp:332-333). */
  lemma HeaderLost()
    ensures var calls := [Call(Long(1401, 2, 2), true)];
      H265.AllNals(calls) && !H265.Conserved(false, [], calls, []) && H265.AsReceived(calls[0].nal)[1] == 1
  {
    var calls := [Call(Long(1401, 2, 2), true)];
    hide Long, H265.Conserved, H265.NoneLossy;
    H265.RunConserves(false, [], calls, []);
    assert !H265.HeaderKept(calls[0].nal);
    assert calls[0] in calls;
  }

  /** A fragmented H.264 unit loses its F bit (src/RTPEnc.cpp:190-191). */
  lemma ForbiddenBitLost()
    ensures var calls := [Call(Long(1401, 0x81, 0), true)];
      H264.AllRoom(false, calls) && !H264.Conserved(false, [], calls, []) && H264.AsReceived(calls[0].nal)[0] == 1
  {
    var calls := [Call(Long(1401, 0x81, 0), true)];
    hide Long, H264.Conserved, H264.NoneLossy;
    H264.RunConserves(false, [], calls, []);
    assert H264.FOf(0x81) != 0;
    assert !H264.HeaderKept(calls[0].nal);
    assert calls[0] in calls;
  }

  /** An H.264 unit of a type outside 1 to 23, sent whole, is taken for another kind of packet (src/RTPEnc.cpp:160). */
  lemma OtherTypeLost()
    ensures var calls := [Call([24], true)]; H264.AllRoom(false, calls) && !H264.Conserved(false, [], calls, [])
  {
    var calls := [Call([24], true)];
    hide H264.Conserved, H264.NoneLossy;
    H264.RunConserves(false, [], calls, []);
    H264.NoneLossyExact(false, [], calls);
    assert calls[0] in calls && !H264.Plain(calls[0].nal);
  }

  /** With aggregation off, what an earlier aggregation left in the buffer is never sent before a small unit
      (src/RTPEnc.cpp:160). */
  lemma LeftBehind()
    ensures var pending, calls := H264.Aggregated([], [1]), [Call([1], true)];
      && H264.WellFormed(pending) && H264.AllRoom(false, calls)
      && !H264.Conserved(false, pending, calls, [])
  {
    var pending, calls := H264.Aggregated([], [1]), [Call([1], true)];
    hide H264.Conserved, H264.NoneLossy, H264.Aggregated, H264.WellFormed;
    assert H264.WellFormed([]) by { NothingPending(); }
    H264.Filled([], [1]);
    H264.RunConserves(false, pending, calls, []);
    H264.NoneLossyExact(false, pending, calls);
  }

  lemma NothingPending()
    ensures H264.WellFormed([])
  {
  }

  /** A 3-byte start code before a unit that is not the last: the player then misses bytes of the stream's end, which
      the driver loops do not (src/SimStreamer.cpp:42, src/RTPEnc.cpp:239-255). */
  lemma ShortCodeDrifts()
    ensures var us := [Unit([2, 1, 7], false), Unit([2, 1, 7], true)];
      && Pass(Join(us), Cursor(0, |Join(us)|)) != Some(NalsOf(us))
      && Split(Join(us)) == Calls(us)
  {
    var us := [Unit([2, 1, 7], false), Unit([2, 1, 7], true)];
    TwoRecoverable();
    hide Pass, Split, Recoverable, Join, NalsOf;
    SplitJoin(us);
    PassExact(us);
    assert !us[0].long;
  }

  lemma TwoRecoverable()
    ensures Recoverable([Unit([2, 1, 7], false), Unit([2, 1, 7], true)])
  {
    var us := [Unit([2, 1, 7], false), Unit([2, 1, 7], true)];
    var nal: Nal := [2, 1, 7];
    assert FirstCode(nal) == 3;
    assert us[1..] == [Unit(nal, true)];
    assert CodeFree(nal);
  }

  /** SETUP rtsp://h/live/1 RTSP/1.0 with only a CSeq line. */
  function ShortSetup(pad: string, n: nat): Request {
    Request("SETUP", CommonUrl("h", "live", "1"), [CSeqLine(pad, n, "")])
  }

  lemma ShortGood(pad: string, n: nat)
    requires Blanks(pad)
    ensures Good(ShortSetup(pad, n)) && |Render(ShortSetup(pad, n))| >= 20
  {
    hide Decimal, LinesText;
    CommonGood();
    hide GoodUrl, CommonUrl;
    RenderLong(ShortSetup(pad, n));
  }

  lemma CommonGood()
    ensures GoodUrl(CommonUrl("h", "live", "1"))
  {
  }

  lemma {:induction false} OneLineRead(f: Fields, l: Line, slack: int)
    ensures var r := ReadLines(f, true, [l], slack);
      (AllPass([l], true, slack) <==> r.ok) && r == ReadLine(f, true, l, "\r\n\r\n", slack)
  {
    hide ReadLine;
    assert [l][1..] == [] && LinesText([]) == "\r\n\r\n";
    ReadsIfAllPass(f, true, [l], slack);
  }

  lemma {:induction false} ShortParsed(f: Fields, pad: string, n: nat, slack: int)
    requires Blanks(pad)
    ensures var (v, g) := Parse(f, true, Render(ShortSetup(pad, n)), slack);
      if 4 + slack > 0 then v == Accepted && g.cseq == n
      else if pad == "" && |Decimal(n)| + 4 + slack < 0 then v == Accepted && g.cseq == 0
      else v == Rejected
  {
    var r := ShortSetup(pad, n);
    ShortGood(pad, n);
    hide Parse, Render, Good, ReadLines, AllPass, Decimal;
    RequestAcceptance(f, true, r, slack);
    OneLineRead(WithUrl(f, r), CSeqLine(pad, n, ""), slack);
  }

  /** A SETUP in two reads of which the last is a single byte is refused; in one read it is accepted
      (src/CRtspSession.cpp:216, 624). */
  lemma SplitSetupRefused(f: Fields)
    ensures var req := Render(ShortSetup(" ", 1));
      Parse(f, true, req, 1 - |req|).0 == Rejected && Parse(f, true, req, 0).0 == Accepted
  {
    hide Parse, Render, ShortSetup, Decimal;
    ShortGood(" ", 1);
    ShortParsed(f, " ", 1, 1 - |Render(ShortSetup(" ", 1))|);
    ShortParsed(f, " ", 1, 0);
  }

  /** Without a blank after the colon the number is not even looked at in such a request: it reads as 0
      (src/CRtspSession.cpp:66-86). */
  lemma SplitSetupMisread(f: Fields)
    ensures var req := Render(ShortSetup("", 7));
      var (v, g) := Parse(f, true, req, 1 - |req|); v == Accepted && g.cseq == 0
  {
    hide Parse, Render, ShortSetup, Decimal;
    OneFigure();
    ShortGood("", 7);
    var req := Render(ShortSetup("", 7));
    ShortParsed(f, "", 7, 1 - |req|);
  }

  lemma OneFigure()
    ensures |Decimal(7)| == 1
  {
  }

  /** A DESCRIBE of a stream that there is not, while media is on the same connection: the reply lacks its empty line
      (src/CRtspSession.cpp:425-428), so the packet after it is taken for more of the reply. */
  lemma MediaAfterNotFound(w: PlainWords, p: Packet)
    requires p.Fits()
    ensures var items := [Answer(MessageOf(NotFound(3), w), HasEnd(NotFound(3))), Media(p)];
      Connection.AllFit(items) && ReadAll(Stream(items)) != Some(AllSeen(items))
  {
    hide MessageOf, Stream, ReadAll, AllSeen, Frame, RtspMessages.Proper;
    ReplyProper(NotFound(3), w);
    var items := [Answer(MessageOf(NotFound(3), w), HasEnd(NotFound(3))), Media(p)];
    ReadsBack(items);
    assert items[0] in items;
  }

  /** A client that sends a PLAY and no SETUP (src/CRtspSession.cpp:646-652, src/CStreamer.cpp:114-115): its session
      streams, but no unit gets anywhere. */
  lemma {:induction false} NothingSetUp(beats: seq<Beat>, socket: nat, b: Request, n: nat, words: nat -> PlainWords,
                                        free: nat -> bool)
    requires Asking(b, "PLAY")
    requires SentTo(beats, socket, Turns(NewConn(), [Data(Render(b))] + Quiet(n)), words, NO_UDP, free)
    ensures |NalsStreamed(beats)| == n && forall way: Way :: NalsGot(beats, way) == []
  {
    hide Good, Render, Polled, ApplyLines, WithUrl, Turns, Quiet, Obeyed, Plays, SentTo, Lasting, WayAt, Asking;
    var polls := [Data(Render(b))] + Quiet(n);
    var steps := Turns(NewConn(), polls);
    PlayOnly(b, n, free);
    StreamingStays(NewConn(), polls);
    Joins(beats, socket, steps, words, free, 0, Nowhere);
    StreamedFrom(beats, 0);
    WaysAre(beats, socket, steps, words, free);
    forall way: Way ensures NalsGot(beats, way) == [] { NoneGot(beats, way); }
  }

  lemma PlayOnly(b: Request, n: nat, free: nat -> bool)
    requires Asking(b, "PLAY")
    ensures var steps := Turns(NewConn(), [Data(Render(b))] + Quiet(n));
      && Plays(steps, true) == n
      && forall i :: 0 <= i < |steps| ==> steps[i].conn.streaming && WayAt(steps, i, free) == Nowhere
  {
    hide Good, Render, Polled, ApplyLines, WithUrl, Turns, Quiet, Obeyed, Plays, Asking;
    PlayTurns(NewConn(), b, n);
    var steps := Turns(NewConn(), [Data(Render(b))] + Quiet(n));
    PlayCount(steps, n + 1);
    assert steps[..n + 1] == steps;
  }

  lemma {:induction false} PlayCount(steps: seq<Step>, i: nat)
    requires 1 <= i <= |steps| && steps[0].ret
    requires forall j :: 1 <= j < |steps| ==> !steps[j].ret && steps[j].conn.streaming
    ensures Plays(steps[..i], true) == i - 1
  {
    PlaysMore(steps, i - 1, true);
    if i > 1 {
      PlayCount(steps, i - 1);
      hide Plays;
    }
  }

  lemma {:induction false} NoneGot(beats: seq<Beat>, way: Way)
    requires forall b <- beats :: !Gets(b, way)
    ensures NalsGot(beats, way) == []
  {
    hide Gets;
    if beats != [] { NoneGot(beats[..|beats| - 1], way); }
  }
}
