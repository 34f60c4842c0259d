/** workerThread of main/main.cpp, which serves one connection, and what a viewer on it gets. */
module Worker {
  import opened Bytes
  import opened FanOut
  import opened Rtp
  import opened RtpContext
  import opened RtspParser
  import opened RtspReplies
  import opened RtspSession
  import opened Sequences
  import opened SessionRing
  import opened SimStreamer
  import opened Streamer
  import opened UdpTransport
  import opened Units
  import opened Wrappers
  import H265

  /** Clock ticks between two units. */
  const TICK := 90000 / 30

  /** A turn of the loop: what the session replied, in which words, and the unit that was then sent to it, if any;
      with the session and the port of the RTP socket at that time. */
  datatype Beat = Beat(client: Client, source: nat, reply: Option<Reply>, words: PlainWords, nal: Option<Nal>)

  /** The state that sending changes. */
  datatype Sender = Sender(seqno: nat, timestamp: nat, pending: seq<byte>, wire: seq<Sent>)
  {
    predicate Fits() {
      seqno < 0x1_0000 && timestamp < 0x1_0000_0000 && |pending| <= MAX
    }
  }

  /** What is fixed throughout. */
  datatype Setting = Setting(aggregation: bool, ssrc: nat)
  {
    predicate Fits() { ssrc < 0x1_0000_0000 }
  }

  /** One unit sent to the session, and the clock advanced. */
  function OneUnit(k: Setting, x: Sender, client: Client, source: nat, nal: Nal): (y: Sender)
    requires k.Fits() && x.Fits()
    ensures y.Fits()
  {
    var step := H265.Send(k.aggregation, x.pending, nal, false);
    H265.SendSmall(k.aggregation, x.pending, nal, false);
    Sender((x.seqno + |step.packets|) % 0x1_0000, Advance(x.timestamp, TICK), step.pending,
           x.wire + Broadcast([client], source, x.seqno, x.timestamp, k.ssrc, step.packets))
  }

  function OneBeat(k: Setting, x: Sender, b: Beat): (y: Sender)
    requires k.Fits() && x.Fits()
    ensures y.Fits()
  {
    var y := x.(wire := x.wire + ReplySent(b.client.socket, b.reply, b.words));
    if b.nal.None? then y else OneUnit(k, y, b.client, b.source, b.nal.value)
  }

  function AfterBeats(k: Setting, x: Sender, beats: seq<Beat>): (y: Sender)
    requires k.Fits() && x.Fits()
    ensures y.Fits()
  {
    if beats == [] then x else
      OneBeat(k, AfterBeats(k, x, beats[..|beats| - 1]), beats[|beats| - 1])
  }

  lemma {:induction false} AfterOne(k: Setting, x: Sender, beats: seq<Beat>, b: Beat)
    requires k.Fits() && x.Fits()
    ensures AfterBeats(k, x, beats + [b]) == OneBeat(k, AfterBeats(k, x, beats), b)
  {
    hide OneBeat;
    assert (beats + [b])[..|beats|] == beats;
  }

  // ----- the requests on the way

  /** A socket delivers no more than it is asked for, and nothing at the end of the connection. */
  function Delivered(c: Conn, read: Read): (r: Read)
    requires |c.recv| < RTSP_BUFFER_SIZE
    ensures CanRead(c, r)
  {
    match read
    case Data(bytes) =>
      if bytes == "" then Read.Closed
      else Data(bytes[..if |bytes| <= ReadLimit(c) then |bytes| else ReadLimit(c)])
    case other => other
  }

  function ClientOf(socket: nat, c: Conn): Client {
    Client(socket, c.streaming, c.stopped, c.fields.tcp, c.rtpClientPort)
  }

  /** One call of handleRequests on the session. */
  function Polled(c: Conn, read: Read): (step: Step)
    requires |c.recv| < RTSP_BUFFER_SIZE
    ensures |step.conn.recv| < RTSP_BUFFER_SIZE
  {
    ReadFits(c, Delivered(c, read));
    hide OneRead;
    OneRead(c, Delivered(c, read))
  }

  /** The call on the session in each turn, as long as the session lasts. */
  function Turns(c: Conn, polls: seq<Read>): (steps: seq<Step>)
    requires |c.recv| < RTSP_BUFFER_SIZE
    ensures |steps| <= |polls|
    decreases |polls|
  {
    if polls == [] || c.stopped then [] else
      var step := Polled(c, polls[0]);
      [step] + Turns(step.conn, polls[1..])
  }

  /** A call of handleRequests that leaves the session in the list leaves it streaming if it was, and a session is
      only stopped by a call that reports a request. */
  lemma Streams(c: Conn, read: Read)
    requires |c.recv| < RTSP_BUFFER_SIZE && !c.stopped
    ensures var step := Polled(c, read);
      && (c.streaming ==> step.conn.streaming)
      && (step.conn.stopped ==> step.ret)
  {
    hide Parse, HasLine, Classify;
  }

  /** A read that finds the connection closed. */
  predicate Ends(read: Read) {
    read.Closed? || read == Data("")
  }

  /** The first such read is the last: the session is then stopped, and says nothing. */
  lemma {:induction false} EndOfTurns(c: Conn, polls: seq<Read>, i: nat)
    requires |c.recv| < RTSP_BUFFER_SIZE && i < |Turns(c, polls)| && Ends(polls[i])
    ensures var steps := Turns(c, polls);
      |steps| == i + 1 && steps[i].conn.stopped && steps[i].ret && steps[i].reply == None && !steps[i].initUdp
    decreases |polls|
  {
    hide OneRead;
    var d := Delivered(c, polls[0]);
    var step := Polled(c, polls[0]);
    hide Polled;
    if i == 0 {
      assert d == Read.Closed;
      EndStops(c, d);
    } else {
      EndOfTurns(step.conn, polls[1..], i - 1);
    }
  }

  /** A session that is stopped was so by the end of the connection or a TEARDOWN, and one that streams by a PLAY. */
  lemma {:induction false} TurnsBy(c: Conn, polls: seq<Read>, i: nat)
    requires |c.recv| < RTSP_BUFFER_SIZE && i < |Turns(c, polls)|
    ensures var steps := Turns(c, polls);
      && (steps[i].conn.stopped ==> Ends(polls[i]) || steps[i].conn.command.Teardown?)
      && (steps[i].conn.streaming && !c.streaming ==> exists j :: 0 <= j <= i && steps[j].conn.command.Play?)
    decreases |polls|
  {
    hide OneRead;
    var d := Delivered(c, polls[0]);
    var step := Polled(c, polls[0]);
    if !c.streaming && step.conn.streaming { StreamsBy(c, d); }
    if !d.Closed? && step.conn.stopped { StopsBy(c, d); }
    hide Polled;
    var steps := Turns(c, polls);
    assert steps[0] == step;
    if i > 0 {
      TurnsBy(step.conn, polls[1..], i - 1);
      assert forall j :: 0 < j < |steps| ==> steps[j] == Turns(step.conn, polls[1..])[j - 1];
      assert polls[i] == polls[1..][i - 1];
      if steps[i].conn.streaming && !step.conn.streaming {
        var j :| 0 <= j <= i - 1 && Turns(step.conn, polls[1..])[j].conn.command.Play?;
        assert steps[j + 1].conn.command.Play?;
      }
    }
  }

  /** Only the last call stops the session, no unit is sent to a stopped one, and once it is streaming it is in all
      later turns. */
  predicate Lasting(streaming: bool, steps: seq<Step>) {
    && (forall i :: 0 <= i < |steps| - 1 ==> !steps[i].conn.stopped)
    && (forall i :: 0 <= i < |steps| ==>
      (steps[i].ret || !steps[i].conn.stopped) && (streaming ==> steps[i].conn.streaming))
    && (forall i, j :: 0 <= i < j < |steps| && steps[i].conn.streaming ==> steps[j].conn.streaming)
  }

  lemma LastingOne(streaming: bool, step: Step, steps: seq<Step>)
    requires Lasting(step.conn.streaming, steps)
    requires (step.ret || !step.conn.stopped) && (streaming ==> step.conn.streaming)
    requires steps != [] ==> !step.conn.stopped
    ensures Lasting(streaming, [step] + steps)
  {
  }

  /** Once units are sent to an active session, all later ones are too. */
  lemma {:induction false} StreamingStays(c: Conn, polls: seq<Read>)
    requires |c.recv| < RTSP_BUFFER_SIZE
    ensures Lasting(c.streaming, Turns(c, polls))
    decreases |polls|
  {
    hide Polled;
    if polls != [] && !c.stopped {
      Streams(c, polls[0]);
      var step := Polled(c, polls[0]);
      StreamingStays(step.conn, polls[1..]);
      LastingOne(c.streaming, step, Turns(step.conn, polls[1..]));
    }
  }

  method StreamNal(streamer: CStreamer, ctx: RtpMuxContext, nal: Nal)
    requires streamer.Valid() && ctx.Valid()
    modifies streamer`wire, ctx`bufPtr, ctx`seqno, ctx.cache, ctx.buf
    ensures streamer.Valid() && ctx.Valid()
    ensures var step := H265.Send(ctx.aggregation, old(ctx.Pending()), nal, false);
      && ctx.Pending() == step.pending
      && streamer.Sent(ctx, Since(old(ctx.seqno), old(streamer.wire)), step.packets)
  {
    streamer.RtpSendNalH265(ctx, nal, false);
  }

  // ----- one turn of the loop

  function SenderOf(streamer: CStreamer, ctx: RtpMuxContext): (x: Sender)
    requires ctx.Valid()
    reads streamer`wire, ctx, ctx.buf
    ensures x.Fits()
  {
    Sender(ctx.seqno, ctx.timestamp, ctx.Pending(), streamer.wire)
  }

  function SettingOf(ctx: RtpMuxContext): (k: Setting)
    requires ctx.Valid()
    reads ctx
    ensures k.Fits()
  {
    Setting(ctx.aggregation, ctx.ssrc)
  }

  lemma SentIsUnit(k: Setting, x: Sender, client: Client, source: nat, nal: Nal, seqno: nat, wire: seq<Sent>,
                   packets: seq<seq<byte>>)
    requires k.Fits() && x.Fits() && packets == H265.Send(k.aggregation, x.pending, nal, false).packets
    requires SentAt(seqno, x.timestamp, k.ssrc, wire, [client], source, Since(x.seqno, x.wire), packets)
    ensures OneUnit(k, x, client, source, nal)
      == Sender(seqno, Advance(x.timestamp, TICK), H265.Send(k.aggregation, x.pending, nal, false).pending, wire)
  {
    hide Broadcast, H265.Send;
  }

  /** The part of a turn that plays a unit. */
  method PlayTurn(streamer: CStreamer, ctx: RtpMuxContext, s: seq<byte>, addr: nat, cursor: Cursor, ghost c: Client)
      returns (next: Cursor)
    requires streamer.Valid() && Clients(streamer.sessions) == [c] && ctx.Valid() && Select(s, cursor).Some?
    modifies streamer`wire, ctx`bufPtr, ctx`seqno, ctx`timestamp, ctx.cache, ctx.buf
    ensures streamer.Valid() && ctx.Valid()
    ensures next == Rewind(s, Select(s, cursor).value.next)
    ensures SenderOf(streamer, ctx)
      == OneUnit(SettingOf(ctx), old(SenderOf(streamer, ctx)), c, streamer.Source(), Select(s, cursor).value.nal)
  {
    hide Select, SentAt, H265.Send, OneUnit;
    ghost var x, k := SenderOf(streamer, ctx), SettingOf(ctx);
    var nal;
    next, nal := NextNal(s, addr, cursor);
    StreamNal(streamer, ctx, nal);
    SentIsUnit(k, x, c, streamer.Source(), nal, ctx.seqno, streamer.wire,
               H265.Send(k.aggregation, x.pending, nal, false).packets);
    ctx.timestamp := Advance(ctx.timestamp, TICK);
  }

  /** The next unit, and where to go on: at the start again after the end of the stream. */
  method NextNal(s: seq<byte>, addr: nat, cursor: Cursor) returns (next: Cursor, nal: Nal)
    requires Select(s, cursor).Some?
    ensures nal == Select(s, cursor).value.nal && next == Rewind(s, Select(s, cursor).value.next)
  {
    var r, rLen;
    next, r, rLen := SelectNextNal(s, addr, cursor, 0, 0);
    nal := s[r..r + rLen];
    if next.size <= 0 {
      next := Cursor(0, |s|);
    }
  }

  lemma {:induction false} OnePoll(session: CRtspSession, c: Conn, read: Read, w: PlainWords, u: Udp, free: nat -> bool)
    ensures Steps([c], [read]) == [OneRead(c, read)]
    ensures Kept([session], Gone(Steps([c], [read]))) == if OneRead(c, read).conn.stopped then [] else [session]
    ensures AllSent([session], Steps([c], [read]), _ => w, u, free)
      == ReplySent(session.socket, OneRead(c, read).reply, Posted(w, u, OneRead(c, read), free))
    ensures AllStepped(u, Steps([c], [read]), free) == Stepped(u, OneRead(c, read), free)
  {
    hide OneRead, Kept, Gone, AllSent, ReplySent, AllStepped, Stepped, Posted;
    assert [c][1..] == [] && [read][1..] == [];
    var step := OneRead(c, read);
    assert Steps([c], [read]) == [step];
    hide Steps;
    OneKept(session, step);
    OneSent(session, step, w, u, free);
    OneStepped(u, step, free);
  }

  lemma OneKept(session: CRtspSession, step: Step)
    ensures Kept([session], Gone([step])) == if step.conn.stopped then [] else [session]
  {
    assert [session][..0] == [] && Gone([step])[..0] == [];
  }

  lemma {:induction false} OneSent(session: CRtspSession, step: Step, w: PlainWords, u: Udp, free: nat -> bool)
    ensures AllSent([session], [step], _ => w, u, free)
      == ReplySent(session.socket, step.reply, Posted(w, u, step, free))
  {
    hide ReplySent, Posted;
    assert [session][..0] == [] && [step][..0] == [];
    var sent := ReplySent(session.socket, step.reply, Posted(w, u, step, free));
    assert [] + sent == sent;
  }

  lemma {:induction false} OneStepped(u: Udp, step: Step, free: nat -> bool)
    ensures AllStepped(u, [step], free) == Stepped(u, step, free)
  {
    hide Stepped;
    assert [step][..0] == [];
  }

  /** The requests that arrive in a turn. */
  method PollTurn(streamer: CStreamer, session: CRtspSession, read: Read, words: PlainWords, free: nat -> bool)
      returns (ret: bool, stuck: bool)
    requires streamer.Valid() && streamer.sessions == [session] && session.Valid() && CanRead(session.View(), read)
    modifies streamer`ring, streamer`sessions, streamer`wire, streamer.nodes, session, streamer.buffers, streamer.udp
    ensures var step := OneRead(old(session.View()), read);
      && stuck == step.stuck
      && (!stuck ==>
        && ret == step.ret && streamer.Valid()
        && session.Valid() && session.View() == step.conn
        && streamer.sessions == (if step.conn.stopped then [] else [session])
        && streamer.wire == old(streamer.wire)
          + ReplySent(session.socket, step.reply, Posted(words, old(streamer.udp.View()), step, free))
        && streamer.udp.View() == Stepped(old(streamer.udp.View()), step, free))
  {
    hide OneRead, CanRead, Lists, DistinctBuffers, Steps, Gone, Kept, Together, AllSent, ReplySent, Stepped, AllStepped;
    hide Posted;
    ghost var c := session.View();
    OnePoll(session, c, read, words, streamer.udp.View(), free);
    AllTogether(Steps([c], [read]));
    ret, stuck := streamer.HandleRequests([session], [c], [read], _ => words, free);
    if !stuck {
      VisitedEnd([session], [c], [read]);
    }
  }

  // ----- the loop

  lemma {:induction false} TurnsNext(c: Conn, polls: seq<Read>, i: nat)
    requires |c.recv| < RTSP_BUFFER_SIZE && i < |polls| && !c.stopped
    ensures var step := Polled(c, polls[i]); Turns(c, polls[i..]) == [step] + Turns(step.conn, polls[i + 1..])
  {
    hide Polled;
    assert polls[i..][1..] == polls[i + 1..];
  }

  /** The units sent, in order. */
  function NalsPlayed(beats: seq<Beat>): (ns: seq<Nal>)
    ensures |ns| <= |beats|
  {
    if beats == [] then [] else
      var n := |beats| - 1;
      NalsPlayed(beats[..n]) + if beats[n].nal.Some? then [beats[n].nal.value] else []
  }

  lemma {:induction false} PlayedOne(beats: seq<Beat>, b: Beat)
    ensures NalsPlayed(beats + [b]) == NalsPlayed(beats) + if b.nal.Some? then [b.nal.value] else []
  {
    assert (beats + [b])[..|beats|] == beats;
  }

  /** The beats of turns in which these calls were made: each reply is sent, in the words of its turn, and a unit
      exactly in those turns in which the call returned false, to the session as it then stood, from the port that the
      calls so far have left the transport u with. */
  ghost predicate SentTo(beats: seq<Beat>, socket: nat, steps: seq<Step>, words: nat -> PlainWords, u: Udp,
                         free: nat -> bool)
  {
    |beats| == |steps| && forall j :: 0 <= j < |beats| ==>
      && beats[j].client == ClientOf(socket, steps[j].conn)
      && beats[j].source == SourceOf(AllStepped(u, steps[..j + 1], free))
      && beats[j].reply == steps[j].reply
      && beats[j].words == Posted(words(j), AllStepped(u, steps[..j], free), steps[j], free)
      && (beats[j].nal.Some? <==> !steps[j].ret)
  }

  /** The parser returned in all of these calls. */
  predicate NoneStuck(steps: seq<Step>) {
    forall step <- steps :: !step.stuck
  }

  /** What a run of the loop is about: the sending context, the stream, the connection, the words, the transport, and
      the ports that can be bound for it. */
  datatype Task = Task(k: Setting, x: Sender, s: seq<byte>, socket: nat, c: Conn, polls: seq<Read>,
                       words: nat -> PlainWords, u: Udp, free: nat -> bool)
  {
    predicate Fits() {
      k.Fits() && x.Fits() && |c.recv| < RTSP_BUFFER_SIZE && Played(s, Cursor(0, |s|), |polls|).Some?
    }
  }

  /** The session after these calls. */
  function LastConn(c: Conn, steps: seq<Step>): Conn {
    if steps == [] then c else steps[|steps| - 1].conn
  }

  /** Where a run stands after i turns, the given beats. */
  ghost predicate Reached(t: Task, beats: seq<Beat>, y: Sender, cursor: Cursor, c: Conn, v: Udp)
    requires t.Fits() && |c.recv| < RTSP_BUFFER_SIZE
  {
    var all, i, n := Turns(t.c, t.polls), |beats|, |NalsPlayed(beats)|;
    && i <= |all|
    && y == AfterBeats(t.k, t.x, beats) && v == AllStepped(t.u, all[..i], t.free)
    && SentTo(beats, t.socket, all[..i], t.words, t.u, t.free) && NoneStuck(all[..i])
    && Turns(c, t.polls[i..]) == all[i..] && c == LastConn(t.c, all[..i])
    && Played(t.s, Cursor(0, |t.s|), n) == Some(NalsPlayed(beats))
    && cursor == CursorAfter(t.s, Cursor(0, |t.s|), n)
  }

  lemma RunStart(t: Task)
    requires t.Fits()
    ensures Reached(t, [], t.x, Cursor(0, |t.s|), t.c, t.u)
  {
    hide Turns;
    assert t.polls[0..] == t.polls;
    NothingPlayed(t.s, Cursor(0, |t.s|));
  }

  /** The beat of a turn in which the call made this step. */
  function BeatOf(t: Task, i: nat, step: Step, v: Udp, cursor: Cursor): Beat
    requires !step.ret ==> Select(t.s, cursor).Some?
  {
    Beat(ClientOf(t.socket, step.conn), SourceOf(Stepped(v, step, t.free)), step.reply,
         Posted(t.words(i), v, step, t.free),
         if step.ret then None else Some(Select(t.s, cursor).value.nal))
  }

  lemma RunTurn(t: Task, beats: seq<Beat>, y: Sender, cursor: Cursor, c: Conn, v: Udp)
    requires t.Fits() && |c.recv| < RTSP_BUFFER_SIZE && Reached(t, beats, y, cursor, c, v)
    requires |beats| < |t.polls| && !c.stopped && !Polled(c, t.polls[|beats|]).stuck
    ensures y.Fits() && Select(t.s, cursor).Some?
    ensures var step := Polled(c, t.polls[|beats|]);
      var w := Stepped(v, step, t.free);
      var b := BeatOf(t, |beats|, step, v, cursor);
      Reached(t, beats + [b], OneBeat(t.k, y, b),
              if step.ret then cursor else Rewind(t.s, Select(t.s, cursor).value.next),
              step.conn, w)
  {
    hide Polled, Turns, OneBeat, AfterBeats, Select, Played, CursorAfter, Rewind, NalsPlayed, ClientOf;
    hide SourceOf, Stepped, AllStepped, SentTo, NoneStuck, Posted;
    var i := |beats|;
    TurnsNext(c, t.polls, i);
    PlayNext(t.s, Cursor(0, |t.s|), |NalsPlayed(beats)|, |t.polls|);
    var step := Polled(c, t.polls[i]);
    var b := BeatOf(t, i, step, v, cursor);
    AfterOne(t.k, t.x, beats, b);
    PlayedOne(beats, b);
    assert NalsPlayed(beats) + [] == NalsPlayed(beats);
    SentOne(t, beats, b, Turns(t.c, t.polls), step, Turns(step.conn, t.polls[i + 1..]));
  }

  lemma SentOne(t: Task, beats: seq<Beat>, b: Beat, all: seq<Step>, step: Step, rest: seq<Step>)
    requires |beats| <= |all| && SentTo(beats, t.socket, all[..|beats|], t.words, t.u, t.free)
    requires all[|beats|..] == [step] + rest
    requires b.client == ClientOf(t.socket, step.conn) && b.reply == step.reply
    requires b.words == Posted(t.words(|beats|), AllStepped(t.u, all[..|beats|], t.free), step, t.free)
    requires b.source == SourceOf(Stepped(AllStepped(t.u, all[..|beats|], t.free), step, t.free))
    requires (b.nal.Some? <==> !step.ret) && NoneStuck(all[..|beats|]) && !step.stuck
    ensures NoneStuck(all[..|beats| + 1]) && LastConn(t.c, all[..|beats| + 1]) == step.conn
    ensures |beats| < |all| && SentTo(beats + [b], t.socket, all[..|beats| + 1], t.words, t.u, t.free)
    ensures all[|beats| + 1..] == rest
    ensures AllStepped(t.u, all[..|beats| + 1], t.free)
      == Stepped(AllStepped(t.u, all[..|beats|], t.free), step, t.free)
  {
    hide ClientOf, SourceOf, Stepped, Posted;
    var n := |beats|;
    assert all[n] == all[n..][0] == step;
    assert all[n + 1..] == all[n..][1..];
    assert all[..n + 1][..n] == all[..n] && all[..n + 1][n] == step;
    assert AllStepped(t.u, all[..n + 1], t.free) == Stepped(AllStepped(t.u, all[..n], t.free), step, t.free);
    SentPrefix(beats, b, t.socket, all, t.words, t.u, t.free);
  }

  lemma {:induction false} SentPrefix(beats: seq<Beat>, b: Beat, socket: nat, all: seq<Step>,
                                      words: nat -> PlainWords, u: Udp, free: nat -> bool)
    requires |beats| < |all| && SentTo(beats, socket, all[..|beats|], words, u, free)
    requires var step := all[|beats|];
      && b.client == ClientOf(socket, step.conn) && b.reply == step.reply && (b.nal.Some? <==> !step.ret)
      && b.words == Posted(words(|beats|), AllStepped(u, all[..|beats|], free), step, free)
      && b.source == SourceOf(AllStepped(u, all[..|beats| + 1], free))
    ensures SentTo(beats + [b], socket, all[..|beats| + 1], words, u, free)
  {
    hide ClientOf, SourceOf, Posted, AllStepped;
    var n := |beats|;
    forall j | 0 <= j <= n
      ensures (beats + [b])[j].source == SourceOf(AllStepped(u, all[..n + 1][..j + 1], free))
      ensures (beats + [b])[j].words == Posted(words(j), AllStepped(u, all[..n + 1][..j], free), all[j], free)
    {
      assert all[..n + 1][..j + 1] == all[..j + 1] && all[..n + 1][..j] == all[..j];
      if j < n { assert all[..n][..j + 1] == all[..j + 1] && all[..n][..j] == all[..j]; }
    }
  }

  lemma {:induction false} TurnsOver(c: Conn, polls: seq<Read>)
    requires |c.recv| < RTSP_BUFFER_SIZE && (polls == [] || c.stopped)
    ensures Turns(c, polls) == []
  {
  }

  lemma {:induction false} RunEnd(t: Task, beats: seq<Beat>, y: Sender, cursor: Cursor, c: Conn, v: Udp)
    requires t.Fits() && |c.recv| < RTSP_BUFFER_SIZE && Reached(t, beats, y, cursor, c, v)
    requires |beats| == |t.polls| || c.stopped
    ensures |beats| <= |t.polls| && y == AfterBeats(t.k, t.x, beats)
    ensures SentTo(beats, t.socket, Turns(t.c, t.polls), t.words, t.u, t.free) && NoneStuck(Turns(t.c, t.polls))
    ensures c == LastConn(t.c, Turns(t.c, t.polls))
    ensures Played(t.s, Cursor(0, |t.s|), |NalsPlayed(beats)|) == Some(NalsPlayed(beats))
  {
    hide Turns, AfterBeats, Played, CursorAfter, SentTo, NalsPlayed, AllStepped, NoneStuck;
    TurnsOver(c, t.polls[|beats|..]);
    WholePrefix(Turns(t.c, t.polls), |beats|);
  }

  /** A call that the parser hangs in. */
  lemma RunStuck(t: Task, beats: seq<Beat>, y: Sender, cursor: Cursor, c: Conn, v: Udp)
    requires t.Fits() && |c.recv| < RTSP_BUFFER_SIZE && Reached(t, beats, y, cursor, c, v)
    requires |beats| < |t.polls| && !c.stopped && Polled(c, t.polls[|beats|]).stuck
    ensures !NoneStuck(Turns(t.c, t.polls))
  {
    hide Turns, Polled, AfterBeats, Played, CursorAfter, SentTo, NalsPlayed, AllStepped;
    TurnsNext(c, t.polls, |beats|);
    var all, i := Turns(t.c, t.polls), |beats|;
    assert all[i..][0] == Polled(c, t.polls[i]);
    assert all[i] == all[i..][0] && all[i] in all;
  }

  /** One turn of the loop. */
  method Turn(streamer: CStreamer, session: CRtspSession, ctx: RtpMuxContext, s: seq<byte>, addr: nat, read: Read,
              words: PlainWords, free: nat -> bool, cursor: Cursor, ghost t: Task, ghost beats: seq<Beat>)
      returns (stuck: bool, next: Cursor, ghost b: Beat)
    requires streamer.Valid() && streamer.sessions == [session] && session.Valid() && !session.stopped && ctx.Valid()
    requires t.Fits() && s == t.s && session.socket == t.socket && SettingOf(ctx) == t.k && free == t.free
    requires |beats| < |t.polls| && read == Delivered(session.View(), t.polls[|beats|]) && words == t.words(|beats|)
    requires Reached(t, beats, SenderOf(streamer, ctx), cursor, session.View(), streamer.udp.View())
    modifies streamer`ring, streamer`sessions, streamer`wire, streamer.nodes, session, streamer.buffers, streamer.udp
    modifies ctx`bufPtr, ctx`seqno, ctx`timestamp, ctx.cache, ctx.buf
    ensures stuck ==> !NoneStuck(Turns(t.c, t.polls))
    ensures !stuck ==>
      && streamer.Valid() && session.Valid() && ctx.Valid() && SettingOf(ctx) == t.k
      && streamer.sessions == (if session.stopped then [] else [session])
      && Reached(t, beats + [b], SenderOf(streamer, ctx), next, session.View(), streamer.udp.View())
  {
    hide Reached, Select, OneRead, OneUnit, Played, Delivered, Rewind, ReplySent, Stepped, Lists, NoneStuck, Posted;
    ghost var c, y, step := session.View(), SenderOf(streamer, ctx), Polled(session.View(), t.polls[|beats|]);
    ghost var v := streamer.udp.View();
    next := cursor;
    Streams(c, t.polls[|beats|]);
    var ret;
    ret, stuck := PollTurn(streamer, session, read, words, free);
    b := BeatOf(t, |beats|, step.(ret := true), v, cursor);
    if stuck {
      RunStuck(t, beats, y, cursor, c, v);
      return;
    }
    RunTurn(t, beats, y, cursor, c, v);
    b := BeatOf(t, |beats|, step, v, cursor);
    Replied(y, SenderOf(streamer, ctx), b);
    if !ret {
      next := PlayTurn(streamer, ctx, s, addr, cursor, ClientOf(t.socket, step.conn));
    }
  }

  lemma Replied(x: Sender, y: Sender, b: Beat)
    requires y == x.(wire := y.wire) && y.wire == x.wire + ReplySent(b.client.socket, b.reply, b.words)
    ensures y == x.(wire := x.wire + ReplySent(b.client.socket, b.reply, b.words))
  {
  }

  /** Unless the parser hangs in one of the calls, in every turn the session's reply goes out; the units sent are those
      that playing the stream from its start gives, each to the session as it stood in its turn. */
  method WorkerLoop(streamer: CStreamer, session: CRtspSession, ctx: RtpMuxContext, s: seq<byte>, addr: nat,
                    polls: seq<Read>, words: nat -> PlainWords, free: nat -> bool)
      returns (stuck: bool, ghost beats: seq<Beat>)
    requires streamer.Valid() && streamer.sessions == [session] && session.Valid() && !session.stopped && ctx.Valid()
    requires Played(s, Cursor(0, |s|), |polls|).Some?
    modifies streamer`ring, streamer`sessions, streamer`wire, streamer.nodes, session, streamer.buffers, streamer.udp
    modifies ctx`bufPtr, ctx`seqno, ctx`timestamp, ctx.cache, ctx.buf
    ensures stuck <==> !NoneStuck(Turns(old(session.View()), polls))
    ensures !stuck ==>
      && streamer.Valid() && ctx.Valid()
      && SenderOf(streamer, ctx) == AfterBeats(old(SettingOf(ctx)), old(SenderOf(streamer, ctx)), beats)
      && SentTo(beats, session.socket, Turns(old(session.View()), polls), words, old(streamer.udp.View()), free)
      && (streamer.sessions == [] <==> LastConn(old(session.View()), Turns(old(session.View()), polls)).stopped)
      && |beats| <= |polls| && Played(s, Cursor(0, |s|), |NalsPlayed(beats)|) == Some(NalsPlayed(beats))
  {
    hide Reached, AfterBeats, Played, Turns, SentTo, Delivered, NalsPlayed, NoneStuck;
    ghost var t := Task(SettingOf(ctx), SenderOf(streamer, ctx), s, session.socket, session.View(), polls, words,
                        streamer.udp.View(), free);
    RunStart(t);
    var cursor, i := Cursor(0, |s|), 0;
    beats, stuck := [], false;
    while i < |polls|
      invariant 0 <= i <= |polls| && i == |beats| && !stuck
      invariant streamer.Valid() && session.Valid() && ctx.Valid() && SettingOf(ctx) == t.k
      invariant streamer.sessions == if session.stopped then [] else [session]
      invariant Reached(t, beats, SenderOf(streamer, ctx), cursor, session.View(), streamer.udp.View())
    {
      var any := streamer.AnySessions();
      if !any {
        break;
      }
      var read := Delivered(session.View(), polls[i]);
      ghost var b;
      stuck, cursor, b := Turn(streamer, session, ctx, s, addr, read, words(i), free, cursor, t, beats);
      if stuck {
        return;
      }
      beats := beats + [b];
      i := i + 1;
    }
    RunEnd(t, beats, SenderOf(streamer, ctx), cursor, session.View(), streamer.udp.View());
  }

  /** A connection that has ended: no turn follows, and nothing is sent in the turn that finds it so. */
  lemma {:induction false} HungUp(k: Setting, x: Sender, beats: seq<Beat>, socket: nat, polls: seq<Read>,
                                  words: nat -> PlainWords, u: Udp, free: nat -> bool, i: nat)
    requires k.Fits() && x.Fits() && SentTo(beats, socket, Turns(NewConn(), polls), words, u, free)
    requires i < |Turns(NewConn(), polls)| && Ends(polls[i])
    ensures |beats| == i + 1 && LastConn(NewConn(), Turns(NewConn(), polls)).stopped
    ensures AfterBeats(k, x, beats) == AfterBeats(k, x, beats[..i])
  {
    hide Turns, SourceOf, AllStepped, ClientOf, Ends, Posted, AfterBeats, OneBeat;
    EndOfTurns(NewConn(), polls, i);
    assert beats == beats[..i] + [beats[i]];
    assert beats[i].reply == None && beats[i].nal == None;
    hide SentTo, LastConn;
    AfterOne(k, x, beats[..i], beats[i]);
    IdleBeat(k, AfterBeats(k, x, beats[..i]), beats[i]);
  }

  lemma IdleBeat(k: Setting, y: Sender, b: Beat)
    requires k.Fits() && y.Fits() && b.reply == None && b.nal == None
    ensures OneBeat(k, y, b) == y
  {
    assert y.wire + [] == y.wire;
  }

  /** If the run gets to a read that finds the connection closed, it ends there: the session is stopped, and what has
      been sent is what was sent before. */
  ghost predicate OverAtEnd(k: Setting, x: Sender, polls: seq<Read>, beats: seq<Beat>)
    requires k.Fits() && x.Fits()
  {
    forall i: nat :: i < |Turns(NewConn(), polls)| && Ends(polls[i]) ==>
      && |beats| == i + 1 && LastConn(NewConn(), Turns(NewConn(), polls)).stopped
      && AfterBeats(k, x, beats) == AfterBeats(k, x, beats[..i])
  }

  lemma {:induction false} HungUpAnywhere(k: Setting, x: Sender, beats: seq<Beat>, socket: nat, polls: seq<Read>,
                                          words: nat -> PlainWords, u: Udp, free: nat -> bool)
    requires k.Fits() && x.Fits() && SentTo(beats, socket, Turns(NewConn(), polls), words, u, free)
    ensures OverAtEnd(k, x, polls, beats)
  {
    hide AfterBeats, Turns, SentTo, LastConn, Ends;
    forall i: nat | i < |Turns(NewConn(), polls)| && Ends(polls[i])
      ensures |beats| == i + 1 && LastConn(NewConn(), Turns(NewConn(), polls)).stopped
      ensures AfterBeats(k, x, beats) == AfterBeats(k, x, beats[..i])
    {
      HungUp(k, x, beats, socket, polls, words, u, free, i);
    }
  }

  /** The same with the streamer and its one session made first. At the first read that finds the connection closed,
      if the run gets there, the session is deleted and the run is over. */
  method WorkerThread(ctx: RtpMuxContext, s: seq<byte>, addr: nat, socket: nat, polls: seq<Read>,
                      words: nat -> PlainWords, free: nat -> bool)
      returns (streamer: CStreamer, stuck: bool, ghost beats: seq<Beat>)
    requires ctx.Valid() && Played(s, Cursor(0, |s|), |polls|).Some?
    modifies ctx`bufPtr, ctx`seqno, ctx`timestamp, ctx.cache, ctx.buf
    ensures stuck <==> !NoneStuck(Turns(NewConn(), polls))
    ensures !stuck ==>
      && streamer.Valid() && ctx.Valid()
      && SenderOf(streamer, ctx) == AfterBeats(old(SettingOf(ctx)),
           Sender(old(ctx.seqno), old(ctx.timestamp), old(ctx.Pending()), []), beats)
      && SentTo(beats, socket, Turns(NewConn(), polls), words, NO_UDP, free)
      && |beats| <= |polls| && Played(s, Cursor(0, |s|), |NalsPlayed(beats)|) == Some(NalsPlayed(beats))
      && (streamer.sessions == [] <==> LastConn(NewConn(), Turns(NewConn(), polls)).stopped)
      && OverAtEnd(old(SettingOf(ctx)), Sender(old(ctx.seqno), old(ctx.timestamp), old(ctx.Pending()), []), polls,
                   beats)
  {
    hide AfterBeats, Played, Turns, SentTo, NalsPlayed, NoneStuck, LastConn, OverAtEnd;
    streamer := new CStreamer();
    var session := streamer.AddSession(socket);
    assert streamer.sessions == [session];
    stuck, beats := WorkerLoop(streamer, session, ctx, s, addr, polls, words, free);
    if !stuck {
      HungUpAnywhere(old(SettingOf(ctx)), Sender(old(ctx.seqno), old(ctx.timestamp), old(ctx.Pending()), []), beats,
                     socket, polls, words, NO_UDP, free);
    }
  }
}
