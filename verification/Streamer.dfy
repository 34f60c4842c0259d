/** CStreamer of src/CStreamer.cpp: the session list, and the H.265 media path from a NAL unit to the sockets. */
module Streamer {
  import opened Bytes
  import opened FanOut
  import opened Rtp
  import opened RtpContext
  import opened RtspReplies
  import opened RtspSession
  import opened Sequences
  import opened SessionRing
  import opened UdpTransport
  import opened Units
  import opened Wrappers
  import H265

  function Clients(sessions: seq<CRtspSession>): (cs: seq<Client>)
    reads sessions
    ensures |cs| == |sessions|
    ensures forall i :: 0 <= i < |cs| ==> cs[i] == sessions[i].AsClient()
  {
    if sessions == [] then [] else [sessions[0].AsClient()] + Clients(sessions[1..])
  }

  ghost predicate DistinctBuffers(sessions: seq<CRtspSession>) {
    forall i, j :: 0 <= i < j < |sessions| ==> sessions[i].recvBuf != sessions[j].recvBuf
  }

  lemma BuffersAppend(sessions: seq<CRtspSession>, s: CRtspSession)
    requires DistinctBuffers(sessions) && forall t <- sessions :: t.recvBuf != s.recvBuf
    ensures DistinctBuffers(sessions + [s])
  {
  }

  lemma BuffersRemove(sessions: seq<CRtspSession>, k: nat)
    requires DistinctBuffers(sessions) && k < |sessions|
    ensures DistinctBuffers(sessions[..k] + sessions[k + 1..])
  {
  }

  /** Where a run of sends started: the number of its first packet and what had been sent before it. */
  datatype Since = Since(seqno: nat, wire: seq<Sent>)

  /** The payloads sent since then, to the given sessions. */
  ghost predicate SentAt(seqno: nat, timestamp: nat, ssrc: nat, wire: seq<Sent>, cs: seq<Client>, source: nat,
                         since: Since, payloads: seq<seq<byte>>)
  {
    && timestamp < 0x1_0000_0000 && ssrc < 0x1_0000_0000 && H265.Small(payloads)
    && seqno == (since.seqno + |payloads|) % 0x1_0000
    && wire == since.wire + Broadcast(cs, source, since.seqno, timestamp, ssrc, payloads)
  }

  lemma NothingSent(seqno: nat, timestamp: nat, ssrc: nat, wire: seq<Sent>, cs: seq<Client>, source: nat)
    requires seqno < 0x1_0000 && timestamp < 0x1_0000_0000 && ssrc < 0x1_0000_0000
    ensures SentAt(seqno, timestamp, ssrc, wire, cs, source, Since(seqno, wire), [])
  {
    BroadcastNothing(cs, source, seqno, timestamp, ssrc);
  }

  lemma {:induction false} SentMore(seqno: nat, timestamp: nat, ssrc: nat, wire: seq<Sent>, cs: seq<Client>,
                                    source: nat, since: Since, payloads: seq<seq<byte>>, payload: seq<byte>)
    requires SentAt(seqno, timestamp, ssrc, wire, cs, source, since, payloads) && |payload| <= MAX
    ensures SentAt((seqno + 1) % 0x1_0000, timestamp, ssrc,
                   wire + DeliverAll(cs, source, Packet(false, seqno, timestamp, ssrc, payload)), cs, source,
                   since, payloads + [payload])
  {
    hide Broadcast, DeliverAll;
    BroadcastOne(cs, source, since.seqno, timestamp, ssrc, payloads, payload);
    Associative(since.wire, Broadcast(cs, source, since.seqno, timestamp, ssrc, payloads),
                DeliverAll(cs, source, Packet(false, seqno, timestamp, ssrc, payload)));
    ModAdd(since.seqno + |payloads|, 1);
  }

  class CStreamer {
    const clients: Element<CRtspSession>
    const udp: Transport
    ghost var ring: seq<Element<CRtspSession>>  // the list head, then the elements in order
    ghost var sessions: seq<CRtspSession>  // the live sessions, in the order of the list
    ghost var nodes: set<Element<CRtspSession>>  // all elements so far
    ghost var buffers: set<array<char>>  // the receive buffers of all sessions so far
    var wire: seq<Sent>  // what has been handed to the sockets so far

    ghost predicate Valid()
      reads this, ring, sessions
    {
      && Lists(ring, sessions) && ring[0] == clients && (forall e <- ring :: e in nodes)
      && Distinct(sessions) && DistinctBuffers(sessions)
      && (forall s <- sessions :: s.udp == udp && s.recvBuf in buffers && s.Valid())
      && (forall b <- buffers :: b.Length == RTSP_BUFFER_SIZE)
    }

    /** The port that RTP datagrams leave from; 0 if they do not. */
    function Source(): nat
      reads udp
    {
      SourceOf(udp.View())
    }

    ghost predicate Sent(ctx: RtpMuxContext, since: Since, payloads: seq<seq<byte>>)
      reads this`sessions, this`wire, sessions, udp, ctx`seqno, ctx`timestamp, ctx`ssrc
    {
      SentAt(ctx.seqno, ctx.timestamp, ctx.ssrc, wire, Clients(sessions), Source(), since, payloads)
    }

    constructor ()
      ensures Valid() && fresh(udp) && fresh(ring) && fresh(nodes)
      ensures sessions == [] && buffers == {} && wire == []
      ensures udp.View() == NO_UDP
    {
      clients := new Element<CRtspSession>.Head();
      udp := new Transport();
      wire, sessions, buffers := [], [], {};
      new;
      nodes := {clients};
      ring := [clients];
    }

    /** The sending part of rtpSendData: the packet that is ready in the cache goes to every active session of the
        list, with its interleaved prefix over TCP and without it over UDP. */
    method Deliver(ctx: RtpMuxContext, len: nat, ghost p: Packet)
      requires Valid() && p.Fits() && len == |p.payload| && PREFIX + HEADER + len <= ctx.cache.Length
      requires ctx.cache[..PREFIX + HEADER + len] == Frame(p)
      modifies this`wire
      ensures Valid() && wire == old(wire) + DeliverAll(Clients(sessions), Source(), p)
    {
      hide Frame, Lists, DeliverAll, DistinctBuffers;
      ghost var cs, i := Clients(sessions), 0;
      FrameHoldsDatagram(p);
      assert ctx.cache[PREFIX..PREFIX + HEADER + len] == Frame(p)[PREFIX..];
      DeliverNone(cs, Source(), p);
      Traverse(ring, sessions, 0);
      var element := clients.next;
      while element != clients
        invariant 0 <= i <= |sessions| && Lists(ring, sessions) && |ring| == |sessions| + 1
        invariant element == At(ring, i)
        invariant wire == old(wire) + DeliverAll(cs[..i], Source(), p)
        decreases |sessions| - i
      {
        Traverse(ring, sessions, i);
        var session := element.content.value;
        DeliverNext(cs, i, Source(), p);
        DeliverTo(session, ctx.cache[..PREFIX + HEADER + len], p);
        element := element.next;
        i := i + 1;
      }
      Traverse(ring, sessions, i);
      assert cs[..i] == cs;
    }

    method DeliverTo(session: CRtspSession, frame: seq<byte>, ghost p: Packet)
      requires p.Fits() && frame == Frame(p)
      modifies this`wire
      ensures wire == old(wire) + FanOut.Deliver(session.AsClient(), Source(), p)
    {
      hide Frame, Datagram;
      FrameHoldsDatagram(p);
      if session.streaming && !session.stopped {
        if session.fields.tcp {
          wire := wire + [TcpSend(session.socket, frame)];
        } else {
          wire := wire + [UdpSend(Source(), session.socket, session.rtpClientPort, frame[PREFIX..])];
        }
      }
    }

    method RtpSendData(ctx: RtpMuxContext, data: seq<byte>, ghost since: Since, ghost done: seq<seq<byte>>)
      requires Valid() && ctx.Valid() && |data| <= MAX && Sent(ctx, since, done)
      modifies this`wire, ctx`bufPtr, ctx`seqno, ctx.cache
      ensures Valid() && ctx.Valid() && ctx.bufPtr == 0
      ensures Sent(ctx, since, done + [data])
    {
      hide SentAt, Datagram, Be16, Lists, DistinctBuffers, DeliverAll;
      SentMore(ctx.seqno, ctx.timestamp, ctx.ssrc, wire, Clients(sessions), Source(), since, done, data);
      ghost var p := ctx.Next(data, false);
      FillCache(ctx, data);
      Deliver(ctx, |data|, p);
      ctx.Finish();
    }

    /** Puts payload bytes behind the three header bytes of an FU packet and sends it. */
    method SendFragment(ctx: RtpMuxContext, chunk: seq<byte>, ghost h: byte, ghost since: Since,
                        ghost done: seq<seq<byte>>)
      requires Valid() && ctx.Valid() && |chunk| + 3 <= MAX && Sent(ctx, since, done)
      requires ctx.buf[0] == 49 << 1 && ctx.buf[1] == 1 && ctx.buf[2] == h
      modifies this`wire, ctx`bufPtr, ctx`seqno, ctx.cache, ctx.buf
      ensures Valid() && ctx.Valid() && ctx.bufPtr == 0
      ensures ctx.buf[0] == 49 << 1 && ctx.buf[1] == 1 && ctx.buf[2] == h
      ensures Sent(ctx, since, done + [[49 << 1, 1, h] + chunk])
    {
      hide SentAt, Lists, DistinctBuffers;
      CopyInto(ctx.buf, 3, chunk);
      assert ctx.buf[..] == old(ctx.buf[..3]) + chunk + old(ctx.buf[3 + |chunk|..]);
      assert ctx.buf[..|chunk| + 3] == [49 << 1, 1, h] + chunk;
      RtpSendData(ctx, ctx.buf[..|chunk| + 3], since, done);
    }

    /** The FU packets that carry `data`, once the three header bytes are in place. */
    method SendFragments(ctx: RtpMuxContext, data: seq<byte>, ghost since: Since, ghost before: seq<seq<byte>>)
      requires Valid() && ctx.Valid() && ctx.bufPtr == 0 && Sent(ctx, since, before)
      requires ctx.buf[0] == 49 << 1 && ctx.buf[1] == 1
      modifies this`wire, ctx`bufPtr, ctx`seqno, ctx.cache, ctx.buf
      ensures Valid() && ctx.Valid() && ctx.bufPtr == 0
      ensures Sent(ctx, since, H265.WithFragments(before, old(ctx.buf[2]), data))
    {
      hide SentAt, Lists, DistinctBuffers, H265.WithFragments;
      ghost var all, done := H265.WithFragments(before, ctx.buf[2], data), before;
      var rest := data;
      while |rest| + 3 > MAX
        invariant Valid() && ctx.Valid() && ctx.bufPtr == 0
        invariant ctx.buf[0] == 49 << 1 && ctx.buf[1] == 1
        invariant Sent(ctx, since, done)
        invariant all == H265.WithFragments(done, ctx.buf[2], rest)
        decreases |rest|
      {
        var h := ctx.buf[2];
        H265.FragmentsMore(done, h, rest);
        SendFragment(ctx, rest[..MAX - 3], h, since, done);
        done := done + [[49 << 1, 1, h] + rest[..MAX - 3]];
        rest := rest[MAX - 3..];
        var cleared := h & 0x7F;
        ctx.buf[2] := cleared;
      }
      var h := ctx.buf[2];
      H265.FragmentsEnd(done, h, rest);
      var ended := h | 0x40;
      ctx.buf[2] := ended;
      SendFragment(ctx, rest, ended, since, done);
    }

    /** The aggregation branch of rtpSendNALH265. */
    method SendAggregated(ctx: RtpMuxContext, nal: Nal, last: bool)
      requires Valid() && ctx.Valid() && ctx.aggregation && |nal| + 4 <= MAX
      modifies this`wire, ctx`bufPtr, ctx`seqno, ctx.cache, ctx.buf
      ensures Valid() && ctx.Valid()
      ensures var step := H265.Send(true, old(ctx.Pending()), nal, last);
        ctx.Pending() == step.pending && Sent(ctx, Since(old(ctx.seqno), old(wire)), step.packets)
    {
      hide SentAt, Lists, DistinctBuffers, Entry;
      ghost var since, pending := Since(ctx.seqno, wire), ctx.Pending();
      ghost var done: seq<seq<byte>> := [];
      NothingSent(ctx.seqno, ctx.timestamp, ctx.ssrc, wire, Clients(sessions), Source());
      var bufferedSize := ctx.bufPtr;
      if bufferedSize != 0 && bufferedSize + 2 + |nal| > MAX {
        RtpSendData(ctx, ctx.buf[..bufferedSize], since, done);
        done := done + [pending];
        bufferedSize := 0;
      }
      Aggregate(ctx, nal, bufferedSize);
      if last {
        ghost var filled := ctx.Pending();
        RtpSendData(ctx, ctx.buf[..ctx.bufPtr], since, done);
        done := done + [filled];
      }
      assert done == H265.Send(true, pending, nal, last).packets;
    }

    method RtpSendNalH265(ctx: RtpMuxContext, nal: Nal, last: bool)
      requires Valid() && ctx.Valid()
      modifies this`wire, ctx`bufPtr, ctx`seqno, ctx.cache, ctx.buf
      ensures Valid() && ctx.Valid()
      ensures var step := H265.Send(ctx.aggregation, old(ctx.Pending()), nal, last);
        ctx.Pending() == step.pending && Sent(ctx, Since(old(ctx.seqno), old(wire)), step.packets)
    {
      hide SentAt, Lists, DistinctBuffers, Entry, H265.Fragments;
      ghost var since, pending := Since(ctx.seqno, wire), ctx.Pending();
      ghost var done: seq<seq<byte>> := [];
      NothingSent(ctx.seqno, ctx.timestamp, ctx.ssrc, wire, Clients(sessions), Source());
      if |nal| <= MAX {
        if ctx.aggregation && |nal| + 4 <= MAX {
          SendAggregated(ctx, nal, last);
        } else {
          RtpSendData(ctx, nal, since, done);
          assert done + [nal] == [nal];
        }
      } else {
        if ctx.bufPtr > 0 {
          RtpSendData(ctx, ctx.buf[..ctx.bufPtr], since, done);
          done := done + [pending];
        }
        assert done == H265.Flushed(pending);
        HeadFragments(ctx, nal[0]);
        SendFragments(ctx, nal[2..], since, done);
      }
    }

    /** addSession: the session's constructor puts it at the end of the list. */
    method AddSession(socket: nat) returns (session: CRtspSession)
      requires Valid()
      modifies this`ring, this`sessions, this`nodes, this`buffers, ring
      ensures Valid() && fresh(session) && fresh(nodes - old(nodes)) && fresh(buffers - old(buffers))
      ensures sessions == old(sessions) + [session]
      ensures session.socket == socket && session.Valid() && session.View() == NewConn()
    {
      LinksInverse(ring, clients);
      session := NewSession(socket);
      DistinctAppend(sessions, session);
      BuffersAppend(sessions, session);
      Traverse(ring, sessions, 0);
      hide Lists, Distinct, DistinctBuffers, NewConn;
      var element := Enlist(session);
      Include(element, session);
    }

    method NewSession(socket: nat) returns (session: CRtspSession)
      requires Valid()
      ensures fresh(session) && fresh(session.recvBuf) && session.socket == socket && session.udp == udp
      ensures session.Valid() && session.View() == NewConn()
      ensures session !in sessions && forall s <- sessions :: s.recvBuf != session.recvBuf
    {
      session := new CRtspSession(socket, udp);
    }

    ghost method Include(element: Element<CRtspSession>, session: CRtspSession)
      requires Lists(ring + [element], sessions + [session]) && ring != [] && ring[0] == clients
      requires Distinct(sessions + [session]) && DistinctBuffers(sessions + [session])
      requires forall e <- ring :: e in nodes
      requires forall s <- sessions :: s.udp == udp && s.recvBuf in buffers && s.Valid()
      requires forall b <- buffers :: b.Length == RTSP_BUFFER_SIZE
      requires session.udp == udp && session.Valid()
      modifies this`ring, this`sessions, this`nodes, this`buffers
      ensures Valid()
      ensures ring == old(ring) + [element] && sessions == old(sessions) + [session]
      ensures nodes == old(nodes) + {element} && buffers == old(buffers) + {session.recvBuf}
    {
      hide Lists, Distinct, DistinctBuffers;
      ring, sessions := ring + [element], sessions + [session];
      nodes, buffers := nodes + {element}, buffers + {session.recvBuf};
    }

    /** The session's list element, placed at the end. */
    method Enlist(session: CRtspSession) returns (element: Element<CRtspSession>)
      requires Lists(ring, sessions) && ring != [] && ring[0] == clients
      modifies clients, clients.prev
      ensures fresh(element) && Lists(ring + [element], sessions + [session])
    {
      LinksInverse(ring, clients);
      element := new Element<CRtspSession>.AtEnd(clients, session, ring);
      ListsAppend(ring, sessions, element, session);
    }

    method AnySessions() returns (any: bool)
      requires Valid()
      ensures any <==> sessions != []
    {
      Traverse(ring, sessions, 0);
      any := clients.NotEmpty();
    }

    /** The session destructor: one user of the transport less, and its element leaves the list. */
    method Delete(element: Element<CRtspSession>, ghost k: nat)
      requires Valid() && k < |sessions| && ring[k + 1] == element
      modifies this`ring, this`sessions, nodes, udp
      ensures Valid()
      ensures ring == old(ring[..k + 1] + ring[k + 2..])
      ensures sessions == old(sessions[..k] + sessions[k + 1..])
      ensures udp.View() == Release(old(udp.View()))
    {
      hide Lists, Distinct, DistinctBuffers;
      Traverse(ring, sessions, k);
      udp.ReleaseUdpTransport();
      Unlist(element, k);
      DistinctRemove(sessions, k);
      BuffersRemove(sessions, k);
      ring := ring[..k + 1] + ring[k + 2..];
      sessions := sessions[..k] + sessions[k + 1..];
    }

    method Unlist(element: Element<CRtspSession>, ghost k: nat)
      requires Lists(ring, sessions) && (forall e <- ring :: e in nodes)
      requires k < |sessions| && |ring| == |sessions| + 1 && ring[k + 1] == element
      modifies nodes
      ensures Lists(ring[..k + 1] + ring[k + 2..], sessions[..k] + sessions[k + 1..])
      ensures ring[..k + 1] + ring[k + 2..] != [] && (ring[..k + 1] + ring[k + 2..])[0] == ring[0]
    {
      hide Distinct;
      LinksInverse(ring, element);
      element.Unlink(ring, k + 1);
      hide Next, IsRing;
      ListsRemove(ring, sessions, k);
    }

    /** One call in the course of a sweep over the sessions ss. */
    method CallSession(ghost ss: seq<CRtspSession>, ghost cs: seq<Conn>, ghost rs: seq<Read>, ghost i: nat,
                       session: CRtspSession, read: Read, free: nat -> bool)
        returns (ret: bool, stuck: bool, reply: Option<Reply>)
      requires Valid() && session in sessions && forall s <- sessions :: s in ss
      requires |ss| == |cs| == |rs| && i < |ss| && session == ss[i] && read == rs[i]
      requires Distinct(ss) && DistinctBuffers(ss) && Visited(ss, cs, rs, i) && AllCanRead(cs, rs)
      modifies session, session.recvBuf, udp
      ensures Valid() && Visited(ss, cs, rs, i + 1)
      ensures var step := OneRead(cs[i], rs[i]);
        && ret == step.ret && stuck == step.stuck && reply == step.reply && session.stopped == step.conn.stopped
        && udp.View() == UdpAfter(old(udp.View()), step.initUdp, free)
    {
      hide Lists, Distinct, DistinctBuffers, OneRead, AllCanRead, Visited, UdpAfter;
      ret, stuck, reply := Visit(ss, cs, rs, i, session, read, free);
      VisitedValid(ss, cs, rs, i + 1);
    }

    /** The sweep has visited the first i of the sessions ss and deleted the stopped ones among them; it stands at
        an element. */
    ghost predicate Sweeping(es: seq<Element<CRtspSession>>, ss: seq<CRtspSession>, cs: seq<Conn>, rs: seq<Read>,
                             i: nat, element: Element<CRtspSession>)
      requires |ss| == |cs| == |rs|
      reads this`ring, this`sessions, ss, set s <- ss :: s.recvBuf
    {
      && i <= |ss| && Distinct(ss) && DistinctBuffers(ss) && AllCanRead(cs, rs)
      && InSweep(ring, sessions, clients, es, ss, Gone(Steps(cs, rs)), i)
      && SweepIndex(ss, Gone(Steps(cs, rs)), i) < |ring|
      && element == At(ring, SweepIndex(ss, Gone(Steps(cs, rs)), i))
      && Visited(ss, cs, rs, i)
    }

    lemma StartSweep(cs: seq<Conn>, rs: seq<Read>)
      requires Valid() && cs == Views(sessions) && |rs| == |cs| && AllCanRead(cs, rs)
      ensures Sweeping(ring[1..], sessions, cs, rs, 0, clients.next)
    {
      hide OneRead, AllCanRead, InSweep, Visited, Steps, Gone;
      Traverse(ring, sessions, 0);
      assert [clients] + ring[1..] == ring;
      VisitedStart(sessions, cs, rs);
      SweepStart(ring, sessions, Gone(Steps(cs, rs)));
    }

    lemma {:induction false} SweepingAt(es: seq<Element<CRtspSession>>, ss: seq<CRtspSession>, cs: seq<Conn>,
                                        rs: seq<Read>, i: nat, element: Element<CRtspSession>)
      requires Valid() && |ss| == |cs| == |rs| && Sweeping(es, ss, cs, rs, i, element)
      ensures element == clients <==> i == |ss|
      ensures i == |ss| ==>
        && ring == [clients] + Kept(es, Gone(Steps(cs, rs))) && sessions == Kept(ss, Gone(Steps(cs, rs)))
        && Visited(ss, cs, rs, i)
    {
      hide Lists, Distinct, DistinctBuffers, OneRead, AllCanRead, InSweep, Visited, Steps, Gone, Kept;
      ghost var gone := Gone(Steps(cs, rs));
      SweepAt(ring, sessions, clients, es, ss, gone, i);
      Traverse(ring, sessions, SweepIndex(ss, gone, i));
      if i == |ss| {
        SweepDone(ring, sessions, clients, es, ss, gone);
      }
    }

    /** One turn of the sweep. What the session replies goes out before anything else happens. */
    method Turn(ghost es: seq<Element<CRtspSession>>, ghost ss: seq<CRtspSession>, ghost cs: seq<Conn>,
                ghost rs: seq<Read>, ghost i: nat, element: Element<CRtspSession>, read: Read, words: PlainWords,
                free: nat -> bool)
        returns (ret: bool, stuck: bool, next: Element<CRtspSession>)
      requires |ss| == |cs| == |rs| && i < |ss| && read == rs[i]
      requires Valid() && Sweeping(es, ss, cs, rs, i, element)
      requires (forall s <- ss :: s.recvBuf in buffers)
      modifies this`ring, this`sessions, this`wire, nodes, ss, buffers, udp
      ensures var step := Steps(cs, rs)[i];
        && ret == step.ret && stuck == step.stuck
        && wire == old(wire) + ReplySent(ss[i].socket, step.reply, Posted(words, old(udp.View()), step, free))
        && (!stuck ==>
          && Valid() && Sweeping(es, ss, cs, rs, i + 1, next)
          && udp.View() == Stepped(old(udp.View()), step, free))
    {
      hide Lists, Distinct, DistinctBuffers, OneRead, AllCanRead, InSweep, Visited, Steps, Gone, Kept;
      hide UdpAfter, ReplySent;
      ghost var gone := Gone(Steps(cs, rs));
      ghost var k := SweepIndex(ss, gone, i);
      SweepAt(ring, sessions, clients, es, ss, gone, i);
      Traverse(ring, sessions, k);
      var session := element.content.value;
      var reply;
      ret, stuck, reply := CallSession(ss, cs, rs, i, session, read, free);
      ghost var u := udp.View();
      wire := wire + ReplySent(session.socket, reply,
                               words.(serverRtp := udp.rtpServerPort, serverRtcp := udp.rtcpServerPort));
      next := element.next;
      if stuck {
        return;
      }
      if session.stopped {
        SweepDrop(ring, sessions, clients, es, ss, gone, i);
        Delete(element, k);
      } else {
        SweepStay(ring, sessions, clients, es, ss, gone, i);
      }
    }

    /** One sweep: every session is called once, in order, with what its socket delivers, and those that are then
        stopped are deleted on the way. */
    method HandleRequests(ghost ss: seq<CRtspSession>, ghost cs: seq<Conn>, rs: seq<Read>, words: nat -> PlainWords,
                          free: nat -> bool)
        returns (ret: bool, stuck: bool)
      requires Valid() && ss == sessions && cs == Views(ss) && |rs| == |cs| && AllCanRead(cs, rs)
      modifies this`ring, this`sessions, this`wire, nodes, ss, buffers, udp
      ensures stuck == Together(Steps(cs, rs)).stuck
      ensures !stuck ==> Valid() && Visited(ss, cs, rs, |ss|)
      ensures !stuck ==> ring == [clients] + Kept(old(ring[1..]), Gone(Steps(cs, rs)))
      ensures !stuck ==> sessions == Kept(ss, Gone(Steps(cs, rs)))
      ensures !stuck ==> wire == old(wire) + AllSent(ss, Steps(cs, rs), words, old(udp.View()), free)
      ensures !stuck ==> ret == Together(Steps(cs, rs)).ret
      ensures !stuck ==> udp.View() == AllStepped(old(udp.View()), Steps(cs, rs), free)
    {
      hide Lists, Distinct, DistinctBuffers, OneRead, AllCanRead, Visited, Sweeping, Kept;
      hide Together, Gone, AllSent, Stepped, AllStepped;
      hide Views, Clients, InSweep, IsRing, Next, At, SweepIndex, CRtspSession.Valid, CRtspSession.View;
      Traverse(ring, sessions, 0);
      ghost var es, steps := ring[1..], Steps(cs, rs);
      StartSweep(cs, rs);
      hide Steps;
      NoneTogether(ss, steps, words, udp.View(), free);
      var element := clients.next;
      ret, stuck := true, false;
      ghost var u, sent := udp.View(), wire;
      var i := 0;
      while element != clients
        invariant 0 <= i <= |ss| && Valid() && !stuck
        invariant Sweeping(es, ss, cs, rs, i, element)
        invariant Together(steps[..i]) == Outcome(ret, false)
        invariant udp.View() == AllStepped(u, steps[..i], free)
        invariant wire == sent + AllSent(ss[..i], steps[..i], words, u, free)
        decreases |ss| - i
      {
        SweepingAt(es, ss, cs, rs, i, element);
        var r;
        r, stuck, element := Turn(es, ss, cs, rs, i, element, rs[i], words(i), free);
        if stuck {
          AllTogether(steps);
          return;
        }
        ret := ret && r;
        OneMore(ss, steps, words, u, free, i);
        Associative(sent, AllSent(ss[..i], steps[..i], words, u, free),
                    ReplySent(ss[i].socket, steps[i].reply,
                              Posted(words(i), AllStepped(u, steps[..i], free), steps[i], free)));
        i := i + 1;
      }
      SweepingAt(es, ss, cs, rs, i, element);
      assert steps[..i] == steps && ss[..i] == ss;
    }
  }

  // ----- the sweep over sessions

  /** Up to i the sessions have been called once each, from i on not at all. */
  ghost predicate Visited(sessions: seq<CRtspSession>, cs: seq<Conn>, rs: seq<Read>, i: nat)
    requires |sessions| == |cs| == |rs|
    reads sessions, set s <- sessions :: s.recvBuf
  {
    forall j :: 0 <= j < |sessions| ==>
      && sessions[j].Valid()
      && sessions[j].View() == if j < i then OneRead(cs[j], rs[j]).conn else cs[j]
  }

  lemma VisitedStart(sessions: seq<CRtspSession>, cs: seq<Conn>, rs: seq<Read>)
    requires |sessions| == |cs| == |rs|
    requires forall j :: 0 <= j < |sessions| ==> sessions[j].Valid() && sessions[j].View() == cs[j]
    ensures Visited(sessions, cs, rs, 0)
  {
    hide OneRead;
  }

  lemma VisitedValid(sessions: seq<CRtspSession>, cs: seq<Conn>, rs: seq<Read>, i: nat)
    requires |sessions| == |cs| == |rs| && Visited(sessions, cs, rs, i)
    ensures forall s <- sessions :: s.Valid()
  {
    hide OneRead;
  }

  lemma {:induction false} VisitedEnd(sessions: seq<CRtspSession>, cs: seq<Conn>, rs: seq<Read>)
    requires |sessions| == |cs| == |rs| && Visited(sessions, cs, rs, |sessions|)
    ensures forall i :: 0 <= i < |cs| ==> sessions[i].Valid() && sessions[i].View() == Steps(cs, rs)[i].conn
  {
    hide OneRead;
  }

  /** What the calls of a sweep add up to. */
  datatype Outcome = Outcome(ret: bool, stuck: bool)

  function Together(steps: seq<Step>): Outcome {
    if steps == [] then Outcome(true, false) else
      var sofar, step := Together(steps[..|steps| - 1]), steps[|steps| - 1];
      Outcome(sofar.ret && step.ret, sofar.stuck || step.stuck)
  }

  /** What a call, and the deletion that may follow it, do to the UDP transport. */
  function Stepped(u: Udp, step: Step, free: nat -> bool): Udp {
    var v := UdpAfter(u, step.initUdp, free);
    if step.conn.stopped then Release(v) else v
  }

  function AllStepped(u: Udp, steps: seq<Step>, free: nat -> bool): Udp {
    if steps == [] then u else
      Stepped(AllStepped(u, steps[..|steps| - 1], free), steps[|steps| - 1], free)
  }

  /** What happens to the transport in a sweep over sessions with these numbers. */
  function EventsOf(ids: seq<nat>, steps: seq<Step>): seq<Event>
    requires |ids| == |steps|
  {
    if steps == [] then [] else
      var n := |steps| - 1;
      EventsOf(ids[..n], steps[..n]) + (if steps[n].initUdp then [SetUp(ids[n])] else [])
        + (if steps[n].conn.stopped then [Destroy(ids[n])] else [])
  }

  lemma {:induction false} EventAdded(u: Udp, es: seq<Event>, e: Event, free: nat -> (nat -> bool))
    ensures var v := AfterEvents(u, es, free);
      AfterEvents(u, es + [e], free) == if e.SetUp? then Init(v, free(|es|)) else Release(v)
  {
    assert (es + [e])[..|es|] == es;
  }

  /** A sweep carries on the history of the transport: whatever sweeps there have been, and additions of sessions, which
      leave it alone, its state is that after their events, one after the other. */
  lemma {:induction false} SweepIsEvents(u: Udp, es: seq<Event>, ids: seq<nat>, steps: seq<Step>,
                                         frees: nat -> (nat -> bool), free: nat -> bool)
    requires |ids| == |steps| && forall i: nat :: i >= |es| ==> frees(i) == free
    ensures AfterEvents(u, es + EventsOf(ids, steps), frees) == AllStepped(AfterEvents(u, es, frees), steps, free)
  {
    hide AfterEvents, Init, Release;
    if steps == [] {
      assert es + EventsOf(ids, steps) == es;
    } else {
      var n := |steps| - 1;
      SweepIsEvents(u, es, ids[..n], steps[..n], frees, free);
      var a := EventsOf(ids[..n], steps[..n]);
      var b := if steps[n].initUdp then [SetUp(ids[n])] else [];
      var c := if steps[n].conn.stopped then [Destroy(ids[n])] else [];
      hide EventsOf;
      Associative(es, a, b);
      Associative(es, a + b, c);
      if steps[n].initUdp { EventAdded(u, es + a, SetUp(ids[n]), frees); } else { assert es + a + b == es + a; }
      if steps[n].conn.stopped {
        EventAdded(u, es + a + b, Destroy(ids[n]), frees);
      } else {
        assert es + a + b + c == es + a + b;
      }
    }
  }

  /** What a call writes to the session's socket. */
  function ReplySent(socket: nat, reply: Option<Reply>, w: PlainWords): seq<Sent> {
    if reply.None? then [] else [ReplySend(socket, reply.value, w)]
  }

  /** The words of a reply, with the ports that the streamer has after the call. */
  function Posted(w: PlainWords, u: Udp, step: Step, free: nat -> bool): PlainWords {
    var v := UdpAfter(u, step.initUdp, free);
    w.(serverRtp := v.rtpPort, serverRtcp := v.rtcpPort)
  }

  /** What the calls of a sweep write, the transport being u before it. */
  function AllSent(ss: seq<CRtspSession>, steps: seq<Step>, words: nat -> PlainWords, u: Udp, free: nat -> bool)
    : seq<Sent>
    requires |ss| == |steps|
  {
    if ss == [] then [] else
      var n := |ss| - 1;
      AllSent(ss[..n], steps[..n], words, u, free)
        + ReplySent(ss[n].socket, steps[n].reply, Posted(words(n), AllStepped(u, steps[..n], free), steps[n], free))
  }

  lemma {:induction false} NoneTogether(ss: seq<CRtspSession>, steps: seq<Step>, words: nat -> PlainWords, u: Udp,
                                        free: nat -> bool)
    requires |ss| == |steps|
    ensures Together(steps[..0]) == Outcome(true, false) && AllSent(ss[..0], steps[..0], words, u, free) == []
    ensures AllStepped(u, steps[..0], free) == u
  {
  }

  lemma {:induction false} OneMore(ss: seq<CRtspSession>, steps: seq<Step>, words: nat -> PlainWords, u: Udp,
                                   free: nat -> bool, i: nat)
    requires i < |steps| == |ss|
    ensures AllSent(ss[..i + 1], steps[..i + 1], words, u, free)
      == AllSent(ss[..i], steps[..i], words, u, free)
        + ReplySent(ss[i].socket, steps[i].reply, Posted(words(i), AllStepped(u, steps[..i], free), steps[i], free))
    ensures AllStepped(u, steps[..i + 1], free) == Stepped(AllStepped(u, steps[..i], free), steps[i], free)
    ensures var sofar, step := Together(steps[..i]), steps[i];
      Together(steps[..i + 1]) == Outcome(sofar.ret && step.ret, sofar.stuck || step.stuck)
  {
    hide ReplySent, Stepped, Posted;
    assert steps[..i + 1][..i] == steps[..i] && ss[..i + 1][..i] == ss[..i];
  }

  lemma {:induction false} AllTogether(steps: seq<Step>)
    ensures Together(steps).ret <==> forall step <- steps :: step.ret
    ensures Together(steps).stuck <==> exists step <- steps :: step.stuck
  {
    if steps != [] {
      var n := |steps| - 1;
      AllTogether(steps[..n]);
      assert forall step :: step in steps <==> step in steps[..n] || step == steps[n];
    }
  }

  /** One call in the course of a sweep. */
  method Visit(ghost sessions: seq<CRtspSession>, ghost cs: seq<Conn>, ghost rs: seq<Read>, ghost i: nat,
               session: CRtspSession, read: Read, free: nat -> bool)
      returns (ret: bool, stuck: bool, reply: Option<Reply>)
    requires |sessions| == |cs| == |rs| && i < |sessions| && session == sessions[i] && read == rs[i]
    requires Distinct(sessions) && DistinctBuffers(sessions) && Visited(sessions, cs, rs, i)
    requires AllCanRead(cs, rs)
    modifies session, session.recvBuf, session.udp
    ensures Visited(sessions, cs, rs, i + 1)
    ensures var step := OneRead(cs[i], rs[i]);
      && ret == step.ret && stuck == step.stuck && reply == step.reply && session.stopped == step.conn.stopped
      && session.udp.View() == UdpAfter(old(session.udp.View()), step.initUdp, free)
  {
    hide OneRead, CanRead, UdpAfter;
    assert session.View() == cs[i];
    ret, stuck, reply := session.HandleRequests(read, free);
    assert session.View() == OneRead(cs[i], rs[i]).conn;
    forall j | 0 <= j < |sessions| && j != i
      ensures sessions[j].Valid() && sessions[j].View() == old(sessions[j].View())
    {
      assert sessions[j] != session && sessions[j].recvBuf != session.recvBuf;
    }
  }

  /** The replies written to one socket. */
  function RepliesTo(log: seq<Sent>, socket: nat): seq<(Reply, PlainWords)> {
    if log == [] then [] else
      (if log[0].ReplySend? && log[0].socket == socket then [(log[0].reply, log[0].words)] else [])
        + RepliesTo(log[1..], socket)
  }

  lemma {:induction false} RepliesAppend(a: seq<Sent>, b: seq<Sent>, socket: nat)
    ensures RepliesTo(a + b, socket) == RepliesTo(a, socket) + RepliesTo(b, socket)
  {
    if a == [] {
      assert a + b == b;
    } else {
      RepliesAppend(a[1..], b, socket);
      HeadTail(a, b);
      var first := if a[0].ReplySend? && a[0].socket == socket then [(a[0].reply, a[0].words)] else [];
      Associative(first, RepliesTo(a[1..], socket), RepliesTo(b, socket));
    }
  }

  lemma {:induction false} NoReplyTo(ss: seq<CRtspSession>, steps: seq<Step>, words: nat -> PlainWords, u: Udp,
                                     free: nat -> bool, socket: nat)
    requires |ss| == |steps| && forall s <- ss :: s.socket != socket
    ensures RepliesTo(AllSent(ss, steps, words, u, free), socket) == []
  {
    hide Posted, AllStepped;
    if ss != [] {
      var n := |ss| - 1;
      NoReplyTo(ss[..n], steps[..n], words, u, free, socket);
      RepliesAppend(AllSent(ss[..n], steps[..n], words, u, free),
                    ReplySent(ss[n].socket, steps[n].reply,
                              Posted(words(n), AllStepped(u, steps[..n], free), steps[n], free)), socket);
    }
  }

  /** In a sweep each connection gets its own session's reply, if there is one, and no other. */
  lemma {:induction false} OwnReply(ss: seq<CRtspSession>, steps: seq<Step>, words: nat -> PlainWords, u: Udp,
                                    free: nat -> bool, i: nat)
    requires |ss| == |steps| && i < |ss| && forall j, k :: 0 <= j < k < |ss| ==> ss[j].socket != ss[k].socket
    ensures RepliesTo(AllSent(ss, steps, words, u, free), ss[i].socket) ==
      if steps[i].reply.None? then [] else
        [(steps[i].reply.value, Posted(words(i), AllStepped(u, steps[..i], free), steps[i], free))]
  {
    hide Posted, AllStepped, RepliesTo, ReplySent;
    var n := |ss| - 1;
    var before := AllSent(ss[..n], steps[..n], words, u, free);
    var w := Posted(words(n), AllStepped(u, steps[..n], free), steps[n], free);
    assert AllSent(ss, steps, words, u, free) == before + ReplySent(ss[n].socket, steps[n].reply, w);
    RepliesAppend(before, ReplySent(ss[n].socket, steps[n].reply, w), ss[i].socket);
    OneReply(ss[n].socket, steps[n].reply, w, ss[i].socket);
    hide AllSent;
    if i == n {
      NoReplyTo(ss[..n], steps[..n], words, u, free, ss[i].socket);
    } else {
      OwnReply(ss[..n], steps[..n], words, u, free, i);
      assert steps[..n][..i] == steps[..i];
    }
  }

  lemma {:induction false} OneReply(socket: nat, reply: Option<Reply>, w: PlainWords, to: nat)
    ensures RepliesTo(ReplySent(socket, reply, w), to) == if reply.Some? && socket == to then [(reply.value, w)] else []
  {
    var log := ReplySent(socket, reply, w);
    if log != [] { assert log[1..] == []; }
  }

  function Views(sessions: seq<CRtspSession>): (cs: seq<Conn>)
    requires forall s <- sessions :: s.Valid()
    reads sessions, set s <- sessions :: s.recvBuf
    ensures |cs| == |sessions|
    ensures forall i :: 0 <= i < |cs| ==> cs[i] == sessions[i].View()
  {
    if sessions == [] then [] else [sessions[0].View()] + Views(sessions[1..])
  }

  predicate AllCanRead(cs: seq<Conn>, rs: seq<Read>)
    requires |cs| == |rs|
  {
    forall i :: 0 <= i < |cs| ==> CanRead(cs[i], rs[i])
  }

  /** What the calls of one sweep do, session by session. */
  function Steps(cs: seq<Conn>, rs: seq<Read>): (steps: seq<Step>)
    requires |cs| == |rs|
    ensures |steps| == |cs|
    ensures forall i :: 0 <= i < |cs| ==> steps[i] == OneRead(cs[i], rs[i])
  {
    if cs == [] then [] else [OneRead(cs[0], rs[0])] + Steps(cs[1..], rs[1..])
  }

  function Gone(steps: seq<Step>): (gone: seq<bool>)
    ensures |gone| == |steps| && forall i :: 0 <= i < |steps| ==> gone[i] == steps[i].conn.stopped
  {
    if steps == [] then [] else [steps[0].conn.stopped] + Gone(steps[1..])
  }

  /** The payload header and the first FU header of a fragmented unit. */
  method HeadFragments(ctx: RtpMuxContext, first: byte)
    requires ctx.Valid()
    modifies ctx.buf
    ensures ctx.buf[0] == 49 << 1 && ctx.buf[1] == 1 && ctx.buf[2] == H265.TypeOf(first) | 0x80
  {
    var fuHeader := ((first >> 1) & 0x3F) | (1 << 7);
    ctx.buf[0] := 49 << 1;
    ctx.buf[1] := 1;
    ctx.buf[2] := fuHeader;
  }

  /** A unit is put into the aggregation packet, a new one if there is none. */
  method Aggregate(ctx: RtpMuxContext, nal: Nal, bufferedSize: nat)
    requires ctx.Valid() && bufferedSize == ctx.bufPtr
    requires (if bufferedSize == 0 then 2 else bufferedSize) + 2 + |nal| <= MAX
    modifies ctx`bufPtr, ctx.buf
    ensures ctx.Valid()
    ensures ctx.Pending() == (if bufferedSize == 0 then H265.AP_HEADER else old(ctx.Pending())) + Entry(nal)
  {
    hide Entry;
    if bufferedSize == 0 {
      ctx.buf[0] := 48 << 1;
      ctx.buf[1] := 1;
      ctx.bufPtr := ctx.bufPtr + 2;
      assert ctx.Pending() == H265.AP_HEADER;
    }
    ctx.AppendEntry(nal);
  }

  /** The first part of rtpSendData: prefix, header and payload into the cache. */
  method FillCache(ctx: RtpMuxContext, data: seq<byte>)
    requires ctx.Valid() && |data| <= MAX
    modifies ctx.cache
    ensures ctx.cache[..PREFIX + HEADER + |data|] == Frame(ctx.Next(data, false))
  {
    hide Datagram, Be16;
    WritePrefix(ctx, |data|);
    ctx.WritePacket(PREFIX, data, false);
    var n := PREFIX + HEADER + |data|;
    assert ctx.cache[..n] == ctx.cache[..PREFIX] + ctx.cache[PREFIX..n];
  }

  lemma FrameHoldsDatagram(p: Packet)
    requires p.Fits()
    ensures Frame(p)[PREFIX..] == Datagram(p)
  {
  }

  /** The four bytes in front of an interleaved packet. */
  method WritePrefix(ctx: RtpMuxContext, len: nat)
    requires ctx.Valid() && len + HEADER < 0x1_0000
    modifies ctx.cache
    ensures ctx.cache[..PREFIX] == [0x24, 0] + Be16(len + HEADER)
  {
    hide Byte, Val;
    ctx.cache[0] := '$' as int as byte;
    ctx.cache[1] := 0;
    var high, low := Byte((len + HEADER) / 256), Byte((len + HEADER) % 256);
    ctx.cache[2] := high;
    ctx.cache[3] := low;
  }
}
