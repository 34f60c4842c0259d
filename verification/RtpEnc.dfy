/** The UDP sender of src/RTPEnc.cpp: the NAL senders and the drivers that walk an Annex B stream. */
module RtpEnc {
  import opened AnnexB
  import opened Bytes
  import opened Rtp
  import opened RtpContext
  import opened Sequences
  import opened StartCode
  import opened Units
  import opened Wrappers
  import H264

  /** The socket behind udpSend, with the datagrams handed to it so far. */
  class UdpContext {
    var sent: seq<seq<byte>>

    constructor ()
      ensures sent == []
    {
      sent := [];
    }
  }

  /** The datagrams of what the calls of one NAL emit. */
  function Emitted(seqno: nat, timestamp: nat, ssrc: nat, outs: seq<Outgoing>): (ds: seq<seq<byte>>)
    requires timestamp < 0x1_0000_0000 && ssrc < 0x1_0000_0000 && Small(outs)
    ensures |ds| == |outs|
  {
    Datagrams(Numbered(seqno, timestamp, ssrc, outs))
  }

  lemma EmittedAppend(seqno: nat, timestamp: nat, ssrc: nat, outs: seq<Outgoing>, more: seq<Outgoing>)
    requires timestamp < 0x1_0000_0000 && ssrc < 0x1_0000_0000 && Small(outs) && Small(more)
    ensures Small(outs + more)
    ensures Emitted(seqno, timestamp, ssrc, outs + more)
         == Emitted(seqno, timestamp, ssrc, outs) + Emitted((seqno + |outs|) % 0x1_0000, timestamp, ssrc, more)
    ensures ((seqno + |outs|) % 0x1_0000 + |more|) % 0x1_0000 == (seqno + |outs + more|) % 0x1_0000
  {
    hide Datagrams;
    ModAdd(seqno + |outs|, |more|);
    NumberedAppend(seqno, timestamp, ssrc, outs, more);
    DatagramsAppend(Numbered(seqno, timestamp, ssrc, outs),
                    Numbered((seqno + |outs|) % 0x1_0000, timestamp, ssrc, more));
  }

  lemma EmittedNothing(seqno: nat, timestamp: nat, ssrc: nat)
    requires timestamp < 0x1_0000_0000 && ssrc < 0x1_0000_0000
    ensures Emitted(seqno, timestamp, ssrc, []) == []
  {
  }

  lemma EmittedOne(seqno: nat, timestamp: nat, ssrc: nat, o: Outgoing)
    requires seqno < 0x1_0000 && timestamp < 0x1_0000_0000 && ssrc < 0x1_0000_0000 && |o.payload| <= MAX
    ensures Emitted(seqno, timestamp, ssrc, [o]) == [Datagram(Packet(o.marker, seqno, timestamp, ssrc, o.payload))]
  {
    hide Datagram;
    var p := Packet(o.marker, seqno, timestamp, ssrc, o.payload);
    assert Numbered(seqno, timestamp, ssrc, [o]) == [p];
    assert Datagrams([p]) == [Datagram(p)];
  }

  /** Where a run of sends started: the number of its first packet and what was on the wire before it. */
  datatype Since = Since(seqno: nat, sent: seq<seq<byte>>)

  /** The payloads that have gone on the wire since then, for a context and a wire in the given condition. */
  ghost predicate SentAt(seqno: nat, timestamp: nat, ssrc: nat, wire: seq<seq<byte>>, since: Since,
                         outs: seq<Outgoing>)
  {
    && timestamp < 0x1_0000_0000 && ssrc < 0x1_0000_0000 && Small(outs)
    && seqno == (since.seqno + |outs|) % 0x1_0000
    && wire == since.sent + Emitted(since.seqno, timestamp, ssrc, outs)
  }

  ghost predicate Sent(ctx: RtpMuxContext, udp: UdpContext, since: Since, outs: seq<Outgoing>)
    reads ctx`seqno, ctx`timestamp, ctx`ssrc, udp
  {
    SentAt(ctx.seqno, ctx.timestamp, ctx.ssrc, udp.sent, since, outs)
  }

  lemma NothingSent(seqno: nat, timestamp: nat, ssrc: nat, wire: seq<seq<byte>>)
    requires seqno < 0x1_0000 && timestamp < 0x1_0000_0000 && ssrc < 0x1_0000_0000
    ensures SentAt(seqno, timestamp, ssrc, wire, Since(seqno, wire), [])
  {
    EmittedNothing(seqno, timestamp, ssrc);
  }

  lemma SentMore(seqno: nat, timestamp: nat, ssrc: nat, wire: seq<seq<byte>>,
                 since: Since, outs: seq<Outgoing>, o: Outgoing)
    requires SentAt(seqno, timestamp, ssrc, wire, since, outs) && |o.payload| <= MAX
    ensures SentAt((seqno + 1) % 0x1_0000, timestamp, ssrc,
                   wire + [Datagram(Packet(o.marker, seqno, timestamp, ssrc, o.payload))], since, outs + [o])
  {
    EmittedAppend(since.seqno, timestamp, ssrc, outs, [o]);
    EmittedOne(seqno, timestamp, ssrc, o);
    Associative(since.sent, Emitted(since.seqno, timestamp, ssrc, outs), Emitted(seqno, timestamp, ssrc, [o]));
  }

  method RtpSendData(ctx: RtpMuxContext, udp: UdpContext, data: seq<byte>, mark: bool,
                     ghost since: Since, ghost done: seq<Outgoing>)
    requires ctx.Valid() && |data| <= MAX && Sent(ctx, udp, since, done)
    modifies ctx`bufPtr, ctx`seqno, ctx.cache, udp
    ensures ctx.Valid() && ctx.bufPtr == 0
    ensures Sent(ctx, udp, since, done + [Outgoing(data, mark)])
  {
    hide SentAt, Datagram;
    SentMore(ctx.seqno, ctx.timestamp, ctx.ssrc, udp.sent, since, done, Outgoing(data, mark));
    ctx.WritePacket(0, data, mark);
    assert ctx.cache[..HEADER + |data|] == ctx.cache[0..HEADER + |data|];
    udp.sent := udp.sent + [ctx.cache[..HEADER + |data|]];
    ctx.Finish();
  }

  /** Puts payload bytes behind the two header bytes of an FU-A packet and sends it. */
  method SendFragmentH264(ctx: RtpMuxContext, udp: UdpContext, chunk: seq<byte>, mark: bool,
                          ghost ind: byte, ghost h: byte, ghost since: Since, ghost done: seq<Outgoing>)
    requires ctx.Valid() && |chunk| + 2 <= MAX && Sent(ctx, udp, since, done)
    requires ctx.buf[0] == ind && ctx.buf[1] == h
    modifies ctx`bufPtr, ctx`seqno, ctx.cache, ctx.buf, udp
    ensures ctx.Valid() && ctx.bufPtr == 0 && ctx.buf[0] == ind && ctx.buf[1] == h
    ensures Sent(ctx, udp, since, done + [Outgoing([ind, h] + chunk, mark)])
  {
    hide SentAt;
    CopyInto(ctx.buf, 2, chunk);
    assert ctx.buf[..] == old(ctx.buf[..2]) + chunk + old(ctx.buf[2 + |chunk|..]);
    assert ctx.buf[..|chunk| + 2] == [ind, h] + chunk;
    RtpSendData(ctx, udp, ctx.buf[..|chunk| + 2], mark, since, done);
  }

  /** The FU-A packets that carry `data`, once the two header bytes are in place. */
  method SendFragmentsH264(ctx: RtpMuxContext, udp: UdpContext, data: seq<byte>, last: bool,
                           ghost since: Since, ghost before: seq<Outgoing>)
    requires ctx.Valid() && ctx.bufPtr == 0 && Sent(ctx, udp, since, before)
    modifies ctx`bufPtr, ctx`seqno, ctx.cache, ctx.buf, udp
    ensures ctx.Valid() && ctx.bufPtr == 0
    ensures Sent(ctx, udp, since, H264.WithFragments(before, old(ctx.buf[0]), old(ctx.buf[1]), data, last))
  {
    hide SentAt, H264.WithFragments;
    ghost var ind, done := ctx.buf[0], before;
    ghost var all := H264.WithFragments(done, ind, ctx.buf[1], data, last);
    var rest := data;
    while |rest| + 2 > MAX
      invariant ctx.Valid() && ctx.bufPtr == 0 && ctx.buf[0] == ind
      invariant Sent(ctx, udp, since, done)
      invariant all == H264.WithFragments(done, ind, ctx.buf[1], rest, last)
      decreases |rest|
    {
      var h := ctx.buf[1];
      H264.FragmentsMore(done, ind, h, rest, last);
      SendFragmentH264(ctx, udp, rest[..MAX - 2], false, ind, h, since, done);
      done := done + [Outgoing([ind, h] + rest[..MAX - 2], false)];
      rest := rest[MAX - 2..];
      var started := h & 0x7F;
      ctx.buf[1] := started;
    }
    var h := ctx.buf[1];
    H264.FragmentsEnd(done, ind, h, rest, last);
    var ended := h | 0x40;
    ctx.buf[1] := ended;
    SendFragmentH264(ctx, udp, rest, last, ind, ended, since, done);
  }

  /** The FU-A packets of one unit. */
  method RtpSendFragmentsH264(ctx: RtpMuxContext, udp: UdpContext, nal: Nal, last: bool,
                              ghost since: Since, ghost before: seq<Outgoing>)
    requires ctx.Valid() && ctx.bufPtr == 0 && |nal| > MAX && Sent(ctx, udp, since, before)
    modifies ctx`bufPtr, ctx`seqno, ctx.cache, ctx.buf, udp
    ensures ctx.Valid() && ctx.bufPtr == 0
    ensures Sent(ctx, udp, since, before + H264.FragmentNal(nal, last))
  {
    hide SentAt, H264.Fragments;
    var indicator, header := 28 | (nal[0] & 0x60), (nal[0] & 0x1F) | (1 << 7);
    ctx.buf[0] := indicator;
    ctx.buf[1] := header;
    SendFragmentsH264(ctx, udp, nal[1..], last, since, before);
  }

  /** Opens a STAP-A packet for a unit starting with `first`, or has the open one's header take account of it. */
  method HeadAggregateH264(ctx: RtpMuxContext, first: byte)
    requires ctx.Valid() && ctx.bufPtr < MAX
    modifies ctx`bufPtr, ctx.buf
    ensures ctx.Valid() && ctx.Pending() == H264.Headed(old(ctx.Pending()), first)
  {
    hide H264.NriOf, H264.FOf, H264.JoinHeader;
    var header := SummaryHeader(ctx.bufPtr == 0, ctx.buf[0], first);
    if ctx.bufPtr == 0 {
      ctx.bufPtr := ctx.bufPtr + 1;
    }
    ctx.buf[0] := header;
  }

  /** The STAP-A header: NRI is the maximum, F the OR, of what it was and what the unit has. */
  method SummaryHeader(empty: bool, was: byte, first: byte) returns (header: byte)
    ensures header == if empty then (24 | H264.NriOf(first)) | H264.FOf(first) else H264.JoinHeader(was, first)
    ensures H264.TypeOf(header) == if empty then 24 else H264.TypeOf(was)
    ensures H264.NriOf(header) ==
      if empty || H264.NriOf(first) > H264.NriOf(was) then H264.NriOf(first) else H264.NriOf(was)
    ensures H264.FOf(header) != 0 <==> H264.FOf(first) != 0 || (!empty && H264.FOf(was) != 0)
  {
    H264.JoinHeaderBits(was, first);
    H264.FirstHeaderBits(first);
    var curNri := first & 0x60;
    if empty {
      header := 24 | curNri;
    } else {
      header := was;
      var lastNri := header & 0x60;
      if curNri > lastNri {
        header := (header & 0x9F) | curNri;
      }
    }
    header := header | (first & 0x80);
    assert header == if empty then (24 | H264.NriOf(first)) | H264.FOf(first) else H264.JoinHeader(was, first);
    hide H264.NriOf, H264.FOf, H264.TypeOf, H264.JoinHeader;
  }

  method SendAggregatedH264(ctx: RtpMuxContext, udp: UdpContext, nal: Nal, last: bool)
    requires ctx.Valid() && ctx.aggregation && 0 < |nal| <= MAX - 3
    modifies ctx`bufPtr, ctx`seqno, ctx.cache, ctx.buf, udp
    ensures ctx.Valid()
    ensures var step := H264.Send(true, old(ctx.Pending()), nal, last);
      && ctx.Pending() == step.pending
      && Sent(ctx, udp, Since(old(ctx.seqno), old(udp.sent)), step.outs)
  {
    hide SentAt, H264.Headed, Entry;
    ghost var since, pending := Since(ctx.seqno, udp.sent), ctx.Pending();
    ghost var done: seq<Outgoing> := [];
    NothingSent(ctx.seqno, ctx.timestamp, ctx.ssrc, udp.sent);
    var bufferedSize := ctx.bufPtr;
    if bufferedSize + 2 + |nal| > MAX {
      RtpSendData(ctx, udp, ctx.buf[..bufferedSize], false, since, done);
      done := done + [Outgoing(pending, false)];
    }
    HeadAggregateH264(ctx, nal[0]);
    ctx.AppendEntry(nal);
    if last {
      ghost var filled := ctx.Pending();
      RtpSendData(ctx, udp, ctx.buf[..ctx.bufPtr], true, since, done);
      done := done + [Outgoing(filled, true)];
    }
    assert done == H264.Send(true, pending, nal, last).outs;
  }

  method RtpSendNalH264(ctx: RtpMuxContext, udp: UdpContext, nal: Nal, last: bool)
    requires ctx.Valid() && H264.Room(ctx.aggregation, nal)
    modifies ctx`bufPtr, ctx`seqno, ctx.cache, ctx.buf, udp
    ensures ctx.Valid()
    ensures var step := H264.Send(old(ctx.aggregation), old(ctx.Pending()), nal, last);
      && ctx.Pending() == step.pending
      && Sent(ctx, udp, Since(old(ctx.seqno), old(udp.sent)), step.outs)
  {
    hide SentAt, H264.Headed, Entry, H264.FragmentNal;
    ghost var since, pending := Since(ctx.seqno, udp.sent), ctx.Pending();
    ghost var done: seq<Outgoing> := [];
    NothingSent(ctx.seqno, ctx.timestamp, ctx.ssrc, udp.sent);
    if |nal| <= MAX {
      if ctx.aggregation {
        SendAggregatedH264(ctx, udp, nal, last);
      } else {
        RtpSendData(ctx, udp, nal, last, since, done);
        assert done + [Outgoing(nal, last)] == [Outgoing(nal, last)];
      }
    } else {
      if ctx.bufPtr > 0 {
        RtpSendData(ctx, udp, ctx.buf[..ctx.bufPtr], false, since, done);
        done := done + [Outgoing(pending, false)];
      }
      assert done == H264.Flushed(pending);
      RtpSendFragmentsH264(ctx, udp, nal, last, since, done);
    }
  }

  // ----- the drivers

  /** The datagrams of a run of NAL calls, the timestamp advancing after each. */
  function DriverWire(seqno: nat, timestamp: nat, ssrc: nat, tick: nat, batches: seq<seq<Outgoing>>): seq<seq<byte>>
    requires timestamp < 0x1_0000_0000 && ssrc < 0x1_0000_0000 && AllSmall(batches)
    decreases |batches|
  {
    if batches == [] then [] else
      Emitted(seqno, timestamp, ssrc, batches[0])
        + DriverWire((seqno + |batches[0]|) % 0x1_0000, Advance(timestamp, tick), ssrc, tick, batches[1..])
  }

  lemma {:induction false} DriverWireIs(seqno: nat, timestamp: nat, ssrc: nat, tick: nat, batches: seq<seq<Outgoing>>)
    requires timestamp < 0x1_0000_0000 && ssrc < 0x1_0000_0000 && AllSmall(batches)
    ensures var ps := Timed(seqno, timestamp, ssrc, tick, batches);
      AllFit(ps) && DriverWire(seqno, timestamp, ssrc, tick, batches) == Datagrams(ps)
    decreases |batches|
  {
    TimedFits(seqno, timestamp, ssrc, tick, batches);
    hide Datagrams;
    if batches == [] {
      DatagramsOfNothing();
    } else {
      var s, t := (seqno + |batches[0]|) % 0x1_0000, Advance(timestamp, tick);
      DriverWireIs(s, t, ssrc, tick, batches[1..]);
      DatagramsAppend(Numbered(seqno, timestamp, ssrc, batches[0]), Timed(s, t, ssrc, tick, batches[1..]));
    }
  }

  lemma DatagramsOfNothing()
    ensures Datagrams([]) == []
  {
  }

  lemma {:induction false} DriverWireCons(seqno: nat, timestamp: nat, ssrc: nat, tick: nat, b: seq<Outgoing>,
                                          bs: seq<seq<Outgoing>>)
    requires timestamp < 0x1_0000_0000 && ssrc < 0x1_0000_0000 && AllSmall([b] + bs)
    ensures Small(b) && AllSmall(bs)
    ensures DriverWire(seqno, timestamp, ssrc, tick, [b] + bs) == Emitted(seqno, timestamp, ssrc, b)
      + DriverWire((seqno + |b|) % 0x1_0000, Advance(timestamp, tick), ssrc, tick, bs)
  {
    hide Emitted, Small;
    HeadTail([b], bs);
    assert b in [b] + bs && forall d <- bs :: d in [b] + bs;
  }

  /** Making the given calls from here on ends with `final` pending and `wire` sent. */
  ghost predicate OnTrack264(aggregation: bool, pending: seq<byte>, seqno: nat, timestamp: nat, ssrc: nat,
                             sent: seq<seq<byte>>, calls: seq<Call>, final: seq<byte>, wire: seq<seq<byte>>)
  {
    && timestamp < 0x1_0000_0000 && ssrc < 0x1_0000_0000 && |pending| <= MAX
    && H264.AllRoom(aggregation, calls)
    && var batches := H264.Batches(aggregation, pending, calls);
    && AllSmall(batches)
    && sent + DriverWire(seqno, timestamp, ssrc, 3600, batches) == wire
    && H264.Run(aggregation, pending, calls).pending == final
  }

  lemma {:induction false} OnTrackStart264(aggregation: bool, pending: seq<byte>, seqno: nat, timestamp: nat,
                                           ssrc: nat, sent: seq<seq<byte>>, calls: seq<Call>)
    requires timestamp < 0x1_0000_0000 && ssrc < 0x1_0000_0000 && |pending| <= MAX
    requires H264.AllRoom(aggregation, calls)
    ensures var batches := H264.Batches(aggregation, pending, calls);
      && AllSmall(batches)
      && OnTrack264(aggregation, pending, seqno, timestamp, ssrc, sent, calls,
                    H264.Run(aggregation, pending, calls).pending,
                    sent + DriverWire(seqno, timestamp, ssrc, 3600, batches))
  {
    H264.RunSmall(aggregation, pending, calls);
  }

  lemma OnTrackStep264(aggregation: bool, pending: seq<byte>, seqno: nat, timestamp: nat, ssrc: nat,
                       sent: seq<seq<byte>>, c: Call, calls: seq<Call>, final: seq<byte>, wire: seq<seq<byte>>)
    requires OnTrack264(aggregation, pending, seqno, timestamp, ssrc, sent, [c] + calls, final, wire)
    ensures timestamp < 0x1_0000_0000 && ssrc < 0x1_0000_0000 && H264.Room(aggregation, c.nal)
    ensures var step := H264.Send(aggregation, pending, c.nal, c.last);
      && Small(step.outs)
      && OnTrack264(aggregation, step.pending, (seqno + |step.outs|) % 0x1_0000, Advance(timestamp, 3600), ssrc,
                    sent + Emitted(seqno, timestamp, ssrc, step.outs), calls, final, wire)
  {
    hide Emitted, DriverWire, H264.Room, H264.Send, H264.Batches, H264.Run, H264.AllRoom, AllSmall, Small;
    H264.RunCons(aggregation, pending, c, calls);
    H264.SendSmall(aggregation, pending, c.nal, c.last);
    var step := H264.Send(aggregation, pending, c.nal, c.last);
    var bs := H264.Batches(aggregation, step.pending, calls);
    DriverWireCons(seqno, timestamp, ssrc, 3600, step.outs, bs);
    Associative(sent, Emitted(seqno, timestamp, ssrc, step.outs),
                DriverWire((seqno + |step.outs|) % 0x1_0000, Advance(timestamp, 3600), ssrc, 3600, bs));
  }

  lemma OnTrackEnd264(aggregation: bool, pending: seq<byte>, seqno: nat, timestamp: nat, ssrc: nat,
                      sent: seq<seq<byte>>, final: seq<byte>, wire: seq<seq<byte>>)
    requires OnTrack264(aggregation, pending, seqno, timestamp, ssrc, sent, [], final, wire)
    ensures pending == final && sent == wire
  {
  }

  /** One turn of the loop of rtpSendH264AVC. */
  method SendTurn264(ctx: RtpMuxContext, udp: UdpContext, nal: Nal, last: bool,
                     ghost rest: seq<Call>, ghost final: seq<byte>, ghost wire: seq<seq<byte>>)
    requires ctx.Valid()
    requires OnTrack264(ctx.aggregation, ctx.Pending(), ctx.seqno, ctx.timestamp, ctx.ssrc, udp.sent,
                        [Call(nal, last)] + rest, final, wire)
    modifies ctx`bufPtr, ctx`seqno, ctx`timestamp, ctx.cache, ctx.buf, udp
    ensures ctx.Valid()
    ensures OnTrack264(ctx.aggregation, ctx.Pending(), ctx.seqno, ctx.timestamp, ctx.ssrc, udp.sent, rest, final, wire)
  {
    hide OnTrack264, H264.Send, H264.Room, Emitted;
    OnTrackStep264(ctx.aggregation, ctx.Pending(), ctx.seqno, ctx.timestamp, ctx.ssrc, udp.sent,
                   Call(nal, last), rest, final, wire);
    RtpSendNalH264(ctx, udp, nal, last);
    ctx.timestamp := Advance(ctx.timestamp, 3600);
  }

  /** rtpSendH264AVC: every unit of the stream, in order, 3600 clock ticks apart. */
  method RtpSendH264(ctx: RtpMuxContext, udp: UdpContext, s: seq<byte>, addr: nat)
    requires ctx.Valid() && H264.AllRoom(ctx.aggregation, Split(s))
    modifies ctx`bufPtr, ctx`seqno, ctx`timestamp, ctx.cache, ctx.buf, udp
    ensures ctx.Valid()
    ensures ctx.Pending() == H264.Run(ctx.aggregation, old(ctx.Pending()), Split(s)).pending
    ensures var batches := H264.Batches(ctx.aggregation, old(ctx.Pending()), Split(s));
      && AllSmall(batches)
      && udp.sent == old(udp.sent) + DriverWire(old(ctx.seqno), old(ctx.timestamp), ctx.ssrc, 3600, batches)
  {
    hide FindCode, SkipCode, AtCode, SplitAtCode, OnTrack264, H264.Batches, H264.Run, H264.AllRoom;
    hide DriverWire, AllSmall;
    OnTrackStart264(ctx.aggregation, ctx.Pending(), ctx.seqno, ctx.timestamp, ctx.ssrc, udp.sent, Split(s));
    ghost var final := H264.Run(ctx.aggregation, ctx.Pending(), Split(s)).pending;
    ghost var wire := udp.sent + DriverWire(ctx.seqno, ctx.timestamp, ctx.ssrc, 3600,
                                            H264.Batches(ctx.aggregation, ctx.Pending(), Split(s)));
    if |s| == 0 {
      SplitNothing(s);
      OnTrackEnd264(ctx.aggregation, ctx.Pending(), ctx.seqno, ctx.timestamp, ctx.ssrc, udp.sent, final, wire);
      return;
    }
    FindCodeStops(s);
    assert s[0..|s|] == s;
    var r := FindStartCode(s, addr, 0, |s|);
    while r < |s|
      invariant r <= |s| && (r < |s| ==> AtCode(s[r..])) && ctx.Valid()
      invariant OnTrack264(ctx.aggregation, ctx.Pending(), ctx.seqno, ctx.timestamp, ctx.ssrc, udp.sent,
                           SplitAtCode(s[r..]), final, wire)
    {
      var nal := SkipStartCode(s, r);
      assert s[nal..|s|] == s[nal..];
      var r1 := FindStartCode(s, addr, nal, |s|);
      DriverTurn(s, r, nal, r1);
      SendTurn264(ctx, udp, s[nal..r1], r1 == |s|, SplitAtCode(s[r1..]), final, wire);
      r := r1;
    }
    assert s[r..] == [];
    EmptySplit();
    OnTrackEnd264(ctx.aggregation, ctx.Pending(), ctx.seqno, ctx.timestamp, ctx.ssrc, udp.sent, final, wire);
  }

  // ----- what a client of the H.264 driver gets

  /** A unit that arrives unchanged without aggregation, or with it: if sent whole and alone it must have one of the
      types 1 to 23, if fragmented no F bit. */
  predicate Arrives(aggregation: bool, nal: Nal) {
    if |nal| <= MAX then aggregation || H264.Plain(nal) else H264.HeaderKept(nal)
  }

  /** A recoverable stream sent with nothing pending: the datagrams read back as consecutively numbered packets, the
      marker is on the final one only, what is sent for the k-th unit carries 3600 ticks k times more than the first,
      nothing stays in the buffer, and the payloads give back exactly the units of the stream if and only if each of
      them arrives. */
  lemma {:induction false} StreamDelivered(us: seq<Unit>, aggregation: bool, seqno: nat, timestamp: nat, ssrc: nat)
    requires us != [] && Recoverable(us) && H264.AllRoom(aggregation, Calls(us))
    requires timestamp < 0x1_0000_0000 && ssrc < 0x1_0000_0000
    ensures Split(Join(us)) == Calls(us)
    ensures var batches := H264.Batches(aggregation, [], Calls(us));
      && AllSmall(batches)
      && var ps := ReadDatagrams(DriverWire(seqno, timestamp, ssrc, 3600, batches));
      && ps.Some? && Consecutive(seqno, ps.value)
      && H264.MarksLastOnly(Outs(ps.value))
      && Stamps(ps.value) == Clock(timestamp, 3600, 0, AllBare(batches))
      && H264.Run(aggregation, [], Calls(us)).pending == []
      && (H264.ReceiveAll(H264.Receiver([], None), Outs(ps.value)) == H264.Receiver(Nals(Calls(us)), None) <==>
          forall c <- Calls(us) :: Arrives(aggregation, c.nal))
  {
    SplitJoin(us);
    var calls := Calls(us);
    H264.RunSmall(aggregation, [], calls);
    var batches := H264.Batches(aggregation, [], calls);
    var ps := Timed(seqno, timestamp, ssrc, 3600, batches);
    hide Split, Join, Recoverable, DriverWire, Datagrams, ReadDatagrams, Arrives, H264.ReceiveAll, H264.Room,
      H264.NoneLossy, H264.HeadersKept, H264.MarksLastOnly, H264.Run, H264.Batches, Clock, Stamps, AllBare;
    DriverWireIs(seqno, timestamp, ssrc, 3600, batches);
    DatagramsRoundTrip(ps);
    TimedRun(seqno, timestamp, ssrc, 3600, batches);
    StartsAt(seqno, timestamp, ssrc, batches);
    H264.RunMarks(aggregation, [], calls);
    Recovered(aggregation, calls);
  }

  lemma {:induction false} StartsAt(seqno: nat, timestamp: nat, ssrc: nat, batches: seq<seq<Outgoing>>)
    requires timestamp < 0x1_0000_0000
    ensures Stamps(Timed(seqno, timestamp, ssrc, 3600, batches)) == Clock(timestamp, 3600, 0, AllBare(batches))
  {
    TimedClock(seqno, timestamp, ssrc, 3600, batches, timestamp, 0);
  }

  /** A run that starts and ends with nothing pending. */
  lemma {:induction false} Recovered(aggregation: bool, calls: seq<Call>)
    requires H264.AllRoom(aggregation, calls) && calls != [] && calls[|calls| - 1].last
    ensures var run := H264.Run(aggregation, [], calls);
      && run.pending == []
      && (H264.ReceiveAll(H264.Receiver([], None), run.outs) == H264.Receiver(Nals(calls), None) <==>
          forall c <- calls :: Arrives(aggregation, c.nal))
  {
    hide Arrives, H264.ReceiveAll, H264.Room, H264.NoneLossy, H264.HeadersKept, H264.Run;
    H264.RunWellFormed(aggregation, [], calls);
    H264.RunConserves(aggregation, [], calls, []);
    AllArrive(aggregation, calls);
    var rx := H264.ReceiveAll(H264.Receiver([], None), H264.Run(aggregation, [], calls).outs);
    assert H264.UnitsIn([]) == [];
    assert rx.Receiver? ==> rx.nals + [] == rx.nals;
    assert [] + [] + Nals(calls) == Nals(calls);
  }

  lemma {:induction false} AllArrive(aggregation: bool, calls: seq<Call>)
    requires H264.AllRoom(aggregation, calls)
    ensures H264.NoneLossy(aggregation, [], calls) && H264.HeadersKept(calls) <==>
      forall c <- calls :: Arrives(aggregation, c.nal)
  {
    hide H264.NoneLossy, H264.Plain, H264.Room;
    H264.NoneLossyExact(aggregation, [], calls);
  }
}
