/** RTP packets (section 5.1 of RFC 3550) and their interleaved frames (section 10.12 of RFC 2326): the bytes
    rtpSendData puts on the wire, and a reader for them. */
module Rtp {
  import opened Bytes
  import opened Sequences
  import Units
  import opened Wrappers

  const HEADER := 12
  const PREFIX := 4

  datatype Packet = Packet(marker: bool, seqno: nat, timestamp: nat, ssrc: nat, payload: seq<byte>)
  {
    /** The fields fit their widths, and the frame's length fits 16 bits. */
    predicate Fits() {
      seqno < 0x1_0000 && timestamp < 0x1_0000_0000 && ssrc < 0x1_0000_0000 && |payload| + HEADER < 0x1_0000
    }
  }

  /** Version 2, no padding, extension or CSRC; payload type 96. */
  function RtpHeader(p: Packet): (h: seq<byte>)
    requires p.Fits()
    ensures |h| == HEADER
  {
    [2 << 6, 96 | (if p.marker then 1 << 7 else 0)] + Be16(p.seqno) + Be32(p.timestamp) + Be32(p.ssrc)
  }

  function Datagram(p: Packet): (d: seq<byte>)
    requires p.Fits()
    ensures |d| == HEADER + |p.payload|
  {
    RtpHeader(p) + p.payload
  }

  function Frame(p: Packet): (f: seq<byte>)
    requires p.Fits()
    ensures |f| == PREFIX + HEADER + |p.payload|
  {
    ['$' as int as byte, 0] + Be16(|p.payload| + HEADER) + Datagram(p)
  }

  predicate AllFit(ps: seq<Packet>) {
    forall p <- ps :: p.Fits()
  }

  /** What a TCP client reads when the given packets were sent to it. */
  function Frames(ps: seq<Packet>): seq<byte>
    requires AllFit(ps)
  {
    if ps == [] then [] else Frame(ps[0]) + Frames(ps[1..])
  }

  function Datagrams(ps: seq<Packet>): (ds: seq<seq<byte>>)
    requires AllFit(ps)
    ensures |ds| == |ps|
    ensures forall i :: 0 <= i < |ps| ==> ds[i] == Datagram(ps[i])
  {
    if ps == [] then [] else [Datagram(ps[0])] + Datagrams(ps[1..])
  }

  // ----- reading back

  function ReadDatagram(d: seq<byte>): Option<Packet> {
    if |d| < HEADER || d[0] != 0x80 || d[1] & 0x7F != 96 then None
    else Some(Packet(d[1] & 0x80 != 0, FromBe16(d[2], d[3]),
                     FromBe32(d[4], d[5], d[6], d[7]), FromBe32(d[8], d[9], d[10], d[11]), d[HEADER..]))
  }

  function ReadFrames(s: seq<byte>): Option<seq<Packet>>
    decreases |s|
  {
    if s == [] then Some([])
    else if |s| < PREFIX || s[0] != 0x24 || s[1] != 0 then None
    else
      var n := FromBe16(s[2], s[3]);
      if |s| < PREFIX + n then None
      else match ReadDatagram(s[PREFIX..PREFIX + n])
        case None => None
        case Some(p) =>
          match ReadFrames(s[PREFIX + n..])
          case None => None
          case Some(ps) => Some([p] + ps)
  }

  lemma DatagramRoundTrip(p: Packet)
    requires p.Fits()
    ensures ReadDatagram(Datagram(p)) == Some(p)
  {
    hide FromBe16, FromBe32, Be16, Be32;
    var d := Datagram(p);
    Be16RoundTrip(p.seqno);
    Be32RoundTrip(p.timestamp);
    Be32RoundTrip(p.ssrc);
    assert d[HEADER..] == p.payload;
  }

  lemma FrameParts(p: Packet, s: seq<byte>)
    requires p.Fits()
    ensures var t, n := Frame(p) + s, HEADER + |p.payload|;
      && |t| == PREFIX + n + |s| && t[0] == 0x24 && t[1] == 0 && FromBe16(t[2], t[3]) == n
      && t[PREFIX..PREFIX + n] == Datagram(p) && t[PREFIX + n..] == s
  {
    hide FromBe16, Be16, Datagram;
    Be16RoundTrip(|p.payload| + HEADER);
    assert Frame(p)[PREFIX..] == Datagram(p);
  }

  lemma {:induction false} ReadFrame(p: Packet, s: seq<byte>)
    requires p.Fits()
    ensures ReadFrames(Frame(p) + s) ==
      if ReadFrames(s).None? then None else Some([p] + ReadFrames(s).value)
  {
    hide FromBe16, Frame, Datagram, ReadDatagram;
    FrameParts(p, s);
    DatagramRoundTrip(p);
  }

  /** A client that reads the interleaved frames gets back every packet, in order. */
  lemma {:induction false} FramesRoundTrip(ps: seq<Packet>)
    requires AllFit(ps)
    ensures ReadFrames(Frames(ps)) == Some(ps)
  {
    hide Frame, ReadDatagram;
    if ps != [] {
      FramesRoundTrip(ps[1..]);
      ReadFrame(ps[0], Frames(ps[1..]));
      assert [ps[0]] + ps[1..] == ps;
    }
  }

  lemma {:induction false} FramesAppend(ps: seq<Packet>, qs: seq<Packet>)
    requires AllFit(ps) && AllFit(qs)
    ensures AllFit(ps + qs) && Frames(ps + qs) == Frames(ps) + Frames(qs)
  {
    hide Frame;
    if ps == [] {
      assert ps + qs == qs;
    } else {
      FramesAppend(ps[1..], qs);
      assert ps + qs == [ps[0]] + (ps[1..] + qs);
    }
  }

  /** What a UDP client reads. */
  function ReadDatagrams(ds: seq<seq<byte>>): Option<seq<Packet>> {
    if ds == [] then Some([])
    else match ReadDatagram(ds[0])
      case None => None
      case Some(p) =>
        match ReadDatagrams(ds[1..])
        case None => None
        case Some(ps) => Some([p] + ps)
  }

  lemma {:induction false} DatagramsRoundTrip(ps: seq<Packet>)
    requires AllFit(ps)
    ensures ReadDatagrams(Datagrams(ps)) == Some(ps)
  {
    hide Datagram, ReadDatagram;
    if ps != [] {
      DatagramsRoundTrip(ps[1..]);
      DatagramRoundTrip(ps[0]);
      assert Datagrams(ps)[1..] == Datagrams(ps[1..]);
      assert [ps[0]] + ps[1..] == ps;
    }
  }

  // ----- numbering

  /** A payload with the marker bit it is sent with. */
  datatype Outgoing = Outgoing(payload: seq<byte>, marker: bool)

  function Numbered(seqno: nat, timestamp: nat, ssrc: nat, outs: seq<Outgoing>): (ps: seq<Packet>)
    ensures |ps| == |outs|
    ensures forall k :: 0 <= k < |outs| ==>
      ps[k] == Packet(outs[k].marker, (seqno + k) % 0x1_0000, timestamp, ssrc, outs[k].payload)
  {
    seq(|outs|, k requires 0 <= k < |outs| =>
      Packet(outs[k].marker, (seqno + k) % 0x1_0000, timestamp, ssrc, outs[k].payload))
  }

  lemma NumberedAppend(seqno: nat, timestamp: nat, ssrc: nat, outs: seq<Outgoing>, more: seq<Outgoing>)
    ensures Numbered(seqno, timestamp, ssrc, outs + more)
         == Numbered(seqno, timestamp, ssrc, outs) + Numbered((seqno + |outs|) % 0x1_0000, timestamp, ssrc, more)
  {
    var all, a := Numbered(seqno, timestamp, ssrc, outs + more), Numbered(seqno, timestamp, ssrc, outs);
    var b := Numbered((seqno + |outs|) % 0x1_0000, timestamp, ssrc, more);
    hide Numbered;
    forall i | 0 <= i < |outs + more| ensures all[i] == (a + b)[i] {
      if i >= |outs| { ModAdd(seqno + |outs|, i - |outs|); }
    }
  }

  lemma ModAdd(a: nat, k: nat)
    ensures (a + k) % 0x1_0000 == (a % 0x1_0000 + k) % 0x1_0000
  {
  }

  lemma ModOffset(base: nat, k: nat)
    requires k < 0x1_0000
    ensures ((base + k) % 0x1_0000 - base) % 0x1_0000 == k
  {
  }

  lemma {:induction false} DatagramsAppend(ps: seq<Packet>, qs: seq<Packet>)
    requires AllFit(ps) && AllFit(qs)
    ensures AllFit(ps + qs) && Datagrams(ps + qs) == Datagrams(ps) + Datagrams(qs)
  {
    hide Datagram;
  }

  function Outs(ps: seq<Packet>): (outs: seq<Outgoing>)
    ensures |outs| == |ps|
    ensures forall i :: 0 <= i < |ps| ==> outs[i] == Outgoing(ps[i].payload, ps[i].marker)
  {
    seq(|ps|, i requires 0 <= i < |ps| => Outgoing(ps[i].payload, ps[i].marker))
  }

  // ----- a run of calls, the timestamp advancing between them

  function Advance(timestamp: nat, tick: nat): (t: nat)
    ensures t < 0x1_0000_0000
  {
    (timestamp + tick) % 0x1_0000_0000
  }

  /** The packets of a run, given what each call emits. */
  function Timed(seqno: nat, timestamp: nat, ssrc: nat, tick: nat, batches: seq<seq<Outgoing>>): seq<Packet>
    decreases |batches|
  {
    if batches == [] then [] else
      Numbered(seqno, timestamp, ssrc, batches[0])
        + Timed((seqno + |batches[0]|) % 0x1_0000, Advance(timestamp, tick), ssrc, tick, batches[1..])
  }

  /** RTP_PAYLOAD_MAX bounds every payload. */
  predicate Small(outs: seq<Outgoing>) {
    forall o <- outs :: |o.payload| <= Units.MAX
  }

  predicate AllSmall(batches: seq<seq<Outgoing>>) {
    forall b <- batches :: Small(b)
  }

  lemma {:induction false} TimedFits(seqno: nat, timestamp: nat, ssrc: nat, tick: nat, batches: seq<seq<Outgoing>>)
    requires timestamp < 0x1_0000_0000 && ssrc < 0x1_0000_0000 && AllSmall(batches)
    ensures AllFit(Timed(seqno, timestamp, ssrc, tick, batches))
    decreases |batches|
  {
    if batches != [] {
      TimedFits((seqno + |batches[0]|) % 0x1_0000, Advance(timestamp, tick), ssrc, tick, batches[1..]);
      assert Small(batches[0]);
    }
  }

  function Flatten<T>(batches: seq<seq<T>>): seq<T> {
    if batches == [] then [] else batches[0] + Flatten(batches[1..])
  }

  /** Payloads, markers and consecutive numbers do not depend on the timestamps. */
  lemma {:induction false} TimedRun(seqno: nat, timestamp: nat, ssrc: nat, tick: nat, batches: seq<seq<Outgoing>>)
    ensures var ps := Timed(seqno, timestamp, ssrc, tick, batches);
      Outs(ps) == Flatten(batches) && Consecutive(seqno, ps)
    decreases |batches|
  {
    if batches != [] {
      var first := Numbered(seqno, timestamp, ssrc, batches[0]);
      var s, t := (seqno + |batches[0]|) % 0x1_0000, Advance(timestamp, tick);
      var rest := Timed(s, t, ssrc, tick, batches[1..]);
      TimedRun(s, t, ssrc, tick, batches[1..]);
      hide Timed;
      assert Outs(first + rest) == Outs(first) + Outs(rest);
      assert Outs(first) == batches[0];
      forall k | 0 <= k < |first + rest| ensures (first + rest)[k].seqno == (seqno + k) % 0x1_0000 {
        if k >= |first| { ModAdd(seqno + |first|, k - |first|); }
      }
    }
  }

  // ----- the clock as a receiver sees it

  /** The payloads of packets with their timestamps. */
  function Stamps(ps: seq<Packet>): (ss: seq<(nat, seq<byte>)>)
    ensures |ss| == |ps| && forall i :: 0 <= i < |ps| ==> ss[i] == (ps[i].timestamp, ps[i].payload)
  {
    seq(|ps|, i requires 0 <= i < |ps| => (ps[i].timestamp, ps[i].payload))
  }

  function Stamped(t: nat, payloads: seq<seq<byte>>): (ss: seq<(nat, seq<byte>)>)
    ensures |ss| == |payloads| && forall i :: 0 <= i < |payloads| ==> ss[i] == (t, payloads[i])
  {
    seq(|payloads|, i requires 0 <= i < |payloads| => (t, payloads[i]))
  }

  /** What is sent in turns numbered from i on, the turn numbered 0 being at time t and each one `tick` after the one
      before. */
  function Clock(t: nat, tick: nat, i: nat, batches: seq<seq<seq<byte>>>): seq<(nat, seq<byte>)>
    decreases |batches|
  {
    if batches == [] then [] else
      Stamped((t + tick * i) % 0x1_0000_0000, batches[0]) + Clock(t, tick, i + 1, batches[1..])
  }

  function Bare(outs: seq<Outgoing>): (ps: seq<seq<byte>>)
    ensures |ps| == |outs| && forall i :: 0 <= i < |outs| ==> ps[i] == outs[i].payload
  {
    seq(|outs|, i requires 0 <= i < |outs| => outs[i].payload)
  }

  function AllBare(batches: seq<seq<Outgoing>>): (bs: seq<seq<seq<byte>>>)
    ensures |bs| == |batches| && forall i :: 0 <= i < |batches| ==> bs[i] == Bare(batches[i])
  {
    seq(|batches|, i requires 0 <= i < |batches| => Bare(batches[i]))
  }

  lemma StampsAppend(ps: seq<Packet>, qs: seq<Packet>)
    ensures Stamps(ps + qs) == Stamps(ps) + Stamps(qs)
  {
  }

  lemma OneTick(t: nat, tick: nat, i: nat)
    ensures ((t + tick * i) % 0x1_0000_0000 + tick) % 0x1_0000_0000 == (t + tick * (i + 1)) % 0x1_0000_0000
  {
    assert tick * (i + 1) == tick * i + tick;
  }

  /** The k-th turn of a run has the timestamp of the first and k ticks. */
  lemma {:induction false} TimedClock(seqno: nat, timestamp: nat, ssrc: nat, tick: nat, batches: seq<seq<Outgoing>>,
                                      t: nat, i: nat)
    requires timestamp == (t + tick * i) % 0x1_0000_0000
    ensures Stamps(Timed(seqno, timestamp, ssrc, tick, batches)) == Clock(t, tick, i, AllBare(batches))
    decreases |batches|
  {
    if batches != [] {
      var first := Numbered(seqno, timestamp, ssrc, batches[0]);
      var s, u := (seqno + |batches[0]|) % 0x1_0000, Advance(timestamp, tick);
      OneTick(t, tick, i);
      TimedClock(s, u, ssrc, tick, batches[1..], t, i + 1);
      StampsAppend(first, Timed(s, u, ssrc, tick, batches[1..]));
      assert AllBare(batches)[1..] == AllBare(batches[1..]);
      assert Stamps(first) == Stamped(timestamp, Bare(batches[0]));
    }
  }

  lemma {:induction false} ClockAppend(t: nat, tick: nat, i: nat, bs: seq<seq<seq<byte>>>, b: seq<seq<byte>>)
    ensures Clock(t, tick, i, bs + [b]) == Clock(t, tick, i, bs) + Stamped((t + tick * (i + |bs|)) % 0x1_0000_0000, b)
    decreases |bs|
  {
    hide Stamped;
    if bs == [] {
      assert [b][1..] == [] && [] + [b] == [b];
    } else {
      HeadTail(bs, [b]);
      ClockAppend(t, tick, i + 1, bs[1..], b);
      assert i + 1 + |bs[1..]| == i + |bs|;
      hide Stamped, Clock;
      Associative(Stamped((t + tick * i) % 0x1_0000_0000, bs[0]), Clock(t, tick, i + 1, bs[1..]),
                  Stamped((t + tick * (i + |bs|)) % 0x1_0000_0000, b));
    }
  }

  /** Distance of a packet from the one numbered `base`, modulo 2^16. */
  function Offset(base: nat, p: Packet): int {
    (p.seqno - base) % 0x1_0000
  }

  predicate Consecutive(base: nat, ps: seq<Packet>) {
    forall k :: 0 <= k < |ps| ==> ps[k].seqno == (base + k) % 0x1_0000
  }

  predicate SortedByOffset(base: nat, ps: seq<Packet>) {
    forall i, j :: 0 <= i < j < |ps| ==> Offset(base, ps[i]) <= Offset(base, ps[j])
  }

  /** Sorting a window of at most 2^16 consecutive packets by their distance from the first one restores the
      order they were sent in, however they were shuffled and wherever the numbers wrap. */
  lemma Reordering(base: nat, sent: seq<Packet>, arrived: seq<Packet>)
    requires |sent| <= 0x1_0000 && Consecutive(base, sent)
    requires multiset(arrived) == multiset(sent) && SortedByOffset(base, arrived)
    ensures arrived == sent
  {
    forall k | 0 <= k < |sent| ensures Offset(base, sent[k]) == k {
      ModOffset(base, k);
    }
    hide Offset;
    SortedUnique(base, sent, arrived);
  }

  lemma {:induction false} SortedUnique(base: nat, a: seq<Packet>, b: seq<Packet>)
    requires forall i, j :: 0 <= i < j < |a| ==> Offset(base, a[i]) < Offset(base, a[j])
    requires multiset(a) == multiset(b) && SortedByOffset(base, b)
    ensures a == b
  {
    hide Offset;
    if a == [] {
      assert |multiset(b)| == 0;
    } else {
      SameHead(base, a, b);
      TailMultiset(a);
      TailMultiset(b);
      SortedUnique(base, a[1..], b[1..]);
      assert a == [a[0]] + a[1..];
    }
  }

  lemma SameHead(base: nat, a: seq<Packet>, b: seq<Packet>)
    requires a != []
    requires forall i, j :: 0 <= i < j < |a| ==> Offset(base, a[i]) < Offset(base, a[j])
    requires multiset(a) == multiset(b) && SortedByOffset(base, b)
    ensures b != [] && a[0] == b[0]
  {
    hide Offset;
    assert a[0] in multiset(b);
    var j :| 0 <= j < |b| && b[j] == a[0];
    assert b[0] in multiset(a);
    var i :| 0 <= i < |a| && a[i] == b[0];
  }
}
