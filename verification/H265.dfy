/** The H.265 payload format: what CStreamer::rtpSendNALH265 of src/CStreamer.cpp sends, and a receiver
    written from section 4.4 of RFC 7798. */
module H265 {
  import opened Bytes
  import opened Sequences
  import opened Units
  import opened Wrappers

  function TypeOf(first: byte): byte {
    (first >> 1) & 0x3F
  }

  // ----- the sender, on values

  const AP_HEADER: seq<byte> := [48 << 1, 1]

  /** The packets a call emits and what it leaves in the aggregation buffer. */
  datatype Step = Step(packets: seq<seq<byte>>, pending: seq<byte>)

  function Fragments(fuHeader: byte, data: seq<byte>): (ps: seq<seq<byte>>)
    ensures ps != []
  {
    if |data| + 3 > MAX then
      [[49 << 1, 1, fuHeader] + data[..MAX - 3]] + Fragments(fuHeader & 0x7F, data[MAX - 3..])
    else
      [[49 << 1, 1, fuHeader | 0x40] + data]
  }

  /** The packets of a loop that has sent `done` and has `data` left. */
  function WithFragments(done: seq<seq<byte>>, h: byte, data: seq<byte>): seq<seq<byte>> {
    done + Fragments(h, data)
  }

  lemma FragmentsMore(done: seq<seq<byte>>, h: byte, data: seq<byte>)
    requires |data| + 3 > MAX
    ensures WithFragments(done, h, data)
      == WithFragments(done + [[49 << 1, 1, h] + data[..MAX - 3]], h & 0x7F, data[MAX - 3..])
  {
    Associative(done, [[49 << 1, 1, h] + data[..MAX - 3]], Fragments(h & 0x7F, data[MAX - 3..]));
  }

  lemma FragmentsEnd(done: seq<seq<byte>>, h: byte, data: seq<byte>)
    requires |data| + 3 <= MAX
    ensures WithFragments(done, h, data) == done + [[49 << 1, 1, h | 0x40] + data]
  {
  }

  function FragmentNal(nal: Nal): seq<seq<byte>>
    requires |nal| >= 2
  {
    Fragments(TypeOf(nal[0]) | 0x80, nal[2..])
  }

  function Flushed(pending: seq<byte>): seq<seq<byte>> {
    if pending == [] then [] else [pending]
  }

  function Send(aggregation: bool, pending: seq<byte>, nal: Nal, last: bool): Step {
    if |nal| <= MAX then
      if aggregation && |nal| + 4 <= MAX then
        var full := pending != [] && |pending| + 2 + |nal| > MAX;
        var filled := (if full || pending == [] then AP_HEADER else pending) + Entry(nal);
        var before := if full then [pending] else [];
        if last then Step(before + [filled], []) else Step(before, filled)
      else
        Step([nal], [])
    else
      Step(Flushed(pending) + FragmentNal(nal), [])
  }

  /** Units wait to be aggregated as long as they fit one packet of 1400 bytes together, and no longer. */
  lemma WaitsWhileFits(pending: seq<byte>, nal: Nal, last: bool)
    requires |nal| <= 1396
    ensures var step, fits := Send(true, pending, nal, last), pending == [] || |pending| + 2 + |nal| <= 1400;
      |step.packets| == (if fits then 0 else 1) + (if last then 1 else 0) && (last <==> step.pending == [])
  {
  }

  function Run(aggregation: bool, pending: seq<byte>, calls: seq<Call>): Step
    decreases |calls|
  {
    if calls == [] then Step([], pending)
    else
      var one := Send(aggregation, pending, calls[0].nal, calls[0].last);
      var others := Run(aggregation, one.pending, calls[1..]);
      Step(one.packets + others.packets, others.pending)
  }

  lemma {:induction false} RunAppend(aggregation: bool, pending: seq<byte>, calls: seq<Call>, c: Call)
    ensures var sofar := Run(aggregation, pending, calls);
      var step := Send(aggregation, sofar.pending, c.nal, c.last);
      Run(aggregation, pending, calls + [c]) == Step(sofar.packets + step.packets, step.pending)
    decreases |calls|
  {
    hide Send;
    if calls == [] {
      assert [] + [c] == [c] && [c][1..] == [];
    } else {
      var one := Send(aggregation, pending, calls[0].nal, calls[0].last);
      RunAppend(aggregation, one.pending, calls[1..], c);
      HeadTail(calls, [c]);
      var sofar := Run(aggregation, one.pending, calls[1..]);
      Associative(one.packets, sofar.packets, Send(aggregation, sofar.pending, c.nal, c.last).packets);
    }
  }

  // ----- the receiver

  /** Units received so far and the unit under reassembly; Refused once a packet broke the format. */
  datatype Receiver = Receiver(nals: seq<Nal>, partial: Option<Nal>) | Refused

  function Receive(rx: Receiver, p: seq<byte>): Receiver {
    if rx.Refused? || |p| < 2 then Refused
    else if TypeOf(p[0]) == 49 then ReceiveFragment(rx, p)
    else if rx.partial.Some? then Refused
    else if TypeOf(p[0]) == 48 then
      match ParseUnits(p[2..])
      case None => Refused
      case Some(us) => if us == [] then Refused else rx.(nals := rx.nals + us)
    else if TypeOf(p[0]) == 50 then Refused  // PACI packets (section 4.4.4 of RFC 7798) are not read here
    else rx.(nals := rx.nals + [p])
  }

  /** Section 4.4.3 of RFC 7798: the payload is not empty, S and E are not both set, and the unit's header
      takes F, LayerId and TID from the payload header and its type from the FU header. */
  function ReceiveFragment(rx: Receiver, p: seq<byte>): Receiver
    requires rx.Receiver? && |p| >= 2
  {
    if |p| < 4 then Refused
    else
      var start, end := p[2] & 0x80 != 0, p[2] & 0x40 != 0;
      if (start && end) || start == rx.partial.Some? then Refused
      else
        var nal := (if start then Rebuilt(p[0], p[1], p[2]) else rx.partial.value) + p[3..];
        if end then Receiver(rx.nals + [nal], None) else rx.(partial := Some(nal))
  }

  function Rebuilt(h0: byte, h1: byte, fuHeader: byte): Nal {
    [(h0 & 0x81) | ((fuHeader & 0x3F) << 1), h1]
  }

  function ReceiveAll(rx: Receiver, ps: seq<seq<byte>>): Receiver
    decreases |ps|
  {
    if ps == [] then rx else ReceiveAll(Receive(rx, ps[0]), ps[1..])
  }

  lemma {:induction false} ReceiveAppend(rx: Receiver, ps: seq<seq<byte>>, qs: seq<seq<byte>>)
    ensures ReceiveAll(rx, ps + qs) == ReceiveAll(ReceiveAll(rx, ps), qs)
    decreases |ps|
  {
    hide Receive;
    if ps == [] {
      assert ps + qs == qs;
    } else {
      ReceiveAppend(Receive(rx, ps[0]), ps[1..], qs);
      assert ps + qs == [ps[0]] + (ps[1..] + qs);
    }
  }

  // ----- fragmentation

  lemma FuHeaderBits(h: byte)
    ensures TypeOf(49 << 1) == 49 && TypeOf(48 << 1) == 48
    ensures (h & 0x7F) & 0x80 == 0 && (h & 0x7F) & 0x40 == h & 0x40
    ensures (h | 0x40) & 0x40 != 0 && (h | 0x40) & 0x80 == h & 0x80
    ensures (h | 0x40) & 0x3F == h & 0x3F
    ensures (TypeOf(h) | 0x80) & 0x80 != 0 && (TypeOf(h) | 0x80) & 0x40 == 0
  {
  }

  /** The sizes and the S and E bits of the fragments. */
  lemma {:induction false} FragmentShape(h: byte, data: seq<byte>)
    requires data != [] && h & 0x40 == 0
    ensures var ps := Fragments(h, data);
      && (MAX - 3) * (|ps| - 1) < |data| <= (MAX - 3) * |ps|
      && (forall i :: 0 <= i < |ps| ==> 4 <= |ps[i]| <= MAX && TypeOf(ps[i][0]) == 49 && ps[i][1] == 1)
      && (forall i :: 0 <= i < |ps| - 1 ==> |ps[i]| == MAX)
      && (forall i :: 0 <= i < |ps| ==> ((ps[i][2] & 0x40 != 0) <==> i == |ps| - 1))
      && (forall i :: 0 <= i < |ps| ==> ((ps[i][2] & 0x80 != 0) <==> i == 0 && h & 0x80 != 0))
  {
    FuHeaderBits(h);
    var ps := Fragments(h, data);
    if |data| + 3 > MAX {
      FragmentShape(h & 0x7F, data[MAX - 3..]);
      var more := Fragments(h & 0x7F, data[MAX - 3..]);
      assert ps == [ps[0]] + more;
    }
  }

  lemma {:induction false} ReceiveRest(ns: seq<Nal>, sofar: Nal, h: byte, data: seq<byte>)
    requires data != [] && h & 0xC0 == 0
    ensures ReceiveAll(Receiver(ns, Some(sofar)), Fragments(h, data)) == Receiver(ns + [sofar + data], None)
    decreases |data|
  {
    FuHeaderBits(h);
    var rx, ps := Receiver(ns, Some(sofar)), Fragments(h, data);
    if |data| + 3 > MAX {
      var head, tail := data[..MAX - 3], data[MAX - 3..];
      assert ps[0][3..] == head;
      assert Receive(rx, ps[0]) == Receiver(ns, Some(sofar + head));
      ReceiveRest(ns, sofar + head, h & 0x7F, tail);
      assert sofar + data == sofar + head + tail;
    } else {
      assert ps[0][3..] == data && ps[1..] == [];
      assert Receive(rx, ps[0]) == Receiver(ns + [sofar + data], None);
    }
  }

  /** What the receiver makes of a fragmented unit: the payload header is always written with F, LayerId and
      TID of 0, 0 and 1, whatever the unit's own header said. */
  function AsReceived(nal: Nal): Nal
    requires |nal| >= 2
  {
    if |nal| <= MAX then nal else [TypeOf(nal[0]) << 1, 1] + nal[2..]
  }

  predicate HeaderKept(nal: Nal)
    requires |nal| >= 2
  {
    |nal| <= MAX || (nal[0] & 0x81 == 0 && nal[1] == 1)
  }

  lemma HeaderBits(b: byte)
    ensures TypeOf(b) << 1 == b <==> b & 0x81 == 0
    ensures ((49 << 1) & 0x81) | (((TypeOf(b) | 0x80) & 0x3F) << 1) == TypeOf(b) << 1
    ensures ((TypeOf(b) | 0x80) & 0x7F) & 0xC0 == 0
  {
  }

  lemma AsReceivedExact(nal: Nal)
    requires |nal| >= 2
    ensures AsReceived(nal) == nal <==> HeaderKept(nal)
  {
    HeaderBits(nal[0]);
    assert nal == nal[..2] + nal[2..];
    if |nal| > MAX {
      assert AsReceived(nal)[0] == TypeOf(nal[0]) << 1 && AsReceived(nal)[1] == 1;
    }
  }

  lemma ReceiveFirst(ns: seq<Nal>, h: byte, head: seq<byte>)
    requires head != [] && h & 0x80 != 0 && h & 0x40 == 0
    ensures Receive(Receiver(ns, None), [49 << 1, 1, h] + head)
         == Receiver(ns, Some(Rebuilt(49 << 1, 1, h) + head))
  {
    FuHeaderBits(h);
    var p := [49 << 1, 1, h] + head;
    assert p[0] == 49 << 1 && p[2] == h && p[3..] == head;
  }

  /** Reassembling a fragmented unit. */
  lemma FragmentRoundTrip(ns: seq<Nal>, nal: Nal)
    requires |nal| > MAX
    ensures ReceiveAll(Receiver(ns, None), FragmentNal(nal)) == Receiver(ns + [AsReceived(nal)], None)
  {
    var h, data := TypeOf(nal[0]) | 0x80, nal[2..];
    FuHeaderBits(nal[0]);
    HeaderBits(nal[0]);
    var head, tail := data[..MAX - 3], data[MAX - 3..];
    assert AsReceived(nal) == Rebuilt(49 << 1, 1, h) + head + tail;
    hide TypeOf, Rebuilt, Receive, AsReceived;
    assert Fragments(h, data) == [[49 << 1, 1, h] + head] + Fragments(h & 0x7F, tail);
    ReceiveFirst(ns, h, head);
    ReceiveRest(ns, Rebuilt(49 << 1, 1, h) + head, h & 0x7F, tail);
  }

  // ----- one call

  /** The aggregation buffer is empty or holds an aggregation packet of at least one unit. */
  predicate WellFormed(pending: seq<byte>) {
    pending == [] ||
    (2 <= |pending| <= MAX && pending[..2] == AP_HEADER && ParseUnits(pending[2..]).Some? && |pending| > 2)
  }

  function UnitsIn(pending: seq<byte>): (us: seq<Nal>)
    requires WellFormed(pending)
    ensures us == [] <==> pending == []
  {
    if pending == [] then [] else ParseUnits(pending[2..]).value
  }

  /** The guard under which a call loses bytes: the unit goes out alone, so rtpSendData drops whatever was
      pending; or its type makes the receiver take it for another kind of packet. */
  predicate Lossy(aggregation: bool, pending: seq<byte>, nal: Nal)
    requires |nal| >= 2
  {
    && |nal| <= MAX
    && !(aggregation && |nal| + 4 <= MAX)
    && (pending != [] || 48 <= TypeOf(nal[0]) <= 50)
  }

  /** What the buffer holds after a unit was written into it. */
  lemma Filled(base: seq<byte>, nal: Nal)
    requires base == AP_HEADER || (base != [] && WellFormed(base))
    requires |base| + 2 + |nal| <= MAX
    ensures var filled := base + Entry(nal);
      && WellFormed(filled)
      && UnitsIn(filled) == (if base == AP_HEADER then [] else UnitsIn(base)) + [nal]
  {
    hide FromBe16, Be16, ParseUnits;
    var filled := base + Entry(nal);
    assert filled[2..] == base[2..] + Entry(nal) && filled[..2] == base[..2];
    ParseNothing();
    assert base == AP_HEADER ==> base[2..] == [];
    ParseAppend(base[2..], nal);
  }

  lemma StepWellFormed(aggregation: bool, pending: seq<byte>, nal: Nal, last: bool)
    requires WellFormed(pending) && |nal| >= 2
    ensures WellFormed(Send(aggregation, pending, nal, last).pending)
  {
    hide Entry, ParseUnits, TypeOf;
    if aggregation && |nal| + 4 <= MAX {
      Filled(if pending == [] || |pending| + 2 + |nal| > MAX then AP_HEADER else pending, nal);
    }
  }

  lemma ReceivePending(ns: seq<Nal>, pending: seq<byte>)
    requires WellFormed(pending)
    ensures ReceiveAll(Receiver(ns, None), Flushed(pending)) == Receiver(ns + UnitsIn(pending), None)
  {
    if pending == [] {
      assert ns + [] == ns;
    } else {
      FuHeaderBits(pending[0]);
      assert pending[0] == pending[..2][0];
      assert Flushed(pending)[1..] == [];
      hide ParseUnits, TypeOf;
      assert Receive(Receiver(ns, None), pending) == Receiver(ns + UnitsIn(pending), None);
    }
  }

  lemma ReceiveSingle(ns: seq<Nal>, nal: Nal)
    requires |nal| >= 2 && !(48 <= TypeOf(nal[0]) <= 50)
    ensures ReceiveAll(Receiver(ns, None), [nal]) == Receiver(ns + [nal], None)
  {
    assert [nal][1..] == [];
    assert TypeOf(nal[0]) != 48 && TypeOf(nal[0]) != 49 && TypeOf(nal[0]) != 50;
    hide TypeOf;
    assert Receive(Receiver(ns, None), nal) == Receiver(ns + [nal], None);
  }

  /** A call that is not lossy: the receiver's units and those still in the buffer grow by the unit sent,
      as far as its header survives. */
  lemma StepReceived(aggregation: bool, pending: seq<byte>, nal: Nal, last: bool, ns: seq<Nal>)
    requires WellFormed(pending) && |nal| >= 2 && !Lossy(aggregation, pending, nal)
    ensures var step := Send(aggregation, pending, nal, last);
      && WellFormed(step.pending)
      && var rx := ReceiveAll(Receiver(ns, None), step.packets);
      && rx.Receiver? && rx.partial == None
      && rx.nals + UnitsIn(step.pending) == ns + UnitsIn(pending) + [AsReceived(nal)]
  {
    StepWellFormed(aggregation, pending, nal, last);
    ReceivePending(ns, pending);
    if |nal| > MAX {
      ReceiveAppend(Receiver(ns, None), Flushed(pending), FragmentNal(nal));
      FragmentRoundTrip(ns + UnitsIn(pending), nal);
    } else if aggregation && |nal| + 4 <= MAX {
      hide Receive, ParseUnits, Entry, WellFormed, UnitsIn;
      StepAggregated(pending, nal, last, ns);
    } else {
      ReceiveSingle(ns, nal);
    }
  }

  lemma StepAggregated(pending: seq<byte>, nal: Nal, last: bool, ns: seq<Nal>)
    requires WellFormed(pending) && |nal| + 4 <= MAX
    ensures var step := Send(true, pending, nal, last);
      && WellFormed(step.pending)
      && ReceiveAll(Receiver(ns, None), step.packets).Receiver?
      && ReceiveAll(Receiver(ns, None), step.packets).partial == None
      && ReceiveAll(Receiver(ns, None), step.packets).nals + UnitsIn(step.pending) == ns + UnitsIn(pending) + [nal]
  {
    hide Receive, ParseUnits, Entry;
    var full := pending != [] && |pending| + 2 + |nal| > MAX;
    var base := if full || pending == [] then AP_HEADER else pending;
    var filled := base + Entry(nal);
    Filled(base, nal);
    hide WellFormed, UnitsIn;
    var before := if full then [pending] else [];
    var sofar := ns + if full then UnitsIn(pending) else [];
    assert ReceiveAll(Receiver(ns, None), before) == Receiver(sofar, None) by {
      if full { ReceivePending(ns, pending); }
    }
    assert sofar + UnitsIn(filled) == ns + UnitsIn(pending) + [nal];
    ReceivePending(sofar, filled);
    ReceiveAppend(Receiver(ns, None), before, [filled]);
  }

  // ----- whole runs

  predicate AllNals(calls: seq<Call>) {
    forall c <- calls :: |c.nal| >= 2
  }

  predicate NoneLossy(aggregation: bool, pending: seq<byte>, calls: seq<Call>)
    requires AllNals(calls)
    decreases |calls|
  {
    calls == [] ||
    (!Lossy(aggregation, pending, calls[0].nal) &&
     NoneLossy(aggregation, Send(aggregation, pending, calls[0].nal, calls[0].last).pending, calls[1..]))
  }

  predicate HeadersKept(calls: seq<Call>)
    requires AllNals(calls)
  {
    forall c <- calls :: HeaderKept(c.nal)
  }

  function AllAsReceived(calls: seq<Call>): (ns: seq<Nal>)
    requires AllNals(calls)
    ensures |ns| == |calls|
    ensures forall i :: 0 <= i < |calls| ==> ns[i] == AsReceived(calls[i].nal)
  {
    if calls == [] then [] else [AsReceived(calls[0].nal)] + AllAsReceived(calls[1..])
  }

  lemma {:induction false} RunWellFormed(aggregation: bool, pending: seq<byte>, calls: seq<Call>)
    requires WellFormed(pending) && AllNals(calls)
    ensures WellFormed(Run(aggregation, pending, calls).pending)
    decreases |calls|
  {
    if calls != [] {
      hide WellFormed, Send;
      StepWellFormed(aggregation, pending, calls[0].nal, calls[0].last);
      RunWellFormed(aggregation, Send(aggregation, pending, calls[0].nal, calls[0].last).pending, calls[1..]);
    }
  }

  lemma {:induction false} RunReceived(aggregation: bool, pending: seq<byte>, calls: seq<Call>, ns: seq<Nal>)
    requires WellFormed(pending) && AllNals(calls) && NoneLossy(aggregation, pending, calls)
    ensures var run := Run(aggregation, pending, calls);
      && WellFormed(run.pending)
      && var rx := ReceiveAll(Receiver(ns, None), run.packets);
      && rx.Receiver? && rx.partial == None
      && rx.nals + UnitsIn(run.pending) == ns + UnitsIn(pending) + AllAsReceived(calls)
    decreases |calls|
  {
    hide WellFormed, UnitsIn, Send, Receive, Lossy, AsReceived;
    if calls == [] {
      assert ns + UnitsIn(pending) + [] == ns + UnitsIn(pending);
    } else {
      var one := Send(aggregation, pending, calls[0].nal, calls[0].last);
      StepReceived(aggregation, pending, calls[0].nal, calls[0].last, ns);
      var rx := ReceiveAll(Receiver(ns, None), one.packets);
      var others := Run(aggregation, one.pending, calls[1..]);
      RunReceived(aggregation, one.pending, calls[1..], rx.nals);
      ReceiveAppend(Receiver(ns, None), one.packets, others.packets);
      var first, rest := [AsReceived(calls[0].nal)], AllAsReceived(calls[1..]);
      Associative(ns + UnitsIn(pending), first, rest);
    }
  }

  // ----- an upper bound on what any receiver can take out of a packet

  function Bulk(p: seq<byte>): nat {
    if |p| < 2 then 0
    else if TypeOf(p[0]) == 49 then (if |p| < 4 then 0 else if p[2] & 0x80 != 0 then |p| else |p| - 3)
    else if TypeOf(p[0]) == 48 then (if ParseUnits(p[2..]).Some? then Weight(ParseUnits(p[2..]).value) else 0)
    else if TypeOf(p[0]) == 50 then 0
    else |p| + 1
  }

  function BulkAll(ps: seq<seq<byte>>): nat {
    if ps == [] then 0 else Bulk(ps[0]) + BulkAll(ps[1..])
  }

  lemma {:induction false} BulkAppend(ps: seq<seq<byte>>, qs: seq<seq<byte>>)
    ensures BulkAll(ps + qs) == BulkAll(ps) + BulkAll(qs)
  {
    hide Bulk;
    if ps == [] {
      assert ps + qs == qs;
    } else {
      BulkAppend(ps[1..], qs);
      assert ps + qs == [ps[0]] + (ps[1..] + qs);
    }
  }

  function Held(rx: Receiver): nat
    requires rx.Receiver?
  {
    Weight(rx.nals) + if rx.partial.Some? then |rx.partial.value| + 1 else 0
  }

  lemma ReceiveBulk(rx: Receiver, p: seq<byte>)
    requires Receive(rx, p).Receiver?
    ensures Held(Receive(rx, p)) <= Held(rx) + Bulk(p)
  {
    if TypeOf(p[0]) == 49 {
      var nal := (if rx.partial.None? then Rebuilt(p[0], p[1], p[2]) else rx.partial.value) + p[3..];
      TotalAppend(rx.nals, [nal]);
    } else if TypeOf(p[0]) == 48 {
      TotalAppend(rx.nals, ParseUnits(p[2..]).value);
    } else {
      TotalAppend(rx.nals, [p]);
    }
  }

  lemma {:induction false} ReceiveAllBulk(rx: Receiver, ps: seq<seq<byte>>)
    requires ReceiveAll(rx, ps).Receiver?
    ensures rx.Receiver? && Held(ReceiveAll(rx, ps)) <= Held(rx) + BulkAll(ps)
    decreases |ps|
  {
    hide Receive, Bulk, Held;
    if ps != [] {
      ReceiveAllBulk(Receive(rx, ps[0]), ps[1..]);
      assert rx.Receiver? by { RefusedStays(rx, ps[0]); }
      ReceiveBulk(rx, ps[0]);
    }
  }

  lemma RefusedStays(rx: Receiver, p: seq<byte>)
    requires Receive(rx, p).Receiver?
    ensures rx.Receiver?
  {
  }

  lemma {:induction false} FragmentsBulk(h: byte, data: seq<byte>)
    requires data != [] && h & 0x40 == 0
    ensures BulkAll(Fragments(h, data)) == |data| + if h & 0x80 != 0 then 3 else 0
    decreases |data|
  {
    FuHeaderBits(h);
    var ps := Fragments(h, data);
    if |data| + 3 > MAX {
      FragmentsBulk(h & 0x7F, data[MAX - 3..]);
      assert ps[1..] == Fragments(h & 0x7F, data[MAX - 3..]);
    } else {
      assert ps[1..] == [];
    }
  }

  lemma PendingBulk(pending: seq<byte>)
    requires WellFormed(pending)
    ensures BulkAll(Flushed(pending)) == Weight(UnitsIn(pending))
  {
    if pending != [] {
      FuHeaderBits(pending[0]);
      assert pending[0] == pending[..2][0];
      assert Flushed(pending)[1..] == [];
    }
  }

  /** A lossy call puts less on the wire and in the buffer than went in. */
  lemma StepBulk(aggregation: bool, pending: seq<byte>, nal: Nal, last: bool)
    requires WellFormed(pending) && |nal| >= 2
    ensures var step := Send(aggregation, pending, nal, last);
      && WellFormed(step.pending)
      && var after := BulkAll(step.packets) + Weight(UnitsIn(step.pending));
      && var before := Weight(UnitsIn(pending)) + |nal| + 1;
      && after <= before
      && (Lossy(aggregation, pending, nal) ==> after < before)
  {
    StepWellFormed(aggregation, pending, nal, last);
    PendingBulk(pending);
    if |nal| > MAX {
      FuHeaderBits(nal[0]);
      FragmentsBulk(TypeOf(nal[0]) | 0x80, nal[2..]);
      BulkAppend(Flushed(pending), FragmentNal(nal));
    } else if aggregation && |nal| + 4 <= MAX {
      AggregatedBulk(pending, nal, last);
    } else {
      assert [nal][1..] == [];
      SingleBulk(nal);
    }
  }

  lemma SingleBulk(nal: Nal)
    requires |nal| >= 2
    ensures Bulk(nal) <= |nal| + 1
    ensures 48 <= TypeOf(nal[0]) <= 50 ==> Bulk(nal) <= |nal|
  {
    assert 48 <= TypeOf(nal[0]) <= 50 ==> TypeOf(nal[0]) == 48 || TypeOf(nal[0]) == 49 || TypeOf(nal[0]) == 50;
  }

  lemma AggregatedBulk(pending: seq<byte>, nal: Nal, last: bool)
    requires WellFormed(pending) && |nal| + 4 <= MAX
    ensures var step := Send(true, pending, nal, last);
      && WellFormed(step.pending)
      && BulkAll(step.packets) + Weight(UnitsIn(step.pending)) == Weight(UnitsIn(pending)) + |nal| + 1
  {
    hide ParseUnits, Entry, Bulk;
    var full := pending != [] && |pending| + 2 + |nal| > MAX;
    var base := if full || pending == [] then AP_HEADER else pending;
    var filled := base + Entry(nal);
    Filled(base, nal);
    hide WellFormed, UnitsIn;
    var before := if full then [pending] else [];
    PendingBulk(pending);
    PendingBulk(filled);
    BulkAppend(before, [filled]);
    TotalAppend(if base == AP_HEADER then [] else UnitsIn(pending), [nal]);
  }

  lemma {:induction false} RunBulk(aggregation: bool, pending: seq<byte>, calls: seq<Call>)
    requires WellFormed(pending) && AllNals(calls)
    ensures var run := Run(aggregation, pending, calls);
      && WellFormed(run.pending)
      && var after := BulkAll(run.packets) + Weight(UnitsIn(run.pending));
      && var before := Weight(UnitsIn(pending)) + Weight(Nals(calls));
      && after <= before
      && (!NoneLossy(aggregation, pending, calls) ==> after < before)
    decreases |calls|
  {
    hide WellFormed, UnitsIn, Send, Bulk, Lossy;
    if calls != [] {
      var one := Send(aggregation, pending, calls[0].nal, calls[0].last);
      StepBulk(aggregation, pending, calls[0].nal, calls[0].last);
      var others := Run(aggregation, one.pending, calls[1..]);
      RunBulk(aggregation, one.pending, calls[1..]);
      BulkAppend(one.packets, others.packets);
      assert Nals(calls)[1..] == Nals(calls[1..]);
    }
  }

  // ----- the main results

  /** The receiver ends up idle, and its units followed by those still in the aggregation buffer are exactly
      the units it had, those that were pending before, and those submitted, in order. */
  predicate Conserved(aggregation: bool, pending: seq<byte>, calls: seq<Call>, ns: seq<Nal>)
    requires WellFormed(pending) && AllNals(calls)
  {
    RunWellFormed(aggregation, pending, calls);
    var run := Run(aggregation, pending, calls);
    var rx := ReceiveAll(Receiver(ns, None), run.packets);
    rx.Receiver? && rx.partial == None && rx.nals + UnitsIn(run.pending) == ns + UnitsIn(pending) + Nals(calls)
  }

  /** Conservation over whole runs holds exactly when no call meets the guard of the lossy branch and every
      fragmented unit has F = 0, LayerId = 0 and TID = 1. */
  lemma {:induction false} RunConserves(aggregation: bool, pending: seq<byte>, calls: seq<Call>, ns: seq<Nal>)
    requires WellFormed(pending) && AllNals(calls)
    ensures Conserved(aggregation, pending, calls, ns) <==>
      NoneLossy(aggregation, pending, calls) && HeadersKept(calls)
  {
    hide WellFormed, UnitsIn, Receive, Bulk, Lossy, AsReceived, HeaderKept, Send;
    RunWellFormed(aggregation, pending, calls);
    var run := Run(aggregation, pending, calls);
    var rx := ReceiveAll(Receiver(ns, None), run.packets);
    var had := ns + UnitsIn(pending);
    if NoneLossy(aggregation, pending, calls) {
      RunReceived(aggregation, pending, calls, ns);
      CancelLeft(had, AllAsReceived(calls), Nals(calls));
      forall c <- calls ensures HeaderKept(c.nal) <==> AsReceived(c.nal) == c.nal {
        AsReceivedExact(c.nal);
      }
      assert AllAsReceived(calls) == Nals(calls) <==> HeadersKept(calls) by {
        if AllAsReceived(calls) == Nals(calls) {
          forall c <- calls ensures HeaderKept(c.nal) {
            var i :| 0 <= i < |calls| && calls[i] == c;
            assert AllAsReceived(calls)[i] == Nals(calls)[i];
          }
        }
      }
    } else if rx.Receiver? && rx.partial == None {
      RunBulk(aggregation, pending, calls);
      ReceiveAllBulk(Receiver(ns, None), run.packets);
      TotalAppend(rx.nals, UnitsIn(run.pending));
      TotalAppend(ns, UnitsIn(pending));
      TotalAppend(had, Nals(calls));
    }
  }

  /** With aggregation off nothing is ever pending, so the condition is one on the units alone. */
  lemma {:induction false} NoneLossyWithoutAggregation(calls: seq<Call>)
    requires AllNals(calls)
    ensures NoneLossy(false, [], calls) <==> forall c <- calls :: |c.nal| <= MAX ==> !(48 <= TypeOf(c.nal[0]) <= 50)
    decreases |calls|
  {
    if calls != [] {
      NoneLossyWithoutAggregation(calls[1..]);
      assert forall c :: c in calls <==> c == calls[0] || c in calls[1..];
    }
  }

  /** Units are waiting when the i-th call comes: they were before the first one, or the call before put one into the
      buffer and did not flush it. */
  predicate Waiting(pending: seq<byte>, calls: seq<Call>, i: nat)
    requires i < |calls|
  {
    if i == 0 then pending != [] else |calls[i - 1].nal| + 4 <= MAX && !calls[i - 1].last
  }

  /** A unit that bypasses the buffer does no harm if nothing is waiting there and its type is its own. */
  predicate Harmless(pending: seq<byte>, calls: seq<Call>, i: nat)
    requires AllNals(calls) && i < |calls|
  {
    MAX - 3 <= |calls[i].nal| <= MAX ==> !Waiting(pending, calls, i) && !(48 <= TypeOf(calls[i].nal[0]) <= 50)
  }

  /** With aggregation on the condition is one on the units of 1397 to 1400 bytes, and the calls right before them. */
  lemma {:induction false} NoneLossyWithAggregation(pending: seq<byte>, calls: seq<Call>)
    requires AllNals(calls)
    ensures NoneLossy(true, pending, calls) <==> forall i :: 0 <= i < |calls| ==> Harmless(pending, calls, i)
    decreases |calls|
  {
    if calls != [] {
      var nal, last := calls[0].nal, calls[0].last;
      assert calls[0] in calls && forall c <- calls[1..] :: c in calls;
      var next := Send(true, pending, nal, last).pending;
      assert next != [] <==> |nal| + 4 <= MAX && !last;
      assert Harmless(pending, calls, 0) <==> !Lossy(true, pending, nal);
      hide Send, TypeOf, Lossy;
      NoneLossyWithAggregation(next, calls[1..]);
      forall i | 0 <= i < |calls| - 1 ensures Harmless(next, calls[1..], i) <==> Harmless(pending, calls, i + 1) {
        assert i > 0 ==> calls[1..][i - 1] == calls[i];
      }
      hide Harmless;
      HarmlessTail(pending, next, calls);
    }
  }

  lemma HarmlessTail(pending: seq<byte>, next: seq<byte>, calls: seq<Call>)
    requires AllNals(calls) && calls != [] && AllNals(calls[1..])
    requires forall i :: 0 <= i < |calls| - 1 ==> (Harmless(next, calls[1..], i) <==> Harmless(pending, calls, i + 1))
    ensures (forall i :: 0 <= i < |calls| ==> Harmless(pending, calls, i)) <==>
      Harmless(pending, calls, 0) && forall i :: 0 <= i < |calls| - 1 ==> Harmless(next, calls[1..], i)
  {
    hide Harmless;
    if Harmless(pending, calls, 0) && forall i :: 0 <= i < |calls| - 1 ==> Harmless(next, calls[1..], i) {
      forall i | 0 <= i < |calls| ensures Harmless(pending, calls, i) {
        if i > 0 { assert Harmless(next, calls[1..], i - 1); }
      }
    }
  }

  // ----- sizes

  predicate Small(ps: seq<seq<byte>>) {
    forall p <- ps :: |p| <= MAX
  }

  lemma {:induction false} FragmentsSmall(h: byte, data: seq<byte>)
    ensures Small(Fragments(h, data))
    decreases |data|
  {
    if |data| + 3 > MAX {
      FragmentsSmall(h & 0x7F, data[MAX - 3..]);
    }
  }

  /** Nothing sent, and nothing left pending, exceeds RTP_PAYLOAD_MAX. */
  lemma SendSmall(aggregation: bool, pending: seq<byte>, nal: Nal, last: bool)
    requires |pending| <= MAX
    ensures var step := Send(aggregation, pending, nal, last);
      Small(step.packets) && |step.pending| <= MAX
  {
    if |nal| > MAX {
      FragmentsSmall(TypeOf(nal[0]) | 0x80, nal[2..]);
    }
  }
}
