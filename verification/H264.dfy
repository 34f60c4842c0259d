/** The H.264 payload format: what rtpSendNALH264AVC of src/RTPEnc.cpp sends, and a receiver written from
    section 5 of RFC 6184 (non-interleaved mode). */
module H264 {
  import opened Bytes
  import opened Rtp
  import opened Sequences
  import opened Units
  import opened Wrappers

  function TypeOf(first: byte): byte { first & 0x1F }
  function NriOf(first: byte): byte { first & 0x60 }
  function FOf(first: byte): byte { first & 0x80 }

  // ----- the sender, on values

  /** The packets a call emits and what it leaves in the aggregation buffer. */
  datatype Step = Step(outs: seq<Outgoing>, pending: seq<byte>)

  /** Fragments share the FU indicator; the marker goes on the last one only. */
  function Fragments(indicator: byte, fuHeader: byte, data: seq<byte>, last: bool): (ps: seq<Outgoing>)
    ensures ps != []
  {
    if |data| + 2 > MAX then
      [Outgoing([indicator, fuHeader] + data[..MAX - 2], false)]
        + Fragments(indicator, fuHeader & 0x7F, data[MAX - 2..], last)
    else
      [Outgoing([indicator, fuHeader | 0x40] + data, last)]
  }

  /** The packets of a loop that has sent `done` and has `data` left. */
  function WithFragments(done: seq<Outgoing>, ind: byte, h: byte, data: seq<byte>, last: bool): seq<Outgoing> {
    done + Fragments(ind, h, data, last)
  }

  lemma FragmentsMore(done: seq<Outgoing>, ind: byte, h: byte, data: seq<byte>, last: bool)
    requires |data| + 2 > MAX
    ensures WithFragments(done, ind, h, data, last)
      == WithFragments(done + [Outgoing([ind, h] + data[..MAX - 2], false)], ind, h & 0x7F, data[MAX - 2..], last)
  {
    Associative(done, [Outgoing([ind, h] + data[..MAX - 2], false)], Fragments(ind, h & 0x7F, data[MAX - 2..], last));
  }

  lemma FragmentsEnd(done: seq<Outgoing>, ind: byte, h: byte, data: seq<byte>, last: bool)
    requires |data| + 2 <= MAX
    ensures WithFragments(done, ind, h, data, last) == done + [Outgoing([ind, h | 0x40] + data, last)]
  {
  }

  function FragmentNal(nal: Nal, last: bool): seq<Outgoing>
    requires nal != []
  {
    Fragments(28 | NriOf(nal[0]), TypeOf(nal[0]) | 0x80, nal[1..], last)
  }

  function Flushed(pending: seq<byte>): seq<Outgoing> {
    if pending == [] then [] else [Outgoing(pending, false)]
  }

  /** The STAP-A header once a unit starting with `first` has joined: the greater NRI, and F if either has it. */
  function JoinHeader(header: byte, first: byte): byte {
    var h := if NriOf(first) > NriOf(header) then (header & 0x9F) | NriOf(first) else header;
    h | FOf(first)
  }

  /** The buffer once its STAP-A header takes account of a unit starting with `first`. */
  function Headed(base: seq<byte>, first: byte): (s: seq<byte>)
    ensures |s| == if base == [] then 1 else |base|
  {
    if base == [] then [(24 | NriOf(first)) | FOf(first)] else base[0 := JoinHeader(base[0], first)]
  }

  function Aggregated(base: seq<byte>, nal: Nal): seq<byte>
    requires nal != [] && |nal| < 0x1_0000
  {
    Headed(base, nal[0]) + Entry(nal)
  }

  /** The units for which the aggregation buffer has room once it is empty. */
  predicate Room(aggregation: bool, nal: Nal) {
    aggregation ==> 0 < |nal| <= MAX - 3 || |nal| > MAX
  }

  function Send(aggregation: bool, pending: seq<byte>, nal: Nal, last: bool): Step
    requires Room(aggregation, nal)
  {
    if |nal| <= MAX then
      if aggregation then
        var full := |pending| + 2 + |nal| > MAX;
        var filled := Aggregated(if full then [] else pending, nal);
        var before := if full then [Outgoing(pending, false)] else [];
        if last then Step(before + [Outgoing(filled, true)], []) else Step(before, filled)
      else
        Step([Outgoing(nal, last)], [])
    else
      Step(Flushed(pending) + FragmentNal(nal, last), [])
  }

  /** Units wait to be aggregated as long as they fit one packet of 1400 bytes together, and no longer. */
  lemma WaitsWhileFits(pending: seq<byte>, nal: Nal, last: bool)
    requires 0 < |nal| <= 1397
    ensures var step, fits := Send(true, pending, nal, last), |pending| + 2 + |nal| <= 1400;
      |step.outs| == (if fits then 0 else 1) + (if last then 1 else 0) && (last <==> step.pending == [])
  {
  }

  predicate AllRoom(aggregation: bool, calls: seq<Call>) {
    forall c <- calls :: Room(aggregation, c.nal)
  }

  function Run(aggregation: bool, pending: seq<byte>, calls: seq<Call>): Step
    requires AllRoom(aggregation, calls)
    decreases |calls|
  {
    if calls == [] then Step([], pending)
    else
      var one := Send(aggregation, pending, calls[0].nal, calls[0].last);
      var others := Run(aggregation, one.pending, calls[1..]);
      Step(one.outs + others.outs, others.pending)
  }

  // ----- the receiver

  datatype Receiver = Receiver(nals: seq<Nal>, partial: Option<Nal>) | Refused

  function Receive(rx: Receiver, p: seq<byte>): Receiver {
    if rx.Refused? || p == [] then Refused
    else if TypeOf(p[0]) == 28 then ReceiveFragment(rx, p)
    else if rx.partial.Some? then Refused
    else if TypeOf(p[0]) == 24 then
      match ParseUnits(p[1..])
      case None => Refused
      case Some(us) => if us == [] then Refused else rx.(nals := rx.nals + us)
    else if 1 <= TypeOf(p[0]) <= 23 then rx.(nals := rx.nals + [p])
    else Refused
  }

  /** Section 5.8 of RFC 6184: S and E are not both set; F and NRI come from the FU indicator and the type from
      the FU header. */
  function ReceiveFragment(rx: Receiver, p: seq<byte>): Receiver
    requires rx.Receiver? && p != []
  {
    if |p| < 2 then Refused
    else
      var start, end := p[1] & 0x80 != 0, p[1] & 0x40 != 0;
      if (start && end) || start == rx.partial.Some? then Refused
      else
        var nal := (if start then [(p[0] & 0xE0) | (p[1] & 0x1F)] else rx.partial.value) + p[2..];
        if end then Receiver(rx.nals + [nal], None) else rx.(partial := Some(nal))
  }

  function ReceiveAll(rx: Receiver, ps: seq<Outgoing>): Receiver
    decreases |ps|
  {
    if ps == [] then rx else ReceiveAll(Receive(rx, ps[0].payload), ps[1..])
  }

  lemma {:induction false} ReceiveCons(rx: Receiver, p: Outgoing, ps: seq<Outgoing>)
    ensures ReceiveAll(rx, [p] + ps) == ReceiveAll(Receive(rx, p.payload), ps)
  {
    hide Receive;
    HeadTail([p], ps);
  }

  lemma {:induction false} ReceiveAppend(rx: Receiver, ps: seq<Outgoing>, qs: seq<Outgoing>)
    ensures ReceiveAll(rx, ps + qs) == ReceiveAll(ReceiveAll(rx, ps), qs)
    decreases |ps|
  {
    hide Receive;
    if ps == [] {
      assert ps + qs == qs;
    } else {
      ReceiveAppend(Receive(rx, ps[0].payload), ps[1..], qs);
      assert ps + qs == [ps[0]] + (ps[1..] + qs);
    }
  }

  lemma HeaderBits(h: byte)
    ensures TypeOf(28 | NriOf(h)) == 28 && TypeOf((24 | NriOf(h)) | FOf(h)) == 24
    ensures (h & 0x7F) & 0x80 == 0 && (h & 0x7F) & 0x40 == h & 0x40
    ensures (h | 0x40) & 0x40 != 0 && (h | 0x40) & 0x80 == h & 0x80
    ensures (TypeOf(h) | 0x80) & 0x80 != 0 && (TypeOf(h) | 0x80) & 0x40 == 0
    ensures ((TypeOf(h) | 0x80) & 0x7F) & 0xC0 == 0
    ensures ((28 | NriOf(h)) & 0xE0) | ((TypeOf(h) | 0x80) & 0x1F) == h & 0x7F
    ensures h & 0x7F == h <==> FOf(h) == 0
  {
  }

  // ----- fragmentation

  lemma {:induction false} FragmentShape(ind: byte, h: byte, data: seq<byte>, last: bool)
    requires data != [] && h & 0x40 == 0
    ensures var ps := Fragments(ind, h, data, last);
      && (MAX - 2) * (|ps| - 1) < |data| <= (MAX - 2) * |ps|
      && (forall i :: 0 <= i < |ps| ==> 3 <= |ps[i].payload| <= MAX && ps[i].payload[0] == ind)
      && (forall i :: 0 <= i < |ps| - 1 ==> |ps[i].payload| == MAX)
      && (forall i :: 0 <= i < |ps| ==> ((ps[i].payload[1] & 0x40 != 0) <==> i == |ps| - 1))
      && (forall i :: 0 <= i < |ps| ==> ((ps[i].payload[1] & 0x80 != 0) <==> i == 0 && h & 0x80 != 0))
      && (forall i :: 0 <= i < |ps| ==> (ps[i].marker <==> last && i == |ps| - 1))
    decreases |data|
  {
    HeaderBits(h);
    var ps := Fragments(ind, h, data, last);
    if |data| + 2 > MAX {
      FragmentShape(ind, h & 0x7F, data[MAX - 2..], last);
      var more := Fragments(ind, h & 0x7F, data[MAX - 2..], last);
      assert ps == [ps[0]] + more;
    }
  }

  lemma {:induction false} ReceiveRest(ns: seq<Nal>, sofar: Nal, ind: byte, h: byte, data: seq<byte>, last: bool)
    requires h & 0xC0 == 0 && TypeOf(ind) == 28
    ensures ReceiveAll(Receiver(ns, Some(sofar)), Fragments(ind, h, data, last)) == Receiver(ns + [sofar + data], None)
    decreases |data|
  {
    HeaderBits(h);
    hide TypeOf;
    var rx, ps := Receiver(ns, Some(sofar)), Fragments(ind, h, data, last);
    if |data| + 2 > MAX {
      var head, tail := data[..MAX - 2], data[MAX - 2..];
      assert ps[0].payload[2..] == head;
      assert Receive(rx, ps[0].payload) == Receiver(ns, Some(sofar + head));
      ReceiveRest(ns, sofar + head, ind, h & 0x7F, tail, last);
      assert sofar + data == sofar + head + tail;
    } else {
      assert ps[0].payload[2..] == data && ps[1..] == [];
      assert Receive(rx, ps[0].payload) == Receiver(ns + [sofar + data], None);
    }
  }

  /** A fragmented unit loses its F bit: the FU indicator is written without it. */
  function AsReceived(nal: Nal): Nal {
    if |nal| <= MAX then nal else [nal[0] & 0x7F] + nal[1..]
  }

  predicate HeaderKept(nal: Nal) {
    |nal| <= MAX || FOf(nal[0]) == 0
  }

  lemma AsReceivedExact(nal: Nal)
    ensures AsReceived(nal) == nal <==> HeaderKept(nal)
  {
    if |nal| > MAX {
      HeaderBits(nal[0]);
      assert nal == [nal[0]] + nal[1..];
      assert AsReceived(nal)[0] == nal[0] & 0x7F;
    }
  }

  lemma ReceiveFirst(ns: seq<Nal>, ind: byte, h: byte, head: seq<byte>)
    requires h & 0x80 != 0 && h & 0x40 == 0 && TypeOf(ind) == 28
    ensures Receive(Receiver(ns, None), [ind, h] + head)
         == Receiver(ns, Some([(ind & 0xE0) | (h & 0x1F)] + head))
  {
    hide TypeOf;
    var p := [ind, h] + head;
    assert p[0] == ind && p[1] == h && p[2..] == head;
  }

  lemma FragmentRoundTrip(ns: seq<Nal>, nal: Nal, last: bool)
    requires |nal| > MAX
    ensures ReceiveAll(Receiver(ns, None), FragmentNal(nal, last)) == Receiver(ns + [AsReceived(nal)], None)
  {
    var ind, h, data := 28 | NriOf(nal[0]), TypeOf(nal[0]) | 0x80, nal[1..];
    HeaderBits(nal[0]);
    var head, tail := data[..MAX - 2], data[MAX - 2..];
    assert AsReceived(nal) == [nal[0] & 0x7F] + data;
    hide TypeOf, Receive, AsReceived;
    assert data == head + tail;
    Associative([nal[0] & 0x7F], head, tail);
    assert Fragments(ind, h, data, last)
        == [Outgoing([ind, h] + head, false)] + Fragments(ind, h & 0x7F, tail, last);
    ReceiveFirst(ns, ind, h, head);
    ReceiveCons(Receiver(ns, None), Outgoing([ind, h] + head, false), Fragments(ind, h & 0x7F, tail, last));
    hide Fragments, ReceiveAll;
    ReceiveRest(ns, [(ind & 0xE0) | (h & 0x1F)] + head, ind, h & 0x7F, tail, last);
  }

  // ----- the aggregation buffer

  /** Section 5.7 of RFC 6184: type 24, the greatest NRI among the units, and F if one of them has it. */
  ghost predicate Summarises(header: byte, us: seq<Nal>) {
    && TypeOf(header) == 24
    && (forall u <- us :: u != [] && NriOf(u[0]) <= NriOf(header))
    && (exists u <- us :: u != [] && NriOf(u[0]) == NriOf(header))
    && (FOf(header) != 0 <==> exists u <- us :: u != [] && FOf(u[0]) != 0)
  }

  /** The buffer is empty, or holds a STAP-A packet whose header summarises its units. */
  ghost predicate WellFormed(pending: seq<byte>) {
    pending == [] ||
    (1 < |pending| <= MAX && ParseUnits(pending[1..]).Some? && Summarises(pending[0], ParseUnits(pending[1..]).value))
  }

  ghost function UnitsIn(pending: seq<byte>): (us: seq<Nal>)
    requires WellFormed(pending)
    ensures us == [] <==> pending == []
  {
    if pending == [] then [] else ParseUnits(pending[1..]).value
  }

  lemma JoinHeaderBits(h: byte, f: byte)
    ensures var j := JoinHeader(h, f);
      && TypeOf(j) == TypeOf(h)
      && NriOf(j) == (if NriOf(f) > NriOf(h) then NriOf(f) else NriOf(h))
      && (FOf(j) != 0 <==> FOf(h) != 0 || FOf(f) != 0)
  {
  }

  lemma FirstHeaderBits(f: byte)
    ensures var j := (24 | NriOf(f)) | FOf(f);
      TypeOf(j) == 24 && NriOf(j) == NriOf(f) && FOf(j) == FOf(f)
  {
  }

  lemma SummariseOne(u: Nal)
    requires u != []
    ensures Summarises((24 | NriOf(u[0])) | FOf(u[0]), [u])
  {
    FirstHeaderBits(u[0]);
    assert u in [u];
  }

  lemma SummariseMore(h: byte, us: seq<Nal>, u: Nal)
    requires u != [] && Summarises(h, us)
    ensures Summarises(JoinHeader(h, u[0]), us + [u])
  {
    JoinHeaderBits(h, u[0]);
    hide TypeOf, NriOf, FOf, JoinHeader;
    var all, j := us + [u], JoinHeader(h, u[0]);
    assert forall v :: v in all <==> v in us || v == u;
    if NriOf(j) == NriOf(u[0]) {
      assert u in all;
    } else {
      var v :| v in us && v != [] && NriOf(v[0]) == NriOf(h);
      assert v in all;
    }
    if FOf(h) != 0 {
      var v :| v in us && v != [] && FOf(v[0]) != 0;
      assert v in all;
    }
    if FOf(u[0]) != 0 { assert u in all; }
  }

  lemma Filled(base: seq<byte>, nal: Nal)
    requires WellFormed(base) && nal != []
    requires (if base == [] then 1 else |base|) + 2 + |nal| <= MAX
    ensures var filled := Aggregated(base, nal);
      WellFormed(filled) && filled != [] && UnitsIn(filled) == UnitsIn(base) + [nal]
  {
    hide Summarises, JoinHeader, TypeOf, NriOf, FOf, Entry, ParseUnits;
    var filled := Aggregated(base, nal);
    if base == [] {
      ParseNothing();
      ParseAppend([], nal);
      assert filled[1..] == [] + Entry(nal);
      assert [] + [nal] == [nal];
      SummariseOne(nal);
    } else {
      ParseAppend(base[1..], nal);
      assert filled[1..] == base[1..] + Entry(nal);
      assert |filled| == |base| + |Entry(nal)| && filled[0] == JoinHeader(base[0], nal[0]);
      SummariseMore(base[0], UnitsIn(base), nal);
    }
  }

  lemma ReceivePending(ns: seq<Nal>, pending: seq<byte>)
    requires WellFormed(pending)
    ensures ReceiveAll(Receiver(ns, None), Flushed(pending)) == Receiver(ns + UnitsIn(pending), None)
  {
    if pending == [] {
      assert ns + [] == ns;
    } else {
      assert Flushed(pending)[1..] == [];
      assert TypeOf(pending[0]) == 24;
      hide ParseUnits, TypeOf, Summarises;
      assert Receive(Receiver(ns, None), pending) == Receiver(ns + UnitsIn(pending), None);
    }
  }

  lemma ReceiveSingle(ns: seq<Nal>, nal: Nal, last: bool)
    requires nal != [] && 1 <= TypeOf(nal[0]) <= 23
    ensures ReceiveAll(Receiver(ns, None), [Outgoing(nal, last)]) == Receiver(ns + [nal], None)
  {
    assert [Outgoing(nal, last)][1..] == [];
    assert TypeOf(nal[0]) != 24 && TypeOf(nal[0]) != 28;
    hide TypeOf;
    assert Receive(Receiver(ns, None), nal) == Receiver(ns + [nal], None);
  }

  // ----- one call

  /** The types of NAL units proper, which a single NAL unit packet may carry. */
  predicate Plain(nal: Nal) {
    nal != [] && 1 <= TypeOf(nal[0]) <= 23
  }

  lemma StepAggregated(pending: seq<byte>, nal: Nal, last: bool, ns: seq<Nal>)
    requires WellFormed(pending) && nal != [] && |nal| <= MAX - 3
    ensures var step := Send(true, pending, nal, last);
      && WellFormed(step.pending) && (last ==> step.pending == [])
      && var rx := ReceiveAll(Receiver(ns, None), step.outs);
      && rx.Receiver? && rx.partial == None
      && rx.nals + UnitsIn(step.pending) == ns + UnitsIn(pending) + [nal]
  {
    hide Receive, ParseUnits, Entry, Aggregated;
    var full := |pending| + 2 + |nal| > MAX;
    var base := if full then [] else pending;
    var filled := Aggregated(base, nal);
    Filled(base, nal);
    hide WellFormed, UnitsIn;
    var before := if full then [Outgoing(pending, false)] else [];
    var sofar := ns + if full then UnitsIn(pending) else [];
    assert ReceiveAll(Receiver(ns, None), before) == Receiver(sofar, None) by {
      if full { ReceivePending(ns, pending); }
    }
    assert sofar + UnitsIn(filled) == ns + UnitsIn(pending) + [nal];
    if last {
      ReceivePending(sofar, filled);
      assert ReceiveAll(Receiver(sofar, None), [Outgoing(filled, true)])
          == ReceiveAll(Receiver(sofar, None), [Outgoing(filled, false)])
          by { MarkerIgnored(Receiver(sofar, None), filled); }
    }
    ReceiveAppend(Receiver(ns, None), before, [Outgoing(filled, true)]);
  }

  lemma {:induction false} MarkerIgnored(rx: Receiver, p: seq<byte>)
    ensures ReceiveAll(rx, [Outgoing(p, true)]) == ReceiveAll(rx, [Outgoing(p, false)])
  {
    assert [Outgoing(p, true)][1..] == [] == [Outgoing(p, false)][1..];
  }

  /** The guard under which a call loses bytes: the unit goes out alone, so rtpSendData drops whatever was pending; or
      its type is not one that a single NAL unit packet may carry. */
  predicate Lossy(aggregation: bool, pending: seq<byte>, nal: Nal) {
    |nal| <= MAX && !aggregation && (pending != [] || !Plain(nal))
  }

  lemma StepReceived(aggregation: bool, pending: seq<byte>, nal: Nal, last: bool, ns: seq<Nal>)
    requires WellFormed(pending) && Room(aggregation, nal) && !Lossy(aggregation, pending, nal)
    ensures var step := Send(aggregation, pending, nal, last);
      && WellFormed(step.pending)
      && var rx := ReceiveAll(Receiver(ns, None), step.outs);
      && rx.Receiver? && rx.partial == None
      && rx.nals + UnitsIn(step.pending) == ns + UnitsIn(pending) + [AsReceived(nal)]
  {
    if |nal| > MAX {
      ReceivePending(ns, pending);
      ReceiveAppend(Receiver(ns, None), Flushed(pending), FragmentNal(nal, last));
      FragmentRoundTrip(ns + UnitsIn(pending), nal, last);
    } else if aggregation {
      StepAggregated(pending, nal, last, ns);
    } else {
      ReceiveSingle(ns, nal, last);
    }
  }

  lemma StepWellFormed(aggregation: bool, pending: seq<byte>, nal: Nal, last: bool)
    requires WellFormed(pending) && Room(aggregation, nal)
    ensures WellFormed(Send(aggregation, pending, nal, last).pending)
    ensures last || !aggregation ==> Send(aggregation, pending, nal, last).pending == []
  {
    hide Aggregated;
    if |nal| <= MAX && aggregation {
      Filled(if |pending| + 2 + |nal| > MAX then [] else pending, nal);
    }
  }

  // ----- whole runs

  predicate NoneLossy(aggregation: bool, pending: seq<byte>, calls: seq<Call>)
    requires AllRoom(aggregation, calls)
    decreases |calls|
  {
    calls == [] ||
    (!Lossy(aggregation, pending, calls[0].nal) &&
     NoneLossy(aggregation, Send(aggregation, pending, calls[0].nal, calls[0].last).pending, calls[1..]))
  }

  predicate HeadersKept(calls: seq<Call>) {
    forall c <- calls :: HeaderKept(c.nal)
  }

  function AllAsReceived(calls: seq<Call>): (ns: seq<Nal>)
    ensures |ns| == |calls|
    ensures forall i :: 0 <= i < |calls| ==> ns[i] == AsReceived(calls[i].nal)
  {
    if calls == [] then [] else [AsReceived(calls[0].nal)] + AllAsReceived(calls[1..])
  }

  /** The buffer is well formed after any run, and empty after one that ends with the flag. */
  lemma {:induction false} RunWellFormed(aggregation: bool, pending: seq<byte>, calls: seq<Call>)
    requires WellFormed(pending) && AllRoom(aggregation, calls)
    ensures WellFormed(Run(aggregation, pending, calls).pending)
    ensures calls != [] && calls[|calls| - 1].last ==> Run(aggregation, pending, calls).pending == []
    decreases |calls|
  {
    if calls != [] {
      hide WellFormed, Send;
      StepWellFormed(aggregation, pending, calls[0].nal, calls[0].last);
      RunWellFormed(aggregation, Send(aggregation, pending, calls[0].nal, calls[0].last).pending, calls[1..]);
    }
  }

  lemma {:induction false} RunReceived(aggregation: bool, pending: seq<byte>, calls: seq<Call>, ns: seq<Nal>)
    requires WellFormed(pending) && AllRoom(aggregation, calls) && NoneLossy(aggregation, pending, calls)
    ensures var run := Run(aggregation, pending, calls);
      && WellFormed(run.pending)
      && var rx := ReceiveAll(Receiver(ns, None), run.outs);
      && rx.Receiver? && rx.partial == None
      && rx.nals + UnitsIn(run.pending) == ns + UnitsIn(pending) + AllAsReceived(calls)
    decreases |calls|
  {
    hide WellFormed, UnitsIn, Send, Receive, AsReceived, Lossy;
    if calls == [] {
      assert ns + UnitsIn(pending) + [] == ns + UnitsIn(pending);
    } else {
      var one := Send(aggregation, pending, calls[0].nal, calls[0].last);
      StepReceived(aggregation, pending, calls[0].nal, calls[0].last, ns);
      var rx := ReceiveAll(Receiver(ns, None), one.outs);
      var others := Run(aggregation, one.pending, calls[1..]);
      assert Run(aggregation, pending, calls) == Step(one.outs + others.outs, others.pending);
      assert AllAsReceived(calls) == [AsReceived(calls[0].nal)] + AllAsReceived(calls[1..]);
      hide Run, ReceiveAll, AllAsReceived;
      RunReceived(aggregation, one.pending, calls[1..], rx.nals);
      ReceiveAppend(Receiver(ns, None), one.outs, others.outs);
      Associative(ns + UnitsIn(pending), [AsReceived(calls[0].nal)], AllAsReceived(calls[1..]));
    }
  }

  // ----- an upper bound on what any receiver can take out of a packet

  function Bulk(p: seq<byte>): nat {
    if p == [] then 0
    else if TypeOf(p[0]) == 28 then (if |p| < 2 then 0 else if p[1] & 0x80 != 0 then |p| else |p| - 2)
    else if TypeOf(p[0]) == 24 then (if ParseUnits(p[1..]).Some? then Weight(ParseUnits(p[1..]).value) else 0)
    else if 1 <= TypeOf(p[0]) <= 23 then |p| + 1
    else 0
  }

  function BulkAll(ps: seq<Outgoing>): nat {
    if ps == [] then 0 else Bulk(ps[0].payload) + BulkAll(ps[1..])
  }

  lemma {:induction false} BulkAppend(ps: seq<Outgoing>, qs: seq<Outgoing>)
    ensures BulkAll(ps + qs) == BulkAll(ps) + BulkAll(qs)
  {
    hide Bulk;
    if ps == [] {
      assert ps + qs == qs;
    } else {
      BulkAppend(ps[1..], qs);
      assert ps + qs == [ps[0]] + (ps[1..] + qs);
    }
  }

  function Held(rx: Receiver): nat
    requires rx.Receiver?
  {
    Weight(rx.nals) + if rx.partial.Some? then |rx.partial.value| + 1 else 0
  }

  lemma ReceiveBulk(rx: Receiver, p: seq<byte>)
    requires Receive(rx, p).Receiver?
    ensures rx.Receiver? && Held(Receive(rx, p)) <= Held(rx) + Bulk(p)
  {
    hide ParseUnits;
    if TypeOf(p[0]) == 28 {
      var nal := (if rx.partial.None? then [(p[0] & 0xE0) | (p[1] & 0x1F)] else rx.partial.value) + p[2..];
      TotalAppend(rx.nals, [nal]);
    } else if TypeOf(p[0]) == 24 {
      TotalAppend(rx.nals, ParseUnits(p[1..]).value);
    } else {
      TotalAppend(rx.nals, [p]);
    }
  }

  lemma {:induction false} ReceiveAllBulk(rx: Receiver, ps: seq<Outgoing>)
    requires ReceiveAll(rx, ps).Receiver?
    ensures rx.Receiver? && Held(ReceiveAll(rx, ps)) <= Held(rx) + BulkAll(ps)
    decreases |ps|
  {
    hide Receive, Bulk, Held;
    if ps != [] {
      ReceiveAllBulk(Receive(rx, ps[0].payload), ps[1..]);
      ReceiveBulk(rx, ps[0].payload);
    }
  }

  lemma {:induction false} FragmentsBulk(ind: byte, h: byte, data: seq<byte>, last: bool)
    requires TypeOf(ind) == 28 && h & 0x40 == 0
    ensures BulkAll(Fragments(ind, h, data, last)) == |data| + if h & 0x80 != 0 then 2 else 0
    decreases |data|
  {
    HeaderBits(h);
    FuBits(h);
    var ps := Fragments(ind, h, data, last);
    if |data| + 2 > MAX {
      FragmentsBulk(ind, h & 0x7F, data[MAX - 2..], last);
      assert ps[1..] == Fragments(ind, h & 0x7F, data[MAX - 2..], last);
    } else {
      assert ps[1..] == [];
    }
  }

  lemma FuBits(h: byte)
    ensures (h & 0x7F) & 0x80 == 0 && (h & 0x7F) & 0x40 == h & 0x40 && (h | 0x40) & 0x80 == h & 0x80
  {
  }

  lemma PendingBulk(pending: seq<byte>)
    requires WellFormed(pending)
    ensures BulkAll(Flushed(pending)) == Weight(UnitsIn(pending))
  {
    if pending != [] {
      assert TypeOf(pending[0]) == 24;
      assert Flushed(pending)[1..] == [];
    }
  }

  lemma SingleBulk(nal: Nal)
    ensures Bulk(nal) <= |nal| + 1
    ensures !Plain(nal) ==> Bulk(nal) <= |nal|
  {
  }

  lemma AggregatedBulk(pending: seq<byte>, nal: Nal, last: bool)
    requires WellFormed(pending) && nal != [] && |nal| <= MAX - 3
    ensures var step := Send(true, pending, nal, last);
      && WellFormed(step.pending)
      && BulkAll(step.outs) + Weight(UnitsIn(step.pending)) == Weight(UnitsIn(pending)) + |nal| + 1
  {
    hide ParseUnits, Entry, Bulk, Aggregated;
    var full := |pending| + 2 + |nal| > MAX;
    var base := if full then [] else pending;
    var filled := Aggregated(base, nal);
    Filled(base, nal);
    PendingBulk(pending);
    PendingBulk(filled);
    TotalAppend(UnitsIn(base), [nal]);
    assert Weight(UnitsIn(filled)) == Weight(UnitsIn(base)) + |nal| + 1;
    hide WellFormed, UnitsIn;
    var before, out := if full then [Outgoing(pending, false)] else [], Outgoing(filled, true);
    assert [out][1..] == [] == Flushed(filled)[1..];
    assert BulkAll(before) == if full then BulkAll(Flushed(pending)) else 0;
    BulkAppend(before, [out]);
  }

  /** A lossy call puts less on the wire and in the buffer than went in. */
  lemma StepBulk(aggregation: bool, pending: seq<byte>, nal: Nal, last: bool)
    requires WellFormed(pending) && Room(aggregation, nal)
    ensures var step := Send(aggregation, pending, nal, last);
      && WellFormed(step.pending)
      && var after := BulkAll(step.outs) + Weight(UnitsIn(step.pending));
      && var before := Weight(UnitsIn(pending)) + |nal| + 1;
      && after <= before
      && (Lossy(aggregation, pending, nal) ==> after < before)
  {
    if |nal| > MAX {
      PendingBulk(pending);
      HeaderBits(nal[0]);
      FragmentsBulk(28 | NriOf(nal[0]), TypeOf(nal[0]) | 0x80, nal[1..], last);
      BulkAppend(Flushed(pending), FragmentNal(nal, last));
    } else if aggregation {
      AggregatedBulk(pending, nal, last);
    } else {
      assert [Outgoing(nal, last)][1..] == [];
      SingleBulk(nal);
    }
  }

  lemma {:induction false} RunBulk(aggregation: bool, pending: seq<byte>, calls: seq<Call>)
    requires WellFormed(pending) && AllRoom(aggregation, calls)
    ensures var run := Run(aggregation, pending, calls);
      && WellFormed(run.pending)
      && var after := BulkAll(run.outs) + Weight(UnitsIn(run.pending));
      && var before := Weight(UnitsIn(pending)) + Weight(Nals(calls));
      && after <= before
      && (!NoneLossy(aggregation, pending, calls) ==> after < before)
    decreases |calls|
  {
    hide WellFormed, UnitsIn, Send, Bulk, Lossy, Room;
    if calls != [] {
      assert calls[0] in calls && forall c <- calls[1..] :: c in calls;
      var one := Send(aggregation, pending, calls[0].nal, calls[0].last);
      StepBulk(aggregation, pending, calls[0].nal, calls[0].last);
      var others := Run(aggregation, one.pending, calls[1..]);
      RunBulk(aggregation, one.pending, calls[1..]);
      BulkAppend(one.outs, others.outs);
      assert Nals(calls)[1..] == Nals(calls[1..]);
    }
  }

  // ----- the main results

  /** The receiver ends up idle, and its units followed by those still in the buffer are exactly the units it had,
      those that were pending before, and those submitted, in order. */
  ghost predicate Conserved(aggregation: bool, pending: seq<byte>, calls: seq<Call>, ns: seq<Nal>)
    requires WellFormed(pending) && AllRoom(aggregation, calls)
  {
    RunWellFormed(aggregation, pending, calls);
    var run := Run(aggregation, pending, calls);
    var rx := ReceiveAll(Receiver(ns, None), run.outs);
    rx.Receiver? && rx.partial == None && rx.nals + UnitsIn(run.pending) == ns + UnitsIn(pending) + Nals(calls)
  }

  /** Conservation over whole runs holds exactly when no call meets the guard of the lossy branch and no fragmented unit
      has its F bit set. */
  lemma {:induction false} RunConserves(aggregation: bool, pending: seq<byte>, calls: seq<Call>, ns: seq<Nal>)
    requires WellFormed(pending) && AllRoom(aggregation, calls)
    ensures Conserved(aggregation, pending, calls, ns) <==>
      NoneLossy(aggregation, pending, calls) && HeadersKept(calls)
  {
    hide WellFormed, UnitsIn, Receive, Bulk, Lossy, AsReceived, HeaderKept, Send;
    RunWellFormed(aggregation, pending, calls);
    var run := Run(aggregation, pending, calls);
    var rx := ReceiveAll(Receiver(ns, None), run.outs);
    var had := ns + UnitsIn(pending);
    if NoneLossy(aggregation, pending, calls) {
      RunReceived(aggregation, pending, calls, ns);
      CancelLeft(had, AllAsReceived(calls), Nals(calls));
      HeadersExact(calls);
    } else if rx.Receiver? && rx.partial == None {
      RunBulk(aggregation, pending, calls);
      ReceiveAllBulk(Receiver(ns, None), run.outs);
      TotalAppend(rx.nals, UnitsIn(run.pending));
      TotalAppend(ns, UnitsIn(pending));
      TotalAppend(had, Nals(calls));
    }
  }

  lemma {:induction false} HeadersExact(calls: seq<Call>)
    ensures AllAsReceived(calls) == Nals(calls) <==> HeadersKept(calls)
  {
    hide AsReceived, HeaderKept;
    forall c <- calls ensures HeaderKept(c.nal) <==> AsReceived(c.nal) == c.nal {
      AsReceivedExact(c.nal);
    }
    if AllAsReceived(calls) == Nals(calls) {
      forall c <- calls ensures HeaderKept(c.nal) {
        var i :| 0 <= i < |calls| && calls[i] == c;
        assert AllAsReceived(calls)[i] == Nals(calls)[i];
      }
    }
  }

  /** The condition on the calls alone: with aggregation off all units sent whole must have types 1 to 23, and what is
      pending needs a unit sent in fragments first, which flushes it; with aggregation on any types will do. */
  lemma {:induction false} NoneLossyExact(aggregation: bool, pending: seq<byte>, calls: seq<Call>)
    requires AllRoom(aggregation, calls)
    ensures NoneLossy(aggregation, pending, calls) <==>
      aggregation || ((pending != [] && calls != [] ==> |calls[0].nal| > MAX)
                      && forall c <- calls :: |c.nal| <= MAX ==> Plain(c.nal))
    decreases |calls|
  {
    if calls != [] {
      assert calls[0] in calls && forall c :: c in calls <==> c == calls[0] || c in calls[1..];
      hide Plain, Aggregated;
      NoneLossyExact(aggregation, Send(aggregation, pending, calls[0].nal, calls[0].last).pending, calls[1..]);
    }
  }

  // ----- the marker bit

  predicate NoMarker(outs: seq<Outgoing>) {
    forall o <- outs :: !o.marker
  }

  predicate MarksLastOnly(outs: seq<Outgoing>) {
    outs != [] && outs[|outs| - 1].marker && NoMarker(outs[..|outs| - 1])
  }

  lemma MarksAppend(a: seq<Outgoing>, b: seq<Outgoing>)
    requires NoMarker(a)
    ensures NoMarker(b) ==> NoMarker(a + b)
    ensures MarksLastOnly(b) ==> MarksLastOnly(a + b)
  {
    assert b != [] ==> (a + b)[..|a + b| - 1] == a + b[..|b| - 1];
  }

  lemma {:induction false} FragmentMarks(ind: byte, h: byte, data: seq<byte>, last: bool)
    ensures var ps := Fragments(ind, h, data, last);
      if last then MarksLastOnly(ps) else NoMarker(ps)
    decreases |data|
  {
    if |data| + 2 > MAX {
      FragmentMarks(ind, h & 0x7F, data[MAX - 2..], last);
      MarksAppend([Outgoing([ind, h] + data[..MAX - 2], false)], Fragments(ind, h & 0x7F, data[MAX - 2..], last));
    }
  }

  lemma StepMarks(aggregation: bool, pending: seq<byte>, nal: Nal, last: bool)
    requires Room(aggregation, nal)
    ensures var step := Send(aggregation, pending, nal, last);
      if last then MarksLastOnly(step.outs) else NoMarker(step.outs)
  {
    hide Aggregated;
    if |nal| > MAX {
      FragmentMarks(28 | NriOf(nal[0]), TypeOf(nal[0]) | 0x80, nal[1..], last);
      MarksAppend(Flushed(pending), FragmentNal(nal, last));
    }
  }

  /** When only the final call is flagged, exactly the final packet of the run carries the marker. */
  lemma {:induction false} RunMarks(aggregation: bool, pending: seq<byte>, calls: seq<Call>)
    requires AllRoom(aggregation, calls) && calls != []
    requires forall i :: 0 <= i < |calls| ==> (calls[i].last <==> i == |calls| - 1)
    ensures MarksLastOnly(Run(aggregation, pending, calls).outs)
    decreases |calls|
  {
    hide Send, MarksLastOnly, NoMarker;
    var one := Send(aggregation, pending, calls[0].nal, calls[0].last);
    StepMarks(aggregation, pending, calls[0].nal, calls[0].last);
    var others := Run(aggregation, one.pending, calls[1..]);
    if |calls| == 1 {
      assert one.outs + others.outs == one.outs;
    } else {
      RunMarks(aggregation, one.pending, calls[1..]);
      MarksAppend(one.outs, others.outs);
    }
  }

  // ----- call by call

  /** What each call of a run emits. */
  function Batches(aggregation: bool, pending: seq<byte>, calls: seq<Call>): (bs: seq<seq<Outgoing>>)
    requires AllRoom(aggregation, calls)
    ensures Flatten(bs) == Run(aggregation, pending, calls).outs
    decreases |calls|
  {
    if calls == [] then [] else
      var one := Send(aggregation, pending, calls[0].nal, calls[0].last);
      [one.outs] + Batches(aggregation, one.pending, calls[1..])
  }


  lemma {:induction false} FragmentsSmall(ind: byte, h: byte, data: seq<byte>, last: bool)
    ensures Small(Fragments(ind, h, data, last))
    decreases |data|
  {
    if |data| + 2 > MAX {
      FragmentsSmall(ind, h & 0x7F, data[MAX - 2..], last);
    }
  }

  /** Nothing sent, and nothing left pending, exceeds RTP_PAYLOAD_MAX. */
  lemma SendSmall(aggregation: bool, pending: seq<byte>, nal: Nal, last: bool)
    requires |pending| <= MAX && Room(aggregation, nal)
    ensures var step := Send(aggregation, pending, nal, last);
      Small(step.outs) && |step.pending| <= MAX
  {
    if |nal| > MAX {
      FragmentsSmall(28 | NriOf(nal[0]), TypeOf(nal[0]) | 0x80, nal[1..], last);
    }
  }

  lemma {:induction false} RunSmall(aggregation: bool, pending: seq<byte>, calls: seq<Call>)
    requires |pending| <= MAX && AllRoom(aggregation, calls)
    ensures AllSmall(Batches(aggregation, pending, calls))
    ensures |Run(aggregation, pending, calls).pending| <= MAX
    decreases |calls|
  {
    hide Send, Small;
    if calls != [] {
      SendSmall(aggregation, pending, calls[0].nal, calls[0].last);
      RunSmall(aggregation, Send(aggregation, pending, calls[0].nal, calls[0].last).pending, calls[1..]);
    }
  }

  lemma {:induction false} RunCons(aggregation: bool, pending: seq<byte>, c: Call, calls: seq<Call>)
    requires AllRoom(aggregation, [c] + calls)
    ensures Room(aggregation, c.nal) && AllRoom(aggregation, calls)
    ensures var step := Send(aggregation, pending, c.nal, c.last);
      && Batches(aggregation, pending, [c] + calls) == [step.outs] + Batches(aggregation, step.pending, calls)
      && Run(aggregation, pending, [c] + calls).pending == Run(aggregation, step.pending, calls).pending
  {
    hide Send, Room;
    HeadTail([c], calls);
    assert c in [c] + calls && forall d <- calls :: d in [c] + calls;
  }
}
