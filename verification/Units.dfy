/** NAL units, and the length-prefixed unit lists that aggregation packets carry (section 4.4.2 of RFC 7798,
    section 5.7.1 of RFC 6184). */
module Units {
  import opened Bytes
  import opened Sequences
  import opened Wrappers

  type Nal = seq<byte>

  /** RTP_PAYLOAD_MAX */
  const MAX := 1400

  /** A call of one of the NAL senders. */
  datatype Call = Call(nal: Nal, last: bool)

  function Nals(calls: seq<Call>): (ns: seq<Nal>)
    ensures |ns| == |calls|
    ensures forall i :: 0 <= i < |calls| ==> ns[i] == calls[i].nal
  {
    if calls == [] then [] else [calls[0].nal] + Nals(calls[1..])
  }

  /** One entry: a 16-bit length, then the unit. */
  function Entry(u: Nal): (e: seq<byte>)
    requires |u| < 0x1_0000
    ensures |e| == 2 + |u|
  {
    Be16(|u|) + u
  }

  /** The units a receiver reads out of a list of entries. */
  function ParseUnits(s: seq<byte>): (r: Option<seq<Nal>>)
    ensures r.Some? ==> Total(r.value) + 2 * |r.value| == |s|
    decreases |s|
  {
    if s == [] then Some([])
    else if |s| < 2 then None
    else
      var n := FromBe16(s[0], s[1]);
      if |s| < 2 + n then None
      else match ParseUnits(s[2 + n..])
        case None => None
        case Some(us) => Some([s[2..2 + n]] + us)
  }

  /** Bytes in a list of units, counting one more for each unit. */
  function Weight(us: seq<Nal>): nat {
    Total(us) + |us|
  }

  /** Bytes in a list of units. */
  function Total(us: seq<Nal>): nat {
    if us == [] then 0 else |us[0]| + Total(us[1..])
  }

  lemma {:induction false} TotalAppend(us: seq<Nal>, vs: seq<Nal>)
    ensures Total(us + vs) == Total(us) + Total(vs)
  {
    if us == [] {
      assert us + vs == vs;
    } else {
      TotalAppend(us[1..], vs);
      assert us + vs == [us[0]] + (us[1..] + vs);
    }
  }

  lemma ParseNothing()
    ensures ParseUnits([]) == Some([])
  {
  }

  /** One entry at the front reads as one unit before whatever the others read as. */
  lemma {:induction false} ParseEntry(u: Nal, s: seq<byte>)
    requires |u| < 0x1_0000
    ensures ParseUnits(Entry(u) + s) ==
      if ParseUnits(s).None? then None else Some([u] + ParseUnits(s).value)
  {
    hide FromBe16, Be16;
    var t := Entry(u) + s;
    Be16RoundTrip(|u|);
    assert t[2..2 + |u|] == u && t[2 + |u|..] == s;
  }

  lemma CutEntry(s: seq<byte>, n: nat)
    requires 2 <= |s| && n == FromBe16(s[0], s[1]) && 2 + n <= |s|
    ensures s == Entry(s[2..2 + n]) + s[2 + n..]
  {
    hide FromBe16, Be16;
    Be16Unique(s[0], s[1]);
    assert s[..2] == Be16(n);
    assert s == s[..2] + s[2..2 + n] + s[2 + n..];
  }

  /** A list that parses starts with an entry. */
  lemma {:induction false} FirstEntry(s: seq<byte>)
    requires s != [] && ParseUnits(s).Some?
    ensures ParseUnits(s).value != []
    ensures var u := ParseUnits(s).value[0];
      && |u| < 0x1_0000 && |u| + 2 <= |s|
      && s == Entry(u) + s[2 + |u|..]
      && ParseUnits(s[2 + |u|..]) == Some(ParseUnits(s).value[1..])
  {
    hide FromBe16, Entry;
    var n := FromBe16(s[0], s[1]);
    assert ParseUnits(s) == Some([s[2..2 + n]] + ParseUnits(s[2 + n..]).value);
    hide ParseUnits;
    CutEntry(s, n);
  }

  /** Writing an entry after the others adds its unit after the others. */
  lemma {:induction false} ParseAppend(s: seq<byte>, u: Nal)
    requires ParseUnits(s).Some? && |u| < 0x1_0000
    ensures ParseUnits(s + Entry(u)) == Some(ParseUnits(s).value + [u])
    decreases |s|
  {
    if s == [] {
      ParseEntry(u, []);
      ParseNothing();
      assert [] + Entry(u) == Entry(u) + [];
      assert [u] + [] == [] + [u];
    } else {
      hide ParseUnits, Entry;
      FirstEntry(s);
      var us := ParseUnits(s).value;
      var rest := s[2 + |us[0]|..];
      ParseAppend(rest, u);
      ParseEntry(us[0], rest + Entry(u));
      Associative(Entry(us[0]), rest, Entry(u));
      Associative([us[0]], us[1..], [u]);
      assert [us[0]] + us[1..] == us;
    }
  }
}
