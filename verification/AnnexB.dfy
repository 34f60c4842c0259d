/** The byte stream format of Annex B of ITU-T H.265 and H.264, and the splitting that the driver loops
    of src/RTPEnc.cpp perform on it. */
module AnnexB {
  import opened Bytes
  import opened Sequences
  import opened StartCode
  import opened Units

  /** A NAL unit with the kind of start code written before it. */
  datatype Unit = Unit(nal: Nal, long: bool)

  function Code(long: bool): (c: seq<byte>)
    ensures |c| == if long then 4 else 3
  {
    if long then [0, 0, 0, 1] else [0, 0, 1]
  }

  function Join(us: seq<Unit>): (s: seq<byte>)
    ensures us == [] <==> s == []
  {
    if us == [] then [] else Code(us[0].long) + us[0].nal + Join(us[1..])
  }

  /** The units as the driver hands them on: the flag on the final one says that no start code follows. */
  function Calls(us: seq<Unit>): (ps: seq<Call>)
    ensures |ps| == |us|
    ensures forall i :: 0 <= i < |us| ==> ps[i] == Call(us[i].nal, i == |us| - 1)
  {
    if us == [] then [] else [Call(us[0].nal, |us| == 1)] + Calls(us[1..])
  }

  // ----- splitting, on values

  /** Index just after the first non-zero byte: where the loop that skips a start code stops. */
  function SkipCode(t: seq<byte>): (n: nat)
    ensures n <= |t| + 1
    ensures t != [] ==> 0 < n
    ensures forall i :: 0 <= i < n - 1 ==> t[i] == 0
    ensures n <= |t| && 0 < n ==> t[n - 1] != 0
  {
    if t == [] then 1 else if t[0] != 0 then 1 else 1 + SkipCode(t[1..])
  }

  /** t starts with a start code that something follows, as every place where FindCode stops does. */
  predicate AtCode(t: seq<byte>) {
    (|t| >= 3 && CodeAt(t, 0)) || (|t| >= 4 && t[0] == 0 && CodeAt(t, 1))
  }

  function SplitAtCode(t: seq<byte>): (ps: seq<Call>)
    requires t != [] ==> AtCode(t)
    decreases |t|
  {
    if t == [] then []
    else
      SkipStopsAtOne(t);
      var body := t[SkipCode(t)..];
      var n := FindCode(body);
      assert n < |body| ==> AtCode(body[n..]) by { FindCodeStops(body); }
      [Call(body[..n], n == |body|)] + SplitAtCode(body[n..])
  }

  function Split(s: seq<byte>): seq<Call> {
    FindCodeStops(s);
    SplitAtCode(s[FindCode(s)..])
  }

  lemma {:induction false} SkipStopsAtOne(t: seq<byte>)
    requires AtCode(t)
    ensures SkipCode(t) == if CodeAt(t, 0) then 3 else 4
    ensures SkipCode(t) <= |t|
  {
    hide SkipCode;
    var n := SkipCode(t);
    assert t[0] == 0 && t[1] == 0;
    if n <= |t| { assert t[n - 1] != 0; }
  }

  lemma FindCodeStops(t: seq<byte>)
    ensures FindCode(t) < |t| ==> AtCode(t[FindCode(t)..])
  {
    var r := FindCode(t);
    if r < |t| {
      var u := t[r..];
      assert CodeAt(t, r) ==> CodeAt(u, 0);
      assert r + 4 < |t| && CodeAt(t, r + 1) ==> CodeAt(u, 1);
    }
  }

  lemma {:induction false} FindAtEnd(nal: Nal)
    ensures FindCode(nal) == |nal| <==> FirstCode(nal) == |nal|
  {
  }

  /** The loop that skips a start code. */
  method SkipStartCode(s: seq<byte>, from: nat) returns (r: nat)
    requires from < |s| && AtCode(s[from..])
    ensures r == from + SkipCode(s[from..]) && from < r <= |s|
  {
    SkipStopsAtOne(s[from..]);
    hide AtCode;
    r := from;
    var zero := true;
    while zero
      invariant from <= r <= |s|
      invariant zero ==> r < |s| && r + SkipCode(s[r..]) == from + SkipCode(s[from..])
      invariant !zero ==> r == from + SkipCode(s[from..])
      decreases |s| - r, zero
    {
      zero := s[r] == 0;
      assert s[r..][1..] == s[r + 1..];
      r := r + 1;
    }
  }

  lemma {:induction false} TurnAtCode(t: seq<byte>, body: seq<byte>, n: nat)
    requires AtCode(t) && SkipCode(t) <= |t| && body == t[SkipCode(t)..] && n == FindCode(body)
    ensures n < |body| ==> AtCode(body[n..])
    ensures SplitAtCode(t) == [Call(body[..n], n == |body|)] + SplitAtCode(body[n..])
  {
    FindCodeStops(body);
    assert t != [];
    hide FindCode, SkipCode, AtCode;
  }

  /** One turn of a driver loop, in terms of positions in the stream. */
  lemma DriverTurn(s: seq<byte>, r: nat, nal: nat, r1: nat)
    requires r < nal <= r1 <= |s| && AtCode(s[r..])
    requires nal == r + SkipCode(s[r..]) && r1 == nal + FindCode(s[nal..])
    ensures r1 < |s| ==> AtCode(s[r1..])
    ensures SplitAtCode(s[r..]) == [Call(s[nal..r1], r1 == |s|)] + SplitAtCode(s[r1..])
  {
    hide FindCode, SkipCode, AtCode, SplitAtCode;
    var body := s[nal..];
    assert body == s[r..][nal - r..];
    TurnAtCode(s[r..], body, r1 - nal);
    assert body[r1 - nal..] == s[r1..] && body[..r1 - nal] == s[nal..r1];
  }

  // ----- when splitting undoes joining

  ghost predicate CodeFree(nal: Nal) {
    forall i: nat :: !CodeAt(nal, i)
  }

  /** A unit comes back whole from before a start code of the given kind if it holds no start code
      and, before a 3-byte code, does not end in a zero byte. */
  ghost predicate SafeBefore(nal: Nal, nextLong: bool) {
    CodeFree(nal) && (nextLong || nal == [] || nal[|nal| - 1] != 0)
  }

  /** The final unit must not be empty; a start code in its last three bytes does no harm. */
  predicate SafeAtEnd(nal: Nal) {
    nal != [] && FirstCode(nal) == |nal|
  }

  ghost predicate Recoverable(us: seq<Unit>) {
    if us == [] then true
    else if |us| == 1 then SafeAtEnd(us[0].nal)
    else SafeBefore(us[0].nal, us[1].long) && Recoverable(us[1..])
  }

  /** Where the scan stops in a unit followed by another one: at its end exactly if the unit is safe
      and the following start code is not the very end of the stream. */
  lemma FindInBody(nal: Nal, long: bool, rest: seq<byte>)
    ensures FindCode(nal + Code(long) + rest) == |nal| <==> SafeBefore(nal, long) && rest != []
  {
    hide FirstCode;
    var t := nal + Code(long) + rest;
    var at := if long then |nal| + 1 else |nal|;
    assert CodeAt(t, at);
    assert forall i: nat :: i + 3 <= |nal| ==> CodeAt(nal, i) == CodeAt(t, i);
    assert forall i: nat | i < at :: i + 3 > |nal| ==> !CodeAt(t, i);
    if rest != [] {
      if CodeFree(nal) {
        FirstCodeIs(t, at);
        if nal != [] { assert t[|nal| - 1] == nal[|nal| - 1]; }
      } else {
        var i: nat :| CodeAt(nal, i);
        assert CodeAt(t, i);
        assert FirstCode(t) <= i;
      }
    }
  }

  lemma {:induction false} CodeIsAtCode(long: bool, rest: seq<byte>)
    ensures AtCode(Code(long) + rest) && SkipCode(Code(long) + rest) == |Code(long)|
  {
    var t := Code(long) + rest;
    assert if long then CodeAt(t, 1) && t[2] == 0 else CodeAt(t, 0);
    SkipStopsAtOne(t);
  }

  lemma FindFirstCode(long: bool, rest: seq<byte>)
    ensures FindCode(Code(long) + rest) == 0 <==> rest != []
  {
    assert [] + Code(long) + rest == Code(long) + rest;
    assert SafeBefore([], long);
    FindInBody([], long, rest);
  }

  /** What one step of the split sees of a joined stream. */
  lemma {:induction false} SplitStep(long: bool, body: seq<byte>)
    ensures AtCode(Code(long) + body)
    ensures var n := FindCode(body);
      && (n < |body| ==> AtCode(body[n..]))
      && SplitAtCode(Code(long) + body) == [Call(body[..n], n == |body|)] + SplitAtCode(body[n..])
  {
    hide FindCode, SkipCode, AtCode;
    CodeIsAtCode(long, body);
    FindCodeStops(body);
    assert (Code(long) + body)[|Code(long)|..] == body;
  }

  /** Where the scan stops after the first start code of a joined stream. */
  lemma FindAfterFirst(us: seq<Unit>)
    requires us != []
    ensures FindCode(us[0].nal + Join(us[1..])) == |us[0].nal| <==>
      if |us| == 1 then FirstCode(us[0].nal) == |us[0].nal|
      else SafeBefore(us[0].nal, us[1].long) && (|us| > 2 || us[1].nal != [])
  {
    hide FindCode, FirstCode, SafeBefore;
    if |us| == 1 {
      assert us[0].nal + Join(us[1..]) == us[0].nal;
      FindAtEnd(us[0].nal);
    } else {
      var rest := us[1].nal + Join(us[2..]);
      assert us[1..][1..] == us[2..];
      assert us[0].nal + Join(us[1..]) == us[0].nal + Code(us[1].long) + rest;
      FindInBody(us[0].nal, us[1].long, rest);
    }
  }

  lemma {:induction false} SplitAtCodeExact(us: seq<Unit>)
    requires us != [] && AtCode(Join(us))
    requires |us| == 1 ==> us[0].nal != []
    ensures SplitAtCode(Join(us)) == Calls(us) <==> Recoverable(us)
  {
    hide FindCode, FirstCode, SkipCode, AtCode, SafeBefore, SplitAtCode;
    var nal, more := us[0].nal, us[1..];
    var body := nal + Join(more);
    var n := FindCode(body);
    assert Join(us) == Code(us[0].long) + body;
    SplitStep(us[0].long, body);
    FindAfterFirst(us);
    if n != |nal| {
      assert SplitAtCode(Join(us))[0] != Calls(us)[0];
      assert |us| == 2 ==> more[0] == us[1];
      assert !Recoverable(us);
    } else {
      assert body[..n] == nal && body[n..] == Join(more);
      CancelLeft([Calls(us)[0]], SplitAtCode(Join(more)), Calls(more));
      assert Calls(us) == [Calls(us)[0]] + Calls(more);
      hide Join, Calls;
      if more == [] {
        EmptySplit();
        assert Recoverable(us);
      } else {
        SplitAtCodeExact(more);
        assert Recoverable(us) <==> Recoverable(more);
      }
    }
  }

  lemma EmptySplit()
    ensures SplitAtCode([]) == []
  {
  }

  lemma {:induction false} SplitFromStart(t: seq<byte>)
    requires FindCode(t) == 0 && AtCode(t)
    ensures Split(t) == SplitAtCode(t)
  {
    hide FindCode, AtCode, SplitAtCode;
    assert t[0..] == t;
  }

  lemma SplitNothing(t: seq<byte>)
    requires FindCode(t) == |t|
    ensures Split(t) == []
  {
    hide FindCode;
    assert t[|t|..] == [];
  }

  /** Splitting a joined stream gives back its units, only the last of them flagged, if and only if
      the units are recoverable. */
  lemma {:induction false} SplitJoin(us: seq<Unit>)
    ensures Split(Join(us)) == Calls(us) <==> Recoverable(us)
  {
    if us == [] {
      SplitNothing([]);
    } else {
      var long, body := us[0].long, us[0].nal + Join(us[1..]);
      assert Join(us) == Code(long) + body;
      hide FindCode, FirstCode, SkipCode, AtCode, SafeBefore, Split, SplitAtCode;
      FindFirstCode(long, body);
      CodeIsAtCode(long, body);
      if body != [] {
        assert |us| == 1 ==> us[0].nal != [] by { assert us[1..] == [] ==> Join(us[1..]) == []; }
        SplitFromStart(Join(us));
        SplitAtCodeExact(us);
      } else {
        assert |us| == 1 && us[0].nal == [];
        assert Join(us) == Code(long);
        OnlyACode(long);
        SplitNothing(Join(us));
      }
    }
  }

  lemma OnlyACode(long: bool)
    ensures FindCode(Code(long)) == |Code(long)|
  {
    FirstCodeIs(Code(long), |Code(long)|);
  }
}
