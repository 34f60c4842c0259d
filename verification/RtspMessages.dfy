/** RTSP messages on the wire, and a client that reads them (section 4 of RFC 2326). */
module RtspMessages {
  import opened Bytes
  import opened RtspParser
  import opened RtspRequest
  import opened Sequences
  import opened Wrappers

  function Octet(c: char): byte {
    if c as int < 256 then Byte(c as int) else 63
  }

  function Octets(s: string): (o: seq<byte>)
    ensures |o| == |s| && forall i :: 0 <= i < |s| ==> o[i] == Octet(s[i])
  {
    if s == "" then [] else [Octet(s[0])] + Octets(s[1..])
  }

  function AllOctets(lines: seq<string>): (os: seq<seq<byte>>)
    ensures |os| == |lines| && forall i :: 0 <= i < |lines| ==> os[i] == Octets(lines[i])
  {
    if lines == [] then [] else [Octets(lines[0])] + AllOctets(lines[1..])
  }

  const CRLF: seq<byte> := [13, 10]

  /** Lines on the wire. */
  function Written(lines: seq<seq<byte>>): (s: seq<byte>)
    ensures lines == [] ==> s == []
  {
    if lines == [] then [] else lines[0] + CRLF + Written(lines[1..])
  }

  /** A message as a client understands it. */
  datatype Message = Message(lines: seq<seq<byte>>, body: seq<byte>)

  /** A message that may lack the empty line after its header. */
  function Text(m: Message, ended: bool): seq<byte> {
    Written(m.lines) + (if ended then CRLF else []) + m.body
  }

  const LENGTH := "Content-Length: "

  // ----- a client

  /** Index of the first CRLF; the length if there is none. */
  function Eol(s: seq<byte>): (k: nat)
    ensures k <= |s|
    ensures k < |s| ==> k + 1 < |s| && s[k] == 13
  {
    if |s| < 2 then |s| else if s[0] == 13 && s[1] == 10 then 0 else
      var k := Eol(s[1..]);
      1 + k
  }

  datatype Head = Head(lines: seq<seq<byte>>, rest: seq<byte>)

  /** The lines up to an empty one, and what follows. */
  function ReadHead(s: seq<byte>): (h: Option<Head>)
    ensures h.Some? ==> |h.value.rest| < |s|
    decreases |s|
  {
    var k := Eol(s);
    if k == |s| then None
    else if k == 0 then Some(Head([], s[2..]))
    else match ReadHead(s[k + 2..])
      case None => None
      case Some(h) => Some(Head([s[..k]] + h.lines, h.rest))
  }

  function Letters(o: seq<byte>): string {
    seq(|o|, i requires 0 <= i < |o| => Val(o[i]) as char)
  }

  /** The length of the body, 0 if no line gives one. */
  function BodyLength(lines: seq<seq<byte>>): nat {
    if lines == [] then 0
    else if Octets(LENGTH) <= lines[0] then Value(Letters(lines[0][|LENGTH|..]))
    else BodyLength(lines[1..])
  }

  function ReadMessage(s: seq<byte>): (m: Option<(Message, seq<byte>)>)
    ensures m.Some? ==> |m.value.1| < |s|
  {
    match ReadHead(s)
    case None => None
    case Some(h) =>
      var n := BodyLength(h.lines);
      if |h.rest| < n then None else Some((Message(h.lines, h.rest[..n]), h.rest[n..]))
  }

  // ----- reading a reply

  /** A line that is not empty and holds no CR. */
  predicate IsLine(l: seq<byte>) {
    l != [] && 13 !in l
  }

  lemma {:induction false} EolOver(l: seq<byte>, s: seq<byte>)
    requires 13 !in l
    ensures Eol(l + CRLF + s) == |l|
  {
    var t := l + CRLF + s;
    if l == [] {
      assert t[0] == 13 && t[1] == 10;
    } else {
      assert l[0] in l && forall c <- l[1..] :: c in l;
      EolOver(l[1..], s);
      assert t[1..] == l[1..] + CRLF + s;
    }
  }

  /** One line in front. */
  lemma {:induction false} LineFirst(l: seq<byte>, s: seq<byte>)
    requires IsLine(l)
    ensures ReadHead(l + CRLF + s) ==
      match ReadHead(s) case None => None case Some(h) => Some(Head([l] + h.lines, h.rest))
  {
    EolOver(l, s);
    var t := l + CRLF + s;
    assert t[..|l|] == l && t[|l| + 2..] == s;
    hide Eol;
  }

  /** Lines without an empty one after them: what follows is taken for more of them. */
  lemma {:induction false} ReadOn(lines: seq<seq<byte>>, s: seq<byte>)
    requires forall l <- lines :: IsLine(l)
    ensures ReadHead(Written(lines) + s) ==
      match ReadHead(s) case None => None case Some(h) => Some(Head(lines + h.lines, h.rest))
    decreases |lines|
  {
    hide ReadHead;
    if lines == [] {
      assert Written(lines) + s == s;
      if ReadHead(s).Some? { assert [] + ReadHead(s).value.lines == ReadHead(s).value.lines; }
    } else {
      assert lines[0] in lines && forall l <- lines[1..] :: l in lines;
      ReadOn(lines[1..], s);
      Associative(lines[0] + CRLF, Written(lines[1..]), s);
      LineFirst(lines[0], Written(lines[1..]) + s);
      if ReadHead(s).Some? {
        Associative([lines[0]], lines[1..], ReadHead(s).value.lines);
        assert [lines[0]] + lines[1..] == lines;
      }
    }
  }

  lemma {:induction false} EmptyLine(s: seq<byte>)
    ensures ReadHead(CRLF + s) == Some(Head([], s))
  {
    assert [] + CRLF + s == CRLF + s;
    EolOver([], s);
    assert (CRLF + s)[2..] == s;
  }

  lemma OctetValue(c: char)
    ensures c as int < 256 ==> Val(Octet(c)) == c as int
    ensures Octet(c) == 13 ==> c == '\r'
  {
    assert Val(13) == 13 && Val(63) == 63;
    if c as int < 256 { assert Val(Octet(c)) == c as int; }
  }

  lemma {:induction false} OctetsLine(s: string)
    requires s != "" && PlainText(s)
    ensures IsLine(Octets(s))
  {
    forall i | 0 <= i < |s| ensures Octets(s)[i] != 13 {
      assert s[i] in s;
      OctetValue(s[i]);
    }
  }

  // ----- the length of the body

  /** A line that is not the one that gives the length. */
  predicate Another(l: string) {
    exists i :: 0 <= i < |l| && i < |LENGTH| && l[i] != LENGTH[i] && l[i] as int < 256
  }

  lemma {:induction false} AnotherDiffers(l: string)
    requires Another(l)
    ensures !(Octets(LENGTH) <= Octets(l))
  {
    var i :| 0 <= i < |l| && i < |LENGTH| && l[i] != LENGTH[i] && l[i] as int < 256;
    LengthAscii();
    assert LENGTH[i] in LENGTH;
    hide LENGTH, Octets;
    Differ(LENGTH, l, i);
  }

  lemma LengthAscii()
    ensures forall c <- LENGTH :: c as int < 256
  {
  }

  lemma {:induction false} Differ(name: string, l: string, i: nat)
    requires i < |name| && i < |l| && name[i] != l[i] && name[i] as int < 256 && l[i] as int < 256
    ensures !(Octets(name) <= Octets(l))
  {
    OctetValue(l[i]);
    OctetValue(name[i]);
    hide Octet;
    assert Octets(name)[i] != Octets(l)[i];
  }

  lemma {:induction false} NoLength(ls: seq<string>, more: seq<string>)
    requires forall l <- ls :: Another(l)
    ensures BodyLength(AllOctets(ls + more)) == BodyLength(AllOctets(more))
    decreases |ls|
  {
    hide Octets, Another, LENGTH;
    if ls == [] {
      assert ls + more == more;
    } else {
      assert ls[0] in ls && forall l <- ls[1..] :: l in ls;
      AnotherDiffers(ls[0]);
      NoLength(ls[1..], more);
      HeadTail(ls, more);
    }
  }

  lemma {:induction false} LettersOfDigits(d: string)
    requires forall c <- d :: IsDigit(c)
    ensures Letters(Octets(d)) == d
  {
    forall i | 0 <= i < |d| ensures Letters(Octets(d))[i] == d[i] {
      assert d[i] in d;
      OctetValue(d[i]);
    }
  }

  lemma {:induction false} LengthRead(n: nat)
    ensures BodyLength(AllOctets([LENGTH + Decimal(n)])) == n
  {
    var d := Decimal(n);
    LettersOfDigits(d);
    ValueOfDecimal(n);
    hide Decimal, Value, Letters, Octets;
    OctetsAppend(LENGTH, d);
    LengthOf(Octets(LENGTH), Octets(d));
    assert AllOctets([LENGTH + d]) == [Octets(LENGTH + d)];
  }

  lemma LengthOf(name: seq<byte>, d: seq<byte>)
    ensures name <= name + d && (name + d)[|name|..] == d
  {
  }

  lemma {:induction false} OctetsAppend(a: string, b: string)
    ensures Octets(a + b) == Octets(a) + Octets(b)
  {
    hide Octets;
    assert forall i :: 0 <= i < |a + b| ==> Octets(a + b)[i] == (Octets(a) + Octets(b))[i];
  }

  lemma NothingLong()
    ensures BodyLength(AllOctets([])) == 0
  {
  }

  // ----- messages read back

  /** Header lines of a message, none of them empty, that give the length of its body. */
  predicate Proper(m: Message, ended: bool) {
    && m.lines != [] && m.lines[0] != [] && m.lines[0][0] != 0x24 && (forall l <- m.lines :: IsLine(l))
    && BodyLength(m.lines) == |m.body| && (!ended ==> m.body == [])
  }

  /** A message is read back, whatever follows it, if the empty line is there; otherwise the client takes what
      follows for more of its header. */
  lemma MessageRead(m: Message, ended: bool, s: seq<byte>)
    requires Proper(m, ended) && !(CRLF <= s)
    ensures var r := ReadMessage(Text(m, ended) + s);
      && (r.Some? && r.value.0 == m <==> ended)
      && (ended ==> r.value.1 == s)
    ensures !ended ==> ReadMessage(Text(m, ended)) == None
  {
    hide ReadHead, Written, BodyLength, IsLine;
    if ended {
      var t := m.body + s;
      Associative(Written(m.lines) + CRLF, m.body, s);
      Associative(Written(m.lines), CRLF, t);
      ReadOn(m.lines, CRLF + t);
      EmptyLine(t);
      assert m.lines + [] == m.lines;
      assert t[..|m.body|] == m.body && t[|m.body|..] == s;
    } else {
      assert Text(m, ended) == Written(m.lines);
      ReadOn(m.lines, s);
      ReadOn(m.lines, []);
      assert Written(m.lines) + [] == Written(m.lines);
      assert ReadHead([]) == None by { NoHead(); }
      if ReadHead(s).Some? { HeadStarts(s); }
    }
  }

  lemma NoHead()
    ensures ReadHead([]) == None
  {
  }

  lemma {:induction false} HeadStarts(s: seq<byte>)
    requires ReadHead(s).Some? && !(CRLF <= s)
    ensures ReadHead(s).value.lines != []
  {
    assert |s| > 0 && Eol(s) == 0 ==> CRLF <= s by { EolAtOnce(s); }
  }

  lemma {:induction false} EolAtOnce(s: seq<byte>)
    ensures s != [] && Eol(s) == 0 ==> CRLF <= s
  {
    if |s| >= 2 && s[0] == 13 && s[1] == 10 { assert s[..2] == CRLF; }
  }
}
