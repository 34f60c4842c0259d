/** The stream player of src/SimStreamer.cpp and the loop of main/main.cpp that runs it. */
module SimStreamer {
  import opened AnnexB
  import opened Bytes
  import opened Sequences
  import opened StartCode
  import opened Units
  import opened Wrappers

  /** The bytes of the stream that are still to be played: `size` of them, from index `buf` on. */
  datatype Cursor = Cursor(buf: nat, size: int)

  datatype Selection = Selection(nal: Nal, next: Cursor)

  /** One selection. There is none if no start code is left in what is to be played: the loop that skips it
      then runs out of the stream. */
  function Select(s: seq<byte>, c: Cursor): Option<Selection> {
    if c.size <= 0 then Some(Selection([], c))
    else if c.buf + c.size > |s| then None
    else
      var t := s[c.buf..c.buf + c.size];
      if FindCode(t) == |t| then None
      else
        var body := AfterCode(t);
        var n := FindCode(body);
        Some(Selection(body[..n], Cursor(c.buf + (|t| - |body|) + n, c.size - n - 4)))
  }

  /** What follows the first start code. */
  function AfterCode(t: seq<byte>): (body: seq<byte>)
    requires FindCode(t) < |t|
    ensures |body| <= |t|
  {
    FindCodeStops(t);
    var u := t[FindCode(t)..];
    SkipStopsAtOne(u);
    u[SkipCode(u)..]
  }

  /** buf and size as `c` and `next`; r and rLen keep what they were given when there is nothing to play. */
  method SelectNextNal(s: seq<byte>, addr: nat, c: Cursor, r0: nat, rLen0: nat)
      returns (next: Cursor, r: nat, rLen: nat)
    requires Select(s, c).Some?
    ensures next == Select(s, c).value.next
    ensures c.size <= 0 ==> r == r0 && rLen == rLen0
    ensures c.size > 0 ==> r + rLen <= |s| && s[r..r + rLen] == Select(s, c).value.nal
  {
    hide FindCode, SkipCode, Select;
    SelectBounds(s, c);
    if c.size <= 0 {
      return c, r0, rLen0;
    }
    var end := c.buf + c.size;
    var code := FindStartCode(s, addr, c.buf, end);
    SelectStarts(s, c, end, code);
    SkipInStream(s, end, code);
    hide AtCode, AfterCode;
    r := SkipStartCode(s, code);
    var r1 := FindStartCode(s, addr, r, end);
    SelectEnds(s, c, end, r, r1);
    rLen := r1 - r;
    next := Cursor(r1, c.size - rLen - 4);
  }

  lemma SelectBounds(s: seq<byte>, c: Cursor)
    requires Select(s, c).Some?
    ensures if c.size <= 0 then Select(s, c).value.next == c else c.buf + c.size <= |s|
  {
  }

  lemma SelectStarts(s: seq<byte>, c: Cursor, end: nat, code: nat)
    requires 0 < c.size && Select(s, c).Some? && end == c.buf + c.size <= |s|
    requires code == c.buf + FindCode(s[c.buf..end])
    ensures code < end && AtCode(s[code..end]) && SkipCode(s[code..end]) <= end - code
    ensures AfterCode(s[c.buf..end]) == s[code + SkipCode(s[code..end])..end]
  {
    hide SkipCode, AtCode, AfterCode, Select, FindCode;
    SelectFinds(s, c, end);
    StartsInStream(s, c.buf, end, code);
  }

  /** The same of the stream alone. */
  lemma StartsInStream(s: seq<byte>, from: nat, end: nat, code: nat)
    requires from <= end <= |s| && code == from + FindCode(s[from..end]) < end
    ensures AtCode(s[code..end]) && SkipCode(s[code..end]) <= end - code
    ensures AfterCode(s[from..end]) == s[code + SkipCode(s[code..end])..end]
  {
    hide SkipCode, AtCode, AfterCode, FindCode;
    AfterCodeIs(s[from..end]);
    Within(s, from, end, code - from);
    WithinAgain(s, code, end, s[code..end]);
  }

  lemma SelectFinds(s: seq<byte>, c: Cursor, end: nat)
    requires 0 < c.size && Select(s, c).Some? && end == c.buf + c.size <= |s|
    ensures FindCode(s[c.buf..end]) < c.size
  {
    hide FindCode, AfterCode;
  }

  lemma {:induction false} WithinAgain(s: seq<byte>, code: nat, end: nat, u: seq<byte>)
    requires code <= end <= |s| && u == s[code..end] && SkipCode(u) <= |u|
    ensures u[SkipCode(u)..] == s[code + SkipCode(s[code..end])..end]
  {
    hide SkipCode;
    Within(s, code, end, SkipCode(u));
  }

  lemma SelectEnds(s: seq<byte>, c: Cursor, end: nat, r: nat, r1: nat)
    requires 0 < c.size && Select(s, c).Some? && end == c.buf + c.size <= |s| && r <= end
    requires FindCode(s[c.buf..end]) < c.size && AfterCode(s[c.buf..end]) == s[r..end]
    requires r1 == r + FindCode(s[r..end])
    ensures r1 <= |s| && Select(s, c).value.nal == s[r..r1]
    ensures Select(s, c).value.next == Cursor(r1, c.size - (r1 - r) - 4)
  {
    hide FindCode, AfterCode;
    assert s[r..end][..r1 - r] == s[r..r1];
  }

  lemma AfterCodeIs(t: seq<byte>)
    requires FindCode(t) < |t|
    ensures var u := t[FindCode(t)..];
      AtCode(u) && SkipCode(u) <= |u| && AfterCode(t) == u[SkipCode(u)..]
  {
    FindCodeStops(t);
    SkipStopsAtOne(t[FindCode(t)..]);
  }

  lemma Within(s: seq<byte>, from: nat, to: nat, k: nat)
    requires from + k <= to <= |s|
    ensures s[from..to][k..] == s[from + k..to]
  {
  }

  /** The loop that skips a start code does not look at the end of what is to be played. */
  lemma SkipInStream(s: seq<byte>, end: nat, r: nat)
    requires r <= end <= |s| && AtCode(s[r..end])
    ensures AtCode(s[r..]) && SkipCode(s[r..]) == SkipCode(s[r..end])
  {
    hide SkipCode;
    var t, u := s[r..end], s[r..];
    assert t == u[..|t|];
    SkipStopsAtOne(t);
    SkipStopsAtOne(u);
  }

  /** What workerThread does at the end of the stream. */
  function Rewind(s: seq<byte>, c: Cursor): Cursor {
    if c.size <= 0 then Cursor(0, |s|) else c
  }

  /** The units selected from here on until `size` is no longer positive. */
  function Pass(s: seq<byte>, c: Cursor): Option<seq<Nal>>
    decreases c.size
  {
    if c.size <= 0 then Some([])
    else match Select(s, c)
      case None => None
      case Some(Selection(nal, next)) =>
        match Pass(s, next)
        case None => None
        case Some(rest) => Some([nal] + rest)
  }

  /** The units workerThread plays in its next n turns. */
  function Played(s: seq<byte>, c: Cursor, n: nat): (r: Option<seq<Nal>>)
    ensures r.Some? ==> |r.value| == n
    decreases n
  {
    if n == 0 then Some([])
    else match Select(s, c)
      case None => None
      case Some(Selection(nal, next)) =>
        match Played(s, Rewind(s, next), n - 1)
        case None => None
        case Some(rest) => Some([nal] + rest)
  }

  /** Where n turns take it. */
  function CursorAfter(s: seq<byte>, c: Cursor, n: nat): Cursor
    decreases n
  {
    if n == 0 || Select(s, c).None? then c else CursorAfter(s, Rewind(s, Select(s, c).value.next), n - 1)
  }

  lemma {:induction false} NothingPlayed(s: seq<byte>, c: Cursor)
    ensures Played(s, c, 0) == Some([]) && CursorAfter(s, c, 0) == c
  {
  }

  lemma {:induction false} PlayNext(s: seq<byte>, c: Cursor, m: nat, n: nat)
    requires m < n && Played(s, c, n).Some?
    ensures Played(s, c, m).Some? && Select(s, CursorAfter(s, c, m)).Some?
    ensures var selection := Select(s, CursorAfter(s, c, m)).value;
      && Played(s, c, m + 1) == Some(Played(s, c, m).value + [selection.nal])
      && CursorAfter(s, c, m + 1) == Rewind(s, selection.next)
    decreases m
  {
    hide Select, Rewind;
    var first := Select(s, c).value;
    var c1 := Rewind(s, first.next);
    NothingPlayed(s, c);
    NothingPlayed(s, c1);
    if m == 0 {
      assert [] + [first.nal] == [first.nal] + [];
    } else {
      PlayNext(s, c1, m - 1, n - 1);
      Associative([first.nal], Played(s, c1, m - 1).value, [Select(s, CursorAfter(s, c1, m - 1)).value.nal]);
    }
  }

  // ----- selecting from a joined stream

  /** What is selected where the bytes to be played start with a start code. */
  lemma SelectAtCode(s: seq<byte>, c: Cursor, long: bool, body: seq<byte>)
    requires 0 < c.size && c.buf + c.size <= |s| && body != []
    requires s[c.buf..c.buf + c.size] == Code(long) + body
    ensures var n := FindCode(body);
      Select(s, c) == Some(Selection(body[..n], Cursor(c.buf + |Code(long)| + n, c.size - n - 4)))
  {
    hide FindCode, AfterCode, Code;
    FindFirstCode(long, body);
    AfterLeading(long, body);
  }

  lemma AfterLeading(long: bool, body: seq<byte>)
    requires FindCode(Code(long) + body) == 0 && body != []
    ensures AfterCode(Code(long) + body) == body
  {
    hide FindCode, SkipCode, AtCode, Code, AfterCode;
    var t := Code(long) + body;
    CodeIsAtCode(long, body);
    AfterCodeIs(t);
    assert t[0..] == t;
    assert t[|Code(long)|..] == body;
  }

  /** Nothing can be selected where less than a start code and a byte are left. */
  lemma SelectTooShort(s: seq<byte>, c: Cursor, long: bool)
    requires 0 < c.size <= |Code(long)| && c.buf + c.size <= |s|
    requires s[c.buf..c.buf + c.size] == Code(long)[..c.size]
    ensures Select(s, c) == None
  {
    hide FindCode, Code, AfterCode;
    PartOfCode(long, c.size);
  }

  lemma PartOfCode(long: bool, n: nat)
    requires n <= |Code(long)|
    ensures FindCode(Code(long)[..n]) == n
  {
    FirstCodeIs(Code(long)[..n], n);
  }

  function NalsOf(us: seq<Unit>): (ns: seq<Nal>)
    ensures |ns| == |us|
    ensures forall i :: 0 <= i < |us| ==> ns[i] == us[i].nal
  {
    if us == [] then [] else [us[0].nal] + NalsOf(us[1..])
  }

  /** Every start code but the last one is four bytes long. */
  predicate LongCodes(us: seq<Unit>) {
    forall i :: 0 <= i < |us| - 1 ==> us[i].long
  }

  /** A pass returns a list if and only if it selects its head and then returns its tail. */
  lemma {:induction false} PassOne(s: seq<byte>, c: Cursor, selected: Nal, next: Cursor, nal: Nal, rest: seq<Nal>)
    requires 0 < c.size && Select(s, c) == Some(Selection(selected, next))
    ensures Pass(s, c) == Some([nal] + rest) <==> selected == nal && Pass(s, next) == Some(rest)
  {
    hide Select;
    if Pass(s, next).Some? {
      var found := Pass(s, next).value;
      assert ([selected] + found)[0] == selected && ([selected] + found)[1..] == found;
      assert ([nal] + rest)[0] == nal && ([nal] + rest)[1..] == rest;
    }
  }

  lemma {:induction false} PassDone(s: seq<byte>, c: Cursor)
    requires c.size <= 0
    ensures Pass(s, c) == Some([])
  {
  }

  /** What is selected first when the last bytes of what is left of a joined stream are cut off. */
  lemma SelectCut(s: seq<byte>, buf: nat, size: int, long: bool, nal: Nal, rest: seq<byte>)
    requires buf <= |s| && s[buf..] == Code(long) + (nal + rest) && 0 < size < |s| - buf
    ensures var r := Select(s, Cursor(buf, size));
      (size <= |Code(long)| <==> r.None?) &&
      (r.Some? ==>
        && r.value.next.size == size - |r.value.nal| - 4
        && |r.value.nal| <= size - |Code(long)|
        && (r.value.nal == nal ==> r.value.next.buf <= |s| && s[r.value.next.buf..] == rest))
  {
    hide FindCode, Select;
    var code, body := Code(long), nal + rest;
    assert s[buf..buf + size] == (code + body)[..size];
    if size <= |code| {
      assert (code + body)[..size] == code[..size];
      SelectTooShort(s, Cursor(buf, size), long);
    } else {
      var cut := body[..size - |code|];
      assert (code + body)[..size] == code + cut;
      SelectAtCode(s, Cursor(buf, size), long, cut);
      Suffix(s, buf, code, nal, rest);
    }
  }

  /** Once the end has drifted, by one byte for each 3-byte start code passed, a pass no longer
      returns the units that are left. */
  lemma {:induction false} DriftSpoils(s: seq<byte>, buf: nat, size: int, us: seq<Unit>)
    requires us != [] && buf <= |s| && s[buf..] == Join(us) && size < |Join(us)|
    ensures Pass(s, Cursor(buf, size)) != Some(NalsOf(us))
    decreases |us|
  {
    hide FindCode, Select, Pass, Join, NalsOf;
    var c, long, nal, more := Cursor(buf, size), us[0].long, us[0].nal, us[1..];
    JoinHead(us);
    if size <= 0 {
      PassDone(s, c);
    } else {
      SelectCut(s, buf, size, long, nal, Join(more));
      if size <= |Code(long)| {
        PassNone(s, c);
      } else {
        var first := Select(s, c).value;
        PassOne(s, c, first.nal, first.next, nal, NalsOf(more));
        if first.nal == nal && more != [] {
          DriftSpoils(s, first.next.buf, first.next.size, more);
        }
      }
    }
  }

  lemma {:induction false} PassNone(s: seq<byte>, c: Cursor)
    requires 0 < c.size && Select(s, c) == None
    ensures Pass(s, c) == None
  {
    hide Select;
  }

  /** What follows a unit that was selected whole. */
  lemma {:induction false} PassRest(s: seq<byte>, next: Cursor, us: seq<Unit>)
    requires us != [] && next.buf <= |s| && s[next.buf..] == Join(us[1..])
    requires next.size == |Join(us[1..])| - if us[0].long then 0 else 1
    ensures Pass(s, next) == Some(NalsOf(us[1..])) <==>
      us[1..] == [] || (us[0].long && Recoverable(us[1..]) && LongCodes(us[1..]))
    decreases |us|, 0
  {
    hide Select, Pass, Recoverable, LongCodes, Join;
    var more := us[1..];
    if more == [] {
      assert Join(more) == [] && NalsOf(more) == [];
      PassDone(s, next);
    } else if us[0].long {
      PassFrom(s, next.buf, more);
    } else {
      DriftSpoils(s, next.buf, next.size, more);
    }
  }

  /** The condition below, taken apart. */
  lemma {:induction false} Spoiled(us: seq<Unit>)
    requires us != [] && us[0].nal + Join(us[1..]) != []
    ensures Recoverable(us) && LongCodes(us) <==>
      && FindCode(us[0].nal + Join(us[1..])) == |us[0].nal|
      && (us[1..] == [] || (us[0].long && Recoverable(us[1..]) && LongCodes(us[1..])))
  {
    hide FindCode, FirstCode, SafeBefore, Join;
    FindAfterFirst(us);
    if |us| == 1 {
      assert us[1..] == [] && Join(us[1..]) == [] by { JoinNothing(); }
    } else {
      assert |us| == 2 ==> us[1..][0] == us[1];
      assert LongCodes(us) <==> us[0].long && LongCodes(us[1..]);
    }
  }

  lemma {:induction false} JoinHead(us: seq<Unit>)
    requires us != []
    ensures Join(us) == Code(us[0].long) + (us[0].nal + Join(us[1..]))
    ensures NalsOf(us) == [us[0].nal] + NalsOf(us[1..])
  {
    Associative(Code(us[0].long), us[0].nal, Join(us[1..]));
  }

  lemma JoinNothing()
    ensures Join([]) == []
  {
  }

  /** What is selected first from what is left of a joined stream: the unit in front, if and only if the scan
      stops at its end, and then the others are left. */
  lemma SelectFirst(s: seq<byte>, buf: nat, long: bool, nal: Nal, rest: seq<byte>)
    requires buf <= |s| && s[buf..] == Code(long) + (nal + rest) && nal + rest != []
    ensures var r := Select(s, Cursor(buf, |s| - buf));
      && r.Some?
      && (r.value.nal == nal <==> FindCode(nal + rest) == |nal|)
      && (r.value.nal == nal ==>
        && r.value.next.buf <= |s| && s[r.value.next.buf..] == rest
        && r.value.next.size == |rest| - if long then 0 else 1)
  {
    hide FindCode, Select;
    assert s[buf..buf + (|s| - buf)] == s[buf..];
    SelectAtCode(s, Cursor(buf, |s| - buf), long, nal + rest);
    Suffix(s, buf, Code(long), nal, rest);
  }

  lemma Suffix(s: seq<byte>, buf: nat, code: seq<byte>, nal: Nal, rest: seq<byte>)
    requires buf <= |s| && s[buf..] == code + (nal + rest)
    ensures buf + |code| + |nal| <= |s| && s[buf + |code| + |nal|..] == rest
    ensures (nal + rest)[..|nal|] == nal
  {
    assert s[buf + |code| + |nal|..] == s[buf..][|code| + |nal|..];
  }

  /** A pass over what is left of a joined stream, the end being where it should. */
  lemma {:induction false} PassFrom(s: seq<byte>, buf: nat, us: seq<Unit>)
    requires us != [] && buf <= |s| && s[buf..] == Join(us)
    ensures Pass(s, Cursor(buf, |Join(us)|)) == Some(NalsOf(us)) <==> Recoverable(us) && LongCodes(us)
    decreases |us|, 1
  {
    var c := Cursor(buf, |Join(us)|);
    hide FindCode, Select, Pass, Recoverable, LongCodes, NalsOf, Join;
    JoinHead(us);
    if us[0].nal + Join(us[1..]) == [] {
      EmptyUnit(us);
      assert s[buf..buf + c.size] == s[buf..];
      SelectTooShort(s, c, us[0].long);
      PassNone(s, c);
    } else {
      SelectFirst(s, buf, us[0].long, us[0].nal, Join(us[1..]));
      var first := Select(s, c).value;
      PassOne(s, c, first.nal, first.next, us[0].nal, NalsOf(us[1..]));
      Spoiled(us);
      if first.nal == us[0].nal {
        PassRest(s, first.next, us);
      }
    }
  }

  lemma {:induction false} EmptyUnit(us: seq<Unit>)
    requires us != [] && us[0].nal + Join(us[1..]) == []
    ensures !Recoverable(us)
  {
    assert us[0].nal == [];
  }

  /** One pass over a stream returns its units if and only if they are recoverable and every start code but the
      last is four bytes long: the constant 4 that is subtracted moves the end otherwise. */
  lemma {:induction false} PassExact(us: seq<Unit>)
    ensures Pass(Join(us), Cursor(0, |Join(us)|)) == Some(NalsOf(us)) <==> Recoverable(us) && LongCodes(us)
  {
    if us != [] {
      assert Join(us)[0..] == Join(us);
      PassFrom(Join(us), 0, us);
    }
  }

  // ----- playing a stream over and over

  /** Where the i-th unit of a joined stream is next. */
  function CursorAt(us: seq<Unit>, i: nat): Cursor
    requires i <= |us|
  {
    Cursor(|Join(us[..i])|, |Join(us[i..])|)
  }

  /** The n units from the i-th on, starting over at the end. */
  function Cycle(us: seq<Unit>, i: nat, n: nat): (ns: seq<Nal>)
    requires us != []
    ensures |ns| == n && forall j :: 0 <= j < n ==> ns[j] == us[(i + j) % |us|].nal
  {
    seq(n, j requires 0 <= j < n => us[(i + j) % |us|].nal)
  }

  lemma {:induction false} JoinAppend(us: seq<Unit>, vs: seq<Unit>)
    ensures Join(us + vs) == Join(us) + Join(vs)
  {
    hide Code;
    if us == [] {
      assert us + vs == vs;
    } else {
      JoinAppend(us[1..], vs);
      HeadTail(us, vs);
      Associative(Code(us[0].long) + us[0].nal, Join(us[1..]), Join(vs));
    }
  }

  lemma {:induction false} CursorSplits(us: seq<Unit>, i: nat)
    requires i <= |us|
    ensures var c, s := CursorAt(us, i), Join(us);
      c.buf + c.size == |s| && s[c.buf..] == Join(us[i..])
  {
    hide Join;
    JoinAppend(us[..i], us[i..]);
    assert us[..i] + us[i..] == us;
    assert (Join(us[..i]) + Join(us[i..]))[|Join(us[..i])|..] == Join(us[i..]);
  }

  /** The condition for every unit to be selected whole. */
  ghost predicate Playable(us: seq<Unit>) {
    us != [] && Recoverable(us) && LongCodes(us)
  }

  lemma {:induction false} PlayableFrom(us: seq<Unit>, i: nat)
    requires Playable(us) && i < |us|
    ensures Playable(us[i..])
    decreases i
  {
    hide SafeBefore, SafeAtEnd;
    if i == 0 {
      assert us[0..] == us;
    } else {
      PlayableFrom(us[1..], i - 1);
      assert us[1..][i - 1..] == us[i..];
    }
  }

  lemma {:induction false} FirstCursor(us: seq<Unit>)
    ensures CursorAt(us, 0) == Cursor(0, |Join(us)|)
  {
    hide Join;
    assert us[..0] == [] && us[0..] == us;
  }

  lemma ModNext(i: nat, k: nat)
    requires i < k
    ensures (i + 1) % k == if i + 1 < k then i + 1 else 0
  {
    if i + 1 < k { ModSmall(i + 1, k); }
  }

  lemma ModSmall(i: nat, k: nat)
    requires i < k
    ensures i % k == i
  {
  }

  lemma ModStep(i: nat, j: nat, k: nat)
    requires i < k
    ensures ((i + 1) % k + j) % k == (i + 1 + j) % k
  {
    ModNext(i, k);
    if i + 1 == k {
      var q, m := j / k, j % k;
      assert j + k == k * (q + 1) + m;
      ModUnique(j + k, k, q + 1, m);
    }
  }

  lemma ModPlus(i: nat, j: nat, k: nat)
    requires 0 < k
    ensures (i % k + j) % k == (i + j) % k
  {
    var q, m := (i % k + j) / k, (i % k + j) % k;
    assert i + j == k * (i / k + q) + m;
    ModUnique(i + j, k, i / k + q, m);
  }

  lemma ModUnique(a: nat, k: nat, q: nat, m: nat)
    requires m < k && a == k * q + m
    ensures a % k == m
  {
    var d := a / k - q;
    assert k * d == m - a % k by { assert k * (a / k) == k * q + k * d; }
  }

  lemma CycleHead(us: seq<Unit>, i: nat, n: nat)
    requires i < |us| && 0 < n
    ensures Cycle(us, i, n) == [us[i].nal] + Cycle(us, (i + 1) % |us|, n - 1)
  {
    var tail := Cycle(us, (i + 1) % |us|, n - 1);
    ModSmall(i, |us|);
    forall j | 0 < j < n ensures Cycle(us, i, n)[j] == tail[j - 1] {
      ModStep(i, j - 1, |us|);
    }
  }

  lemma SelectWhole(us: seq<Unit>, i: nat)
    requires Playable(us) && i < |us|
    ensures var r := Select(Join(us), CursorAt(us, i));
      && r.Some? && r.value.nal == us[i].nal
      && r.value.next.buf <= |Join(us)| && Join(us)[r.value.next.buf..] == Join(us[i + 1..])
      && r.value.next.size == |Join(us[i + 1..])| - if us[i].long then 0 else 1
  {
    hide Select, FindCode, Join, Recoverable, LongCodes;
    var from := us[i..];
    PlayableFrom(us, i);
    CursorSplits(us, i);
    JoinHead(from);
    assert from[1..] == us[i + 1..] && from[0] == us[i];
    if us[i].nal + Join(us[i + 1..]) == [] { EmptyUnit(from); }
    Spoiled(from);
    hide Playable;
    SelectFirst(Join(us), CursorAt(us, i).buf, us[i].long, us[i].nal, Join(us[i + 1..]));
  }

  /** The i-th selection: the i-th unit, and afterwards the next one, the first one after the last. */
  lemma {:induction false} SelectUnit(us: seq<Unit>, i: nat)
    requires Playable(us) && i < |us|
    ensures var r := Select(Join(us), CursorAt(us, i));
      && r.Some? && r.value.nal == us[i].nal
      && Rewind(Join(us), r.value.next) == CursorAt(us, (i + 1) % |us|)
      && (r.value.next.size <= 0 <==> i == |us| - 1)
      && (us[i].long ==> r.value.next == CursorAt(us, i + 1) && r.value.next.buf + r.value.next.size == |Join(us)|)
  {
    hide Select, Join, Recoverable;
    SelectWhole(us, i);
    CursorSplits(us, i + 1);
    assert us[i + 1..] == [] <==> i == |us| - 1;
    ModNext(i, |us|);
    FirstCursor(us);
  }

  /** workerThread plays the units of the stream in a cycle. */
  lemma {:induction false} Replay(us: seq<Unit>, i: nat, n: nat)
    requires Playable(us) && i < |us|
    ensures Played(Join(us), CursorAt(us, i), n) == Some(Cycle(us, i, n))
    decreases n
  {
    hide Select, Join, CursorAt, Playable, Rewind;
    if n > 0 {
      SelectUnit(us, i);
      Replay(us, (i + 1) % |us|, n - 1);
      CycleHead(us, i, n);
    }
  }
}
