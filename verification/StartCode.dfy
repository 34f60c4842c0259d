/** The start-code scanner of src/AVC.cpp, and the plain search it refines. */
module StartCode {
  import opened Bytes

  predicate CodeAt(s: seq<byte>, i: nat) {
    i + 3 <= |s| && s[i] == 0 && s[i + 1] == 0 && s[i + 2] == 1
  }

  /** Least index of 00 00 01 among those below |t| - 3, or |t|: the scanner does not look at a code
      that occupies the last three bytes. */
  function FirstCode(t: seq<byte>): (r: nat)
    ensures r == |t| || (r < |t| - 3 && CodeAt(t, r))
    ensures forall i: nat :: i < r && i < |t| - 3 ==> !CodeAt(t, i)
  {
    if |t| <= 3 then |t|
    else if CodeAt(t, 0) then 0
    else
      var r := FirstCode(t[1..]);
      assert forall i: nat :: 0 < i < |t| ==> (CodeAt(t, i) <==> CodeAt(t[1..], i - 1));
      1 + r
  }

  /** The scan result with the one-byte back-up that turns x 00 00 01 into a 4-byte code. */
  function FindCode(t: seq<byte>): (r: nat)
    ensures r <= |t|
    ensures r < |t| ==> CodeAt(t, r) || (r + 4 < |t| && t[r] == 0 && CodeAt(t, r + 1))
  {
    var r := FirstCode(t);
    if 0 < r < |t| && t[r - 1] == 0 then r - 1 else r
  }

  lemma {:induction false} FirstCodeIs(t: seq<byte>, r: nat)
    requires r == |t| || (r < |t| - 3 && CodeAt(t, r))
    requires forall i: nat :: i < r && i < |t| - 3 ==> !CodeAt(t, i)
    ensures FirstCode(t) == r
  {
  }

  // ----- the word test

  /** A 32-bit little-endian load. */
  function Word(b0: byte, b1: byte, b2: byte, b3: byte): bv32 {
    (b0 as bv32) | ((b1 as bv32) << 8) | ((b2 as bv32) << 16) | ((b3 as bv32) << 24)
  }

  predicate MayHoldZero(x: bv32) {
    (x - 0x01010101) & !x & 0x80808080 != 0
  }

  /** The test is exact: it fires on a word if and only if one of its four bytes is zero. */
  lemma ZeroByteTest(b0: byte, b1: byte, b2: byte, b3: byte)
    ensures MayHoldZero(Word(b0, b1, b2, b3)) <==> b0 == 0 || b1 == 0 || b2 == 0 || b3 == 0
  {
  }

  // ----- the scanner

  /** No code starts in s[from..p]. */
  predicate Clear(s: seq<byte>, from: nat, p: nat) {
    forall i: nat :: from <= i < p ==> !CodeAt(s, i)
  }

  /** What the word test and the four comparisons leave open: nothing. */
  lemma ClearWord(s: seq<byte>, from: nat, p: nat)
    requires from <= p && p + 6 <= |s| && Clear(s, from, p)
    requires MayHoldZero(Word(s[p], s[p + 1], s[p + 2], s[p + 3])) ==>
      && (s[p + 1] == 0 ==> !(s[p] == 0 && s[p + 2] == 1) && !(s[p + 2] == 0 && s[p + 3] == 1))
      && (s[p + 3] == 0 ==> !(s[p + 2] == 0 && s[p + 4] == 1) && !(s[p + 4] == 0 && s[p + 5] == 1))
    ensures Clear(s, from, p + 4)
  {
    hide Word, MayHoldZero;
    ZeroByteTest(s[p], s[p + 1], s[p + 2], s[p + 3]);
    forall i: nat | from <= i < p + 4 ensures !CodeAt(s, i) {
      if p <= i {
        assert i == p || i == p + 1 || i == p + 2 || i == p + 3;
      }
    }
  }

  lemma ClearByte(s: seq<byte>, from: nat, p: nat)
    requires from <= p && p + 3 <= |s| && Clear(s, from, p)
    requires !(s[p] == 0 && s[p + 1] == 0 && s[p + 2] == 1)
    ensures Clear(s, from, p + 1)
  {
  }

  /** A code at p with none before it is the one the plain search finds. */
  lemma Found(s: seq<byte>, from: nat, to: nat, p: nat)
    requires from <= p < to - 3 && to <= |s|
    requires s[p] == 0 && s[p + 1] == 0 && s[p + 2] == 1
    requires Clear(s, from, p)
    ensures p == from + FirstCode(s[from..to])
  {
    var t := s[from..to];
    assert forall i: nat :: i < |t| - 3 ==> CodeAt(t, i) == CodeAt(s, from + i);
    assert CodeAt(s, p);
    FirstCodeIs(t, p - from);
  }

  /** In the word loop the first hit is the first of the four bytes that starts a code. */
  lemma FoundInWord(s: seq<byte>, from: nat, to: nat, p: nat, k: nat)
    requires k < 4 && from <= p && p + k < to - 3 && to <= |s|
    requires s[p + k] == 0 && s[p + k + 1] == 0 && s[p + k + 2] == 1
    requires Clear(s, from, p)
    requires k == 3 ==> !(s[p + 1] == 0 && s[p + 2] == 1 && s[p] == 0)
    ensures p + k == from + FirstCode(s[from..to])
  {
    assert Clear(s, from, p + k);
    Found(s, from, to, p + k);
  }

  lemma Absent(s: seq<byte>, from: nat, to: nat, p: nat)
    requires from <= to <= |s| && to - 3 <= p && Clear(s, from, p)
    ensures to == from + FirstCode(s[from..to])
  {
    var t := s[from..to];
    assert forall i: nat :: i < |t| - 3 ==> CodeAt(t, i) == CodeAt(s, from + i);
    FirstCodeIs(t, |t|);
  }

  /** The address of s[p] is a multiple of four. */
  predicate Aligned(addr: nat, p: nat) {
    (addr + p) % 4 == 0
  }

  lemma AlignedStart(addr: nat, p: nat)
    ensures p < p + 4 - (addr + p) % 4 <= p + 4 && Aligned(addr, p + 4 - (addr + p) % 4)
  {
  }

  lemma AlignedNext(addr: nat, p: nat)
    requires Aligned(addr, p)
    ensures Aligned(addr, p + 4)
  {
  }

  /** `addr` is the address of s[0], so that the word loop runs at addresses that are multiples of four. */
  method FindStartCodeInternal(s: seq<byte>, addr: nat, from: nat, to: nat) returns (r: nat)
    requires from <= to <= |s|
    ensures r == from + FirstCode(s[from..to])
  {
    assert Clear(s, from, from);
    AlignedStart(addr, from);
    hide FirstCode, Word, MayHoldZero, Clear, Aligned;
    var p, end: int := from, to;
    var a := p + 4 - (addr + p) % 4;

    end := end - 3;
    while p < a && p < end
      invariant from <= p <= a && Clear(s, from, p)
    {
      if s[p] == 0 && s[p + 1] == 0 && s[p + 2] == 1 {
        Found(s, from, to, p);
        return p;
      }
      ClearByte(s, from, p);
      p := p + 1;
    }

    end := end - 3;
    while p < end
      invariant from <= p && Clear(s, from, p)
      invariant p < end ==> Aligned(addr, p)
    {
      assert Aligned(addr, p) && p + 5 < to;  // an aligned load, and the furthest byte read below
      var x := Word(s[p], s[p + 1], s[p + 2], s[p + 3]);
      if MayHoldZero(x) {
        if s[p + 1] == 0 {
          if s[p] == 0 && s[p + 2] == 1 {
            FoundInWord(s, from, to, p, 0);
            return p;
          }
          if s[p + 2] == 0 && s[p + 3] == 1 {
            FoundInWord(s, from, to, p, 1);
            return p + 1;
          }
        }
        if s[p + 3] == 0 {
          if s[p + 2] == 0 && s[p + 4] == 1 {
            FoundInWord(s, from, to, p, 2);
            return p + 2;
          }
          if s[p + 4] == 0 && s[p + 5] == 1 {
            FoundInWord(s, from, to, p, 3);
            return p + 3;
          }
        }
      }
      ClearWord(s, from, p);
      AlignedNext(addr, p);
      p := p + 4;
    }

    end := end + 3;
    while p < end
      invariant from <= p && Clear(s, from, p)
    {
      if s[p] == 0 && s[p + 1] == 0 && s[p + 2] == 1 {
        Found(s, from, to, p);
        return p;
      }
      ClearByte(s, from, p);
      p := p + 1;
    }

    r := end + 3;
    Absent(s, from, to, p);
  }

  method FindStartCode(s: seq<byte>, addr: nat, from: nat, to: nat) returns (r: nat)
    requires from <= to <= |s|
    ensures r == from + FindCode(s[from..to])
  {
    r := FindStartCodeInternal(s, addr, from, to);
    if from < r && r < to && s[r - 1] == 0 {
      r := r - 1;
    }
  }
}
