/** Bytes and the big-endian writers of src/Utils.cpp. */
module Bytes {

  type byte = bv8

  function Val(b: byte): (n: nat)
    ensures n < 256
  {
    b as nat
  }

  lemma ValInjective(a: byte, b: byte)
    requires Val(a) == Val(b)
    ensures a == b
  {
  }

  lemma ValSuccessor(b: byte)
    requires b != 255
    ensures Val(b + 1) == Val(b) + 1
  {
  }

  /** The byte a C++ cast to uint8_t produces for a value that fits. It counts up because the verifier takes too long
      over a conversion from integers to bit-vectors to relate it to the one back. */
  function Byte(n: nat): (b: byte)
    requires n < 256
    ensures Val(b) == n
  {
    if n == 0 then 0 else
      var b := Byte(n - 1);
      assert Val(255) == 255;
      ValSuccessor(b);
      b + 1
  }

  // ----- big-endian fields, as values

  function Be16(x: nat): (s: seq<byte>)
    requires x < 0x1_0000
    ensures |s| == 2
  {
    [Byte(x / 256), Byte(x % 256)]
  }

  function Be32(x: nat): (s: seq<byte>)
    requires x < 0x1_0000_0000
    ensures |s| == 4
  {
    Be16(x / 0x1_0000) + Be16(x % 0x1_0000)
  }

  function FromBe16(a: byte, b: byte): (x: nat)
    ensures x < 0x1_0000
  {
    256 * Val(a) + Val(b)
  }

  function FromBe32(a: byte, b: byte, c: byte, d: byte): (x: nat)
    ensures x < 0x1_0000_0000
  {
    0x1_0000 * FromBe16(a, b) + FromBe16(c, d)
  }

  lemma Be16RoundTrip(x: nat)
    requires x < 0x1_0000
    ensures FromBe16(Be16(x)[0], Be16(x)[1]) == x
  {
    hide Byte, Val;
  }

  lemma Be32RoundTrip(x: nat)
    requires x < 0x1_0000_0000
    ensures var s := Be32(x); FromBe32(s[0], s[1], s[2], s[3]) == x
  {
    Be16RoundTrip(x / 0x1_0000);
    Be16RoundTrip(x % 0x1_0000);
  }

  lemma Be16Unique(a: byte, b: byte)
    ensures Be16(FromBe16(a, b)) == [a, b]
  {
    var x := FromBe16(a, b);
    assert x / 256 == Val(a) && x % 256 == Val(b);
    ValInjective(Byte(x / 256), a);
    ValInjective(Byte(x % 256), b);
  }

  // ----- the writers

  /** memcpy(&dst[at], src, |src|) */
  method CopyInto(dst: array<byte>, at: nat, src: seq<byte>)
    requires at + |src| <= dst.Length
    modifies dst
    ensures dst[..] == old(dst[..at]) + src + old(dst[at + |src|..])
  {
    forall i | 0 <= i < |src| {
      dst[at + i] := src[i];
    }
  }

  method Load8(dst: array<byte>, at: nat, x: nat) returns (next: nat)
    requires at < dst.Length && x < 256
    modifies dst
    ensures next == at + 1
    ensures dst[..] == old(dst[..])[at := Byte(x)]
  {
    dst[at] := Byte(x);
    next := at + 1;
  }

  method Load16(dst: array<byte>, at: nat, x: nat) returns (next: nat)
    requires at + 2 <= dst.Length && x < 0x1_0000
    modifies dst
    ensures next == at + 2
    ensures dst[..] == old(dst[..at]) + Be16(x) + old(dst[at + 2..])
  {
    hide Byte, Val;
    next := Load8(dst, at, x / 256);
    next := Load8(dst, next, x % 256);
  }

  method Load32(dst: array<byte>, at: nat, x: nat) returns (next: nat)
    requires at + 4 <= dst.Length && x < 0x1_0000_0000
    modifies dst
    ensures next == at + 4
    ensures dst[..] == old(dst[..at]) + Be32(x) + old(dst[at + 4..])
  {
    hide Be16;
    next := Load16(dst, at, x / 0x1_0000);
    next := Load16(dst, next, x % 0x1_0000);
  }
}
