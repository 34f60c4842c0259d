/** Facts about sequences that the solver is slow to find. */
module Sequences {

  lemma Associative<T>(a: seq<T>, b: seq<T>, c: seq<T>)
    ensures a + b + c == a + (b + c)
  {
  }

  lemma CancelLeft<T>(a: seq<T>, b: seq<T>, c: seq<T>)
    ensures a + b == a + c <==> b == c
  {
    assert (a + b)[|a|..] == b && (a + c)[|a|..] == c;
  }

  lemma TailMultiset<T>(s: seq<T>)
    requires s != []
    ensures multiset(s[1..]) == multiset(s) - multiset{s[0]}
  {
    assert s == [s[0]] + s[1..];
  }

  lemma WholePrefix<T>(s: seq<T>, n: nat)
    requires n <= |s| && s[n..] == []
    ensures n == |s| && s[..n] == s
  {
  }

  lemma HeadTail<T>(a: seq<T>, b: seq<T>)
    requires a != []
    ensures (a + b)[0] == a[0] && (a + b)[1..] == a[1..] + b
  {
  }

  /** After x was written at pos, what was built from `at` on has grown by x. */
  lemma Written<T>(before: seq<T>, after: seq<T>, at: nat, pos: nat, x: seq<T>)
    requires at <= pos && pos + |x| <= |before|
    requires after == before[..pos] + x + before[pos + |x|..]
    ensures |after| == |before|
    ensures after[..at] == before[..at]
    ensures after[at..pos + |x|] == before[at..pos] + x
  {
  }
}
