/** The circular doubly linked list of src/LinkedListElement.h, with its list head as sentinel. */
module SessionRing {
  import opened Wrappers

  /** `content` is what a class derived from the C++ element adds to it; the list head has none. */
  class Element<T> {
    var next: Element<T>
    var prev: Element<T>
    const content: Option<T>

    /** A list head that links to itself. */
    constructor Head()
      ensures fresh(this) && content == None && IsRing([this])
    {
      content := None;
      next := this;
      prev := this;
    }

    /** An element placed before the head, that is at the end of the list. */
    constructor AtEnd(head: Element<T>, content: T, ghost ring: seq<Element<T>>)
      requires IsRing(ring) && ring[0] == head
      modifies head, head.prev
      ensures fresh(this) && this.content == Some(content)
      ensures IsRing(ring + [this])
    {
      this.content := Some(content);
      prev := head.prev;
      next := head;
      new;
      ghost var n := |ring|;
      assert ring[Next(ring, n - 1)].prev == ring[n - 1];
      head.prev := this;
      prev.next := this;
      ghost var all := ring + [this];
      forall i | 0 <= i < |all|
        ensures all[i].next == all[Next(all, i)] && all[Next(all, i)].prev == all[i]
      {
        assert i < n - 1 ==> old(ring[i].next) == ring[i + 1] && old(ring[i + 1].prev) == ring[i];
      }
    }

    predicate NotEmpty()
      reads this
    {
      next != this
    }

    /** The destructor: the neighbours are linked to each other. */
    method Unlink(ghost ring: seq<Element<T>>, ghost k: nat)
      requires IsRing(ring) && 0 < k < |ring| && ring[k] == this
      modifies next, prev
      ensures IsRing(ring[..k] + ring[k + 1..])
      ensures next == old(next) && prev == old(prev)
    {
      assert ring[Next(ring, k - 1)].prev == ring[k - 1] && next == ring[Next(ring, k)];
      next.prev := prev;
      prev.next := next;
      ghost var all, n := ring[..k] + ring[k + 1..], |ring|;
      forall i | 0 <= i < |all|
        ensures all[i].next == all[Next(all, i)] && all[Next(all, i)].prev == all[i]
      {
        NextWithout(ring, k, i);
        ghost var j := if i < k then i else i + 1;
        assert old(ring[j].next) == ring[Next(ring, j)] && old(ring[Next(ring, j)].prev) == ring[j];
      }
    }
  }

  function Next<T>(ring: seq<T>, i: nat): nat
    requires i < |ring|
  {
    if i + 1 < |ring| then i + 1 else 0
  }

  /** The elements but the k-th, the next of each being what it was, but for the one after the k-th. */
  lemma NextWithout<T>(ring: seq<T>, k: nat, i: nat)
    requires 0 < k < |ring| && i < |ring| - 1
    ensures var all, j := ring[..k] + ring[k + 1..], if i < k then i else i + 1;
      && all[i] == ring[j] && j != k
      && all[Next(all, i)] == ring[Next(ring, if j == k - 1 then k else j)]
  {
  }

  ghost predicate Distinct<T>(s: seq<T>) {
    forall i, j :: 0 <= i < j < |s| ==> s[i] != s[j]
  }

  /** The elements of a list in order, its head first. */
  ghost predicate IsRing<T>(ring: seq<Element<T>>)
    reads ring
  {
    && ring != [] && Distinct(ring)
    && forall i :: 0 <= i < |ring| ==> ring[i].next == ring[Next(ring, i)] && ring[Next(ring, i)].prev == ring[i]
  }

  /** The links are inverse to each other. */
  lemma LinksInverse<T>(ring: seq<Element<T>>, e: Element<T>)
    requires IsRing(ring) && e in ring
    ensures e.next in ring && e.next.prev == e
    ensures e.prev in ring && e.prev.next == e
  {
    var i :| 0 <= i < |ring| && ring[i] == e;
    var j := if i == 0 then |ring| - 1 else i - 1;
    assert Next(ring, j) == i;
  }

  /** Following n links from an element. */
  ghost function Walk<T>(e: Element<T>, n: nat): Element<T>
    reads *
  {
    if n == 0 then e else Walk(e.next, n - 1)
  }

  lemma {:induction false} WalkFrom<T>(ring: seq<Element<T>>, i: nat, n: nat)
    requires IsRing(ring) && i + n <= |ring| && i < |ring|
    ensures Walk(ring[i], n) == if i + n < |ring| then ring[i + n] else ring[0]
    decreases n
  {
    if n > 0 {
      assert ring[i].next == ring[Next(ring, i)];
      if i + 1 < |ring| {
        WalkFrom(ring, i + 1, n - 1);
      }
    }
  }

  /** A ring whose elements after the head hold these contents, in order. */
  ghost predicate Lists<T>(ring: seq<Element<T>>, contents: seq<T>)
    reads ring
  {
    && IsRing(ring) && |ring| == |contents| + 1
    && forall i :: 0 <= i < |contents| ==> ring[i + 1].content == Some(contents[i])
  }

  /** The element a traversal stands at after i steps; the head again at the end. */
  function At<T>(ring: seq<Element<T>>, i: nat): Element<T>
    requires i < |ring|
  {
    if i + 1 < |ring| then ring[i + 1] else ring[0]
  }

  lemma Traverse<T>(ring: seq<Element<T>>, contents: seq<T>, i: nat)
    requires Lists(ring, contents) && i <= |contents|
    ensures |ring| == |contents| + 1
    ensures i == 0 ==> ring[0].next == At(ring, 0)
    ensures At(ring, i) == ring[0] <==> i == |contents|
    ensures i < |contents| ==> At(ring, i).content == Some(contents[i]) && At(ring, i).next == At(ring, i + 1)
  {
    if i == 0 { assert ring[0].next == ring[Next(ring, 0)]; }
    if i < |contents| {
      assert ring[i + 1].next == ring[Next(ring, i + 1)];
      assert ring[0] != ring[i + 1];
    }
  }

  lemma ListsAppend<T>(ring: seq<Element<T>>, contents: seq<T>, e: Element<T>, c: T)
    requires |ring| == |contents| + 1 && e.content == Some(c) && IsRing(ring + [e])
    requires forall i :: 0 <= i < |contents| ==> ring[i + 1].content == Some(contents[i])
    ensures Lists(ring + [e], contents + [c])
  {
    hide IsRing;
  }

  lemma ListsRemove<T>(ring: seq<Element<T>>, contents: seq<T>, k: nat)
    requires |ring| == |contents| + 1 && k < |contents| && IsRing(ring[..k + 1] + ring[k + 2..])
    requires forall i :: 0 <= i < |contents| ==> ring[i + 1].content == Some(contents[i])
    ensures Lists(ring[..k + 1] + ring[k + 2..], contents[..k] + contents[k + 1..])
  {
    hide IsRing;
  }

  lemma DistinctAppend<T>(s: seq<T>, x: T)
    requires Distinct(s) && x !in s
    ensures Distinct(s + [x])
  {
  }

  lemma DistinctRemove<T>(s: seq<T>, k: nat)
    requires Distinct(s) && k < |s|
    ensures Distinct(s[..k] + s[k + 1..])
    ensures forall x <- s[..k] + s[k + 1..] :: x in s
  {
  }

  /** What is left of a list once the marked elements are gone. */
  function Kept<T>(xs: seq<T>, gone: seq<bool>): (ys: seq<T>)
    requires |xs| == |gone|
    ensures |ys| <= |xs|
  {
    if xs == [] then [] else
      var n := |xs| - 1;
      Kept(xs[..n], gone[..n]) + if gone[n] then [] else [xs[n]]
  }

  lemma KeptNext<T>(xs: seq<T>, gone: seq<bool>, i: nat)
    requires |xs| == |gone| && i < |xs|
    ensures Kept(xs[..i + 1], gone[..i + 1]) == Kept(xs[..i], gone[..i]) + if gone[i] then [] else [xs[i]]
  {
    assert xs[..i + 1][..i] == xs[..i] && gone[..i + 1][..i] == gone[..i];
  }

  // ----- a sweep that deletes as it goes

  /** After i of the elements es, with contents xs, were visited and the marked ones among them deleted. */
  ghost predicate InSweep<T>(ring: seq<Element<T>>, contents: seq<T>, head: Element<T>, es: seq<Element<T>>,
                             xs: seq<T>, gone: seq<bool>, i: nat)
  {
    && i <= |xs| == |es| == |gone|
    && ring == [head] + Kept(es[..i], gone[..i]) + es[i..]
    && contents == Kept(xs[..i], gone[..i]) + xs[i..]
  }

  /** The position in the list of the element visited next. */
  function SweepIndex<T>(xs: seq<T>, gone: seq<bool>, i: nat): nat
    requires i <= |xs| == |gone|
  {
    |Kept(xs[..i], gone[..i])|
  }

  lemma {:induction false} KeptLength<S, T>(xs: seq<S>, ys: seq<T>, gone: seq<bool>)
    requires |xs| == |ys| == |gone|
    ensures |Kept(xs, gone)| == |Kept(ys, gone)|
  {
    if xs != [] { KeptLength(xs[..|xs| - 1], ys[..|xs| - 1], gone[..|xs| - 1]); }
  }

  lemma {:induction false} KeptFrom<T>(xs: seq<T>, gone: seq<bool>)
    requires |xs| == |gone|
    ensures forall x <- Kept(xs, gone) :: x in xs
  {
    if xs != [] { KeptFrom(xs[..|xs| - 1], gone[..|xs| - 1]); }
  }

  lemma SweepStart<T>(ring: seq<Element<T>>, contents: seq<T>, gone: seq<bool>)
    requires |ring| == |contents| + 1 && |gone| == |contents|
    ensures InSweep(ring, contents, ring[0], ring[1..], contents, gone, 0)
    ensures SweepIndex(contents, gone, 0) == 0
  {
    assert ring[1..][..0] == [] && contents[..0] == [] && gone[..0] == [];
  }

  lemma SweepAt<T>(ring: seq<Element<T>>, contents: seq<T>, head: Element<T>, es: seq<Element<T>>, xs: seq<T>,
                   gone: seq<bool>, i: nat)
    requires InSweep(ring, contents, head, es, xs, gone, i)
    ensures var k := SweepIndex(xs, gone, i);
      && |contents| == k + |xs| - i && |ring| == |contents| + 1
      && (i < |xs| ==> contents[k] == xs[i])
    ensures forall x <- contents :: x in xs
    ensures forall e <- ring :: e in [head] + es
  {
    KeptLength(es[..i], xs[..i], gone[..i]);
    KeptFrom(xs[..i], gone[..i]);
    KeptFrom(es[..i], gone[..i]);
  }

  /** The element visited stays: the list is as it was. */
  lemma SweepStay<T>(ring: seq<Element<T>>, contents: seq<T>, head: Element<T>, es: seq<Element<T>>, xs: seq<T>,
                     gone: seq<bool>, i: nat)
    requires InSweep(ring, contents, head, es, xs, gone, i) && i < |xs| && !gone[i]
    ensures InSweep(ring, contents, head, es, xs, gone, i + 1)
    ensures SweepIndex(xs, gone, i + 1) == SweepIndex(xs, gone, i) + 1
  {
    KeptNext(es, gone, i);
    KeptNext(xs, gone, i);
    hide Kept;
    assert es[i..] == [es[i]] + es[i + 1..] && xs[i..] == [xs[i]] + xs[i + 1..];
  }

  /** The element visited is deleted. */
  lemma SweepDrop<T>(ring: seq<Element<T>>, contents: seq<T>, head: Element<T>, es: seq<Element<T>>, xs: seq<T>,
                     gone: seq<bool>, i: nat)
    requires InSweep(ring, contents, head, es, xs, gone, i) && i < |xs| && gone[i]
    ensures var k := SweepIndex(xs, gone, i);
      && k + 1 < |ring| && k < |contents| && SweepIndex(xs, gone, i + 1) == k
      && InSweep(ring[..k + 1] + ring[k + 2..], contents[..k] + contents[k + 1..], head, es, xs, gone, i + 1)
  {
    KeptNext(es, gone, i);
    KeptNext(xs, gone, i);
    KeptLength(es[..i], xs[..i], gone[..i]);
    hide Kept;
    var k := SweepIndex(xs, gone, i);
    assert Kept(es[..i], gone[..i]) + [] == Kept(es[..i], gone[..i]);
    assert Kept(xs[..i], gone[..i]) + [] == Kept(xs[..i], gone[..i]);
    assert ring[..k + 1] == [head] + Kept(es[..i], gone[..i]) && ring[k + 2..] == es[i + 1..];
    assert contents[..k] == Kept(xs[..i], gone[..i]) && contents[k + 1..] == xs[i + 1..];
  }

  lemma {:induction false} SweepDone<T>(ring: seq<Element<T>>, contents: seq<T>, head: Element<T>,
                                        es: seq<Element<T>>, xs: seq<T>, gone: seq<bool>)
    requires InSweep(ring, contents, head, es, xs, gone, |xs|)
    ensures ring == [head] + Kept(es, gone) && contents == Kept(xs, gone)
  {
    assert es[..|xs|] == es && xs[..|xs|] == xs && gone[..|xs|] == gone;
  }
}
