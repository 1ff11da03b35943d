/** Facts about sequence expressions, stated once so that longer proofs need not reason
    element by element. */
module Sequences {
  lemma Assoc<T>(a: seq<T>, b: seq<T>, c: seq<T>)
    ensures a + b + c == a + (b + c)
  {
  }

  lemma Empty<T>(a: seq<T>)
    ensures a + [] == a && [] + a == a
  {
  }

  lemma HeadTail<T>(a: seq<T>)
    requires a != []
    ensures [a[0]] + a[1..] == a
  {
  }

  lemma TailOfConcat<T>(a: seq<T>, b: seq<T>)
    requires a != []
    ensures a + b != [] && (a + b)[0] == a[0] && (a + b)[1..] == a[1..] + b
  {
  }

  lemma DropPrefix<T>(a: seq<T>, b: seq<T>)
    ensures (a + b)[|a|..] == b
  {
  }

  lemma DropInside<T>(a: seq<T>, b: seq<T>, n: nat)
    requires n <= |a|
    ensures (a + b)[n..] == a[n..] + b
  {
  }

  lemma SliceInside<T>(a: seq<T>, b: seq<T>, i: nat, j: nat)
    requires i <= j <= |a|
    ensures (a + b)[i..j] == a[i..j]
  {
  }

  lemma Appended<T>(a: seq<T>, x: T)
    ensures (a + [x])[..|a + [x]| - 1] == a && (a + [x])[|a + [x]| - 1] == x
  {
  }

  lemma SliceOfSlice<T>(s: seq<T>, a: nat, b: nat, i: nat, j: nat)
    requires a <= b <= |s| && i <= j <= b - a
    ensures s[a..b][i..j] == s[a + i..a + j]
  {
    var x, y := s[a..b][i..j], s[a + i..a + j];
    forall k | 0 <= k < |x|
      ensures x[k] == y[k]
    {
      assert x[k] == s[a..b][i + k];
      assert y[k] == s[a + i + k];
    }
  }

  lemma AllAppend<T>(holds: T -> bool, xs: seq<T>, x: T)
    ensures (forall y <- xs + [x] :: holds(y)) <==> (forall y <- xs :: holds(y)) && holds(x)
  {
    assert forall y :: y in xs + [x] <==> y in xs || y == x;
  }

  lemma AllJoin<T>(holds: T -> bool, xs: seq<T>, ys: seq<T>)
    ensures (forall x <- xs + ys :: holds(x)) <==> (forall x <- xs :: holds(x)) && forall y <- ys :: holds(y)
  {
    assert forall x :: x in xs + ys <==> x in xs || x in ys;
  }

  lemma AllSplit<T>(holds: T -> bool, xs: seq<T>)
    requires xs != []
    ensures (forall x <- xs :: holds(x)) <==> holds(xs[0]) && forall x <- xs[1..] :: holds(x)
  {
    HeadTail(xs);
    assert forall x :: x in xs <==> x == xs[0] || x in xs[1..];
  }
}
