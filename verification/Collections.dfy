/** Facts about sequences and sets that several models need. */
module Collections {
  import opened Wrappers

  /** The order of strings by character, which is the order of their UTF-8 bytes. */
  predicate StrLess(a: string, b: string) {
    b != "" && (a == "" || a[0] < b[0] || (a[0] == b[0] && StrLess(a[1..], b[1..])))
  }

  ghost predicate Distinct<T>(xs: seq<T>) { forall i, j | 0 <= i < j < |xs| :: xs[i] != xs[j] }

  lemma DistinctParts<T>(xs: seq<T>)
    ensures Distinct(xs) <==> xs == [] || (xs[0] !in xs[1..] && Distinct(xs[1..]))
  {
    if xs != [] {
      assert forall i | 0 < i < |xs| :: xs[i] == xs[1..][i - 1];
      assert forall i | 0 <= i < |xs[1..]| :: xs[1..][i] == xs[i + 1];
    }
  }

  lemma DistinctCons<T>(x: T, xs: seq<T>)
    ensures Distinct([x] + xs) <==> x !in xs && Distinct(xs)
  {
    DistinctParts([x] + xs);
    assert ([x] + xs)[1..] == xs;
  }

  lemma {:induction false} ElementCount<T>(xs: seq<T>)
    ensures |(set x <- xs)| <= |xs|
    ensures |(set x <- xs)| == |xs| <==> Distinct(xs)
  {
    DistinctParts(xs);
    if xs != [] {
      ElementCount(xs[1..]);
      assert xs == [xs[0]] + xs[1..];
      assert (set x <- xs) == {xs[0]} + (set x <- xs[1..]);
      if xs[0] in xs[1..] { assert (set x <- xs) == set x <- xs[1..]; }
    }
  }

  lemma {:induction false} Subset<T>(a: set<T>, b: set<T>)
    requires a <= b
    ensures |a| <= |b|
  {
    if a != {} {
      var x :| x in a;
      Subset(a - {x}, b - {x});
    }
  }

  lemma SubsetFills<T>(a: set<T>, b: set<T>)
    requires a <= b && |a| == |b|
    ensures a == b
  {
    if exists x <- b :: x !in a {
      var x :| x in b && x !in a;
      Subset(a, b - {x});
    }
  }

  /** Distinct elements that fill a list of the same length are all of its elements. */
  lemma Pigeonhole<T>(xs: seq<T>, ys: seq<T>)
    requires Distinct(xs) && |xs| == |ys| && forall x <- xs :: x in ys
    ensures forall y <- ys :: y in xs
  {
    ElementCount(xs);
    ElementCount(ys);
    var a, b := set x <- xs, set y <- ys;
    Subset(a, b);
    SubsetFills(a, b);
    forall y <- ys ensures y in xs { assert y in b; }
  }

  /** What a loop has gathered so far, in front of what the rest gives. */
  ghost function Prepend<T>(done: seq<T>, rest: Option<seq<T>>): (r: Option<seq<T>>)
    ensures done == [] ==> r == rest
    ensures rest == Some([]) ==> r == Some(done)
  {
    if rest.None? then None else
    assert done + [] == done && [] + rest.value == rest.value;
    Some(done + rest.value)
  }

  lemma PrependTwice<T>(done: seq<T>, x: T, rest: Option<seq<T>>)
    ensures Prepend(done + [x], rest) == Prepend(done, Prepend([x], rest))
  {
    if rest.Some? { assert done + [x] + rest.value == done + ([x] + rest.value); }
  }
}
