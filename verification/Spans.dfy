/** Intervals of integers, sizes of finite sets, lists as sets, and blocks of consecutive map entries. */
module Spans {

  datatype Option<+T> = None | Some(value: T)

  predicate Between(lo: int, l: int, hi: int) {
    lo <= l < hi
  }

  /** The integers from `lo` up to but excluding `hi`. */
  function Span(lo: int, hi: int): (s: set<int>)
    ensures forall l :: l in s <==> lo <= l < hi
  {
    set l: int | lo <= l < hi && Between(lo, l, hi)
  }

  lemma {:induction false} SpanSize(lo: int, hi: int)
    requires lo <= hi
    ensures |Span(lo, hi)| == hi - lo
    decreases hi - lo
  {
    if lo < hi {
      SpanSize(lo, hi - 1);
      assert Span(lo, hi) == Span(lo, hi - 1) + {hi - 1};
    } else {
      assert Span(lo, hi) == {};
    }
  }

  lemma {:induction false} SubsetSize<T>(a: set<T>, b: set<T>)
    requires a <= b
    ensures |a| <= |b|
    decreases a
  {
    if a != {} {
      var x :| x in a;
      SubsetSize(a - {x}, b - {x});
    }
  }

  lemma UnionSize<T>(a: set<T>, b: set<T>)
    ensures |a + b| <= |a| + |b|
  {
    assert a + b == a + (b - a);
    SubsetSize(b - a, b);
  }

  predicate Distinct<T(==)>(xs: seq<T>) {
    forall i, j :: 0 <= i < j < |xs| ==> xs[i] != xs[j]
  }

  function Elems<T>(xs: seq<T>): set<T> {
    set x | x in xs
  }

  lemma Element<T>(s: set<T>) returns (x: T)
    requires |s| > 0
    ensures x in s
  {
    x :| x in s;
  }

  lemma TailOfAppend<T>(xs: seq<T>, ys: seq<T>)
    requires xs != []
    ensures (xs + ys)[1..] == xs[1..] + ys
  {
  }

  lemma TailOfCons<T>(x: T, xs: seq<T>)
    ensures ([x] + xs)[1..] == xs
  {
  }

  lemma AppendLast<T>(xs: seq<T>, ys: seq<T>)
    requires ys != []
    ensures xs + ys == (xs + ys[..|ys| - 1]) + [ys[|ys| - 1]]
    ensures (xs + ys)[..|xs + ys| - 1] == xs + ys[..|ys| - 1]
  {
  }

  /** The map that places `xs` at consecutive keys from `start` on. */
  ghost function Overlay<T>(start: int, xs: seq<T>): (m: map<int, T>) {
    var keys := Span(start, start + |xs|);
    map l | l in keys :: xs[l - start]
  }

  lemma OverlayAt<T>(start: int, xs: seq<T>, l: int)
    ensures l in Overlay(start, xs) <==> start <= l < start + |xs|
    ensures start <= l < start + |xs| ==> Overlay(start, xs)[l] == xs[l - start]
  {
  }
}
