/** The part of the `intervaltree` library the simulation relies on: a tree
    is a set of half-open intervals [begin, end) carrying data, and a slice
    `tree[lo:hi]` returns the intervals that overlap [lo, hi); a slice whose
    bounds are not increasing is empty. */
module IntervalTree {

  datatype Interval<T> = Interval(begin: real, end: real, data: T)

  /** `tree[lo:hi]`. */
  function Slice<T(==)>(tree: set<Interval<T>>, lo: real, hi: real): (r: set<Interval<T>>)
    ensures r <= tree
    ensures forall iv :: iv in tree ==> (iv in r <==> lo < hi && iv.begin < hi && lo < iv.end)
  {
    set iv | iv in tree && lo < hi && iv.begin < hi && lo < iv.end
  }

  /** The data of a set of intervals. */
  function Data<T(==)>(ivs: set<Interval<T>>): (r: set<T>)
    ensures forall iv :: iv in ivs ==> iv.data in r
    ensures forall x :: x in r ==> exists iv :: iv in ivs && iv.data == x
  {
    set iv | iv in ivs :: iv.data
  }
}

/** The encounter geometry of an infecting phage: positions are drawn in
    [0,1), and the window of radius `r` around a phage at `pos` wraps around
    the ends of [0,1]. Intervals are not wrapped: the part of a bacterium's
    interval that runs past 1 is never met from near 0. */
module Encounter {
  import opened IntervalTree

  /** The query of the infection routine: one slice in the middle of the
      world, two slices when the window crosses 0 or 1, and their union. */
  function Window<T(==)>(tree: set<Interval<T>>, pos: real, r: real): (w: set<Interval<T>>)
    ensures w <= tree
  {
    if pos - r < 0.0 then
      var remainder := r - pos;
      Slice(tree, 0.0, pos + r) + Slice(tree, 1.0 - remainder, 1.0)
    else if pos + r > 1.0 then
      var remainder := pos + r - 1.0;
      Slice(tree, 0.0, remainder) + Slice(tree, pos - r, 1.0)
    else
      Slice(tree, pos - r, pos + r)
  }

  /** The bacteria met: the data of the intervals the query returns, each
      carried by some interval of the tree. */
  function Encountered<T(==)>(tree: set<Interval<T>>, pos: real, r: real): (met: set<T>)
    ensures forall iv :: iv in Window(tree, pos, r) ==> iv.data in met
    ensures forall x :: x in met ==> exists iv :: iv in Window(tree, pos, r) && iv.data == x
    ensures forall x :: x in met ==> exists iv :: iv in tree && iv.data == x
  {
    Data(Window(tree, pos, r))
  }

  function ClipLow(x: real): real { if x < 0.0 then 0.0 else x }
  function ClipHigh(x: real): real { if x > 1.0 then 1.0 else x }

  /** [b, e) overlaps the non-empty piece of [lo, hi) that lies in [0, 1]. */
  predicate MeetsClipped(b: real, e: real, lo: real, hi: real)
  {
    var l := ClipLow(lo);
    var h := ClipHigh(hi);
    l < h && b < h && l < e
  }

  /** The window with wrap-around: [pos-r, pos+r) shifted by -1, 0 and +1,
      each piece clipped to [0, 1]; an interval is met when it overlaps a
      piece as it lies, without being wrapped itself. */
  predicate InCircularWindow(b: real, e: real, pos: real, r: real)
  {
    || MeetsClipped(b, e, pos - r - 1.0, pos + r - 1.0)
    || MeetsClipped(b, e, pos - r, pos + r)
    || MeetsClipped(b, e, pos - r + 1.0, pos + r + 1.0)
  }

  /** The query returns exactly the intervals of the tree that overlap the
      wrapped, clipped window, provided the phage stands in [0,1), the radius
      is at most one half, and every interval starts in [0,1). */
  lemma WindowIsCircular<T>(tree: set<Interval<T>>, pos: real, r: real)
    requires 0.0 <= pos < 1.0 && 0.0 <= r <= 0.5
    requires forall iv :: iv in tree ==> 0.0 <= iv.begin < 1.0 && iv.begin < iv.end
    ensures forall iv :: iv in tree ==>
              (iv in Window(tree, pos, r) <==> InCircularWindow(iv.begin, iv.end, pos, r))
  {
  }

  /** A bacterium just below 1 is met from just above 0 ... */
  lemma MeetsAcrossZero<T>(tree: set<Interval<T>>, eps: real, r: real, iv: Interval<T>)
    requires 0.0 < eps && 2.0 * eps < r <= 0.5
    requires iv in tree && iv.begin == 1.0 - eps && iv.end > iv.begin
    ensures iv.data in Encountered(tree, eps, r)
  {
    assert iv in Window(tree, eps, r);
  }

  /** ... and a bacterium just above 0 is met from just below 1. */
  lemma MeetsAcrossOne<T>(tree: set<Interval<T>>, eps: real, r: real, iv: Interval<T>)
    requires 0.0 < eps && 2.0 * eps < r <= 0.5
    requires iv in tree && iv.begin == eps && iv.end > iv.begin
    ensures iv.data in Encountered(tree, 1.0 - eps, r)
  {
    assert iv in Window(tree, 1.0 - eps, r);
  }

  /** A window of radius zero meets nothing. */
  lemma EmptyWindow<T>(tree: set<Interval<T>>, pos: real)
    requires 0.0 <= pos <= 1.0
    ensures Encountered(tree, pos, 0.0) == {}
  {
    assert Window(tree, pos, 0.0) == {};
  }

  /** The overhang of an interval past 1 is not wrapped: a bacterium at
      0.99995, one agent width wide, reaches 1.00005, but a phage whose
      window [0.00003, 0.00203) would meet that overhang on the circle does
      not meet it. */
  lemma OverhangNotWrapped<T>(tree: set<Interval<T>>, iv: Interval<T>)
    requires iv in tree && iv.begin == 0.99995 && iv.end == 1.00005
    ensures iv !in Window(tree, 0.00103, 0.001)
    ensures iv.begin - 1.0 < 0.00103 + 0.001 && 0.00103 - 0.001 < iv.end - 1.0
  {
  }
}
