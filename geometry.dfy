/** `Polygon2D`: a closed polygon over unsigned integer points, with its
    edges, its bounding box and the crossings of a scanline. */
module Geometry {
  import opened Types
  import opened REMath
  import opened Buffer

  /** `Point2D` (`glm::u64vec2`). */
  datatype Point2D = Point2D(x: nat, y: nat)

  /** `Line2D`: an edge from `p1` to `p2`. */
  datatype Line2D = Line2D(p1: Point2D, p2: Point2D)

  /** `Range2D` (`glm::u64vec4`): minimum x, minimum y, maximum x, maximum y. */
  datatype Range2D = Range2D(minX: nat, minY: nat, maxX: nat, maxY: nat)

  // ---------------------------------------------------------------------
  // Sorting by x (`std::sort` with `p1.x < p2.x`).

  /** Points `i` and `j` of `s` are in x order. */
  predicate InOrder(s: seq<Point2D>, i: nat, j: nat)
    requires i < |s| && j < |s|
  {
    s[i].x <= s[j].x
  }

  /** Non-decreasing x: the order `std::sort` leaves behind. */
  predicate SortedByX(s: seq<Point2D>)
  {
    forall i, j :: 0 <= i < j < |s| ==> InOrder(s, i, j)
  }

  /** Inserts `p` in front of the first element with a larger x. */
  function InsertByX(p: Point2D, s: seq<Point2D>): seq<Point2D>
  {
    if |s| == 0 then [p]
    else if p.x <= s[0].x then [p] + s
    else [s[0]] + InsertByX(p, s[1..])
  }

  /** Inserting into a sorted list keeps it sorted and adds exactly `p`. */
  lemma {:induction false} InsertByXSorted(p: Point2D, s: seq<Point2D>)
    requires SortedByX(s)
    ensures SortedByX(InsertByX(p, s))
    ensures multiset(InsertByX(p, s)) == multiset(s) + multiset{p}
    ensures |InsertByX(p, s)| == |s| + 1
  {
    if |s| == 0 {
    } else if p.x <= s[0].x {
      var r := [p] + s;
      forall i, j | 0 <= i < j < |r| ensures InOrder(r, i, j) {
        assert r[j] == s[j - 1] && InOrder(s, 0, j - 1);
        if i > 0 {
          assert r[i] == s[i - 1] && InOrder(s, i - 1, j - 1);
        }
      }
    } else {
      var rest := s[1..];
      var t := InsertByX(p, rest);
      SortedTail(s);
      InsertByXSorted(p, rest);
      assert s == [s[0]] + rest;
      HeadBelow(s[0], p, rest, t);
      ConsSorted(s[0], t);
    }
  }

  /** Every point of `t`, a permutation of `rest` plus `p`, has an x no
      smaller than `h`'s when `h` precedes the sorted `rest` and `p`. */
  lemma HeadBelow(h: Point2D, p: Point2D, rest: seq<Point2D>, t: seq<Point2D>)
    requires SortedByX([h] + rest) && h.x < p.x
    requires multiset(t) == multiset(rest) + multiset{p}
    ensures forall k :: 0 <= k < |t| ==> h.x <= t[k].x
  {
    forall k | 0 <= k < |t| ensures h.x <= t[k].x {
      assert t[k] in multiset(t);
      if t[k] != p {
        assert t[k] in multiset(rest);
        var m :| 0 <= m < |rest| && rest[m] == t[k];
        assert ([h] + rest)[0] == h && ([h] + rest)[m + 1] == rest[m];
        assert InOrder([h] + rest, 0, m + 1);
      }
    }
  }

  /** Dropping the first point keeps a list sorted. */
  lemma SortedTail(s: seq<Point2D>)
    requires SortedByX(s) && |s| > 0
    ensures SortedByX(s[1..])
  {
    var t := s[1..];
    forall i, j | 0 <= i < j < |t| ensures InOrder(t, i, j) {
      assert t[i] == s[i + 1] && t[j] == s[j + 1] && InOrder(s, i + 1, j + 1);
    }
  }

  /** A point below every point of a sorted list can be put in front. */
  lemma ConsSorted(h: Point2D, t: seq<Point2D>)
    requires SortedByX(t)
    requires forall k :: 0 <= k < |t| ==> h.x <= t[k].x
    ensures SortedByX([h] + t)
  {
    var r := [h] + t;
    forall i, j | 0 <= i < j < |r| ensures InOrder(r, i, j) {
      assert r[j] == t[j - 1];
      if i > 0 {
        assert r[i] == t[i - 1] && InOrder(t, i - 1, j - 1);
      }
    }
  }

  /** Sorts by non-decreasing x (insertion sort). */
  function SortByX(s: seq<Point2D>): seq<Point2D>
  {
    if |s| == 0 then [] else InsertByX(s[0], SortByX(s[1..]))
  }

  /** `SortByX` returns a sorted permutation of its input. */
  lemma {:induction false} SortByXSorted(s: seq<Point2D>)
    ensures SortedByX(SortByX(s))
    ensures multiset(SortByX(s)) == multiset(s)
    ensures |SortByX(s)| == |s|
  {
    if |s| > 0 {
      SortByXSorted(s[1..]);
      InsertByXSorted(s[0], SortByX(s[1..]));
      assert s == [s[0]] + s[1..];
    }
  }

  /** `std::sort` is not stable, but on points of one scanline the sorted
      order is unique: two points with the same x and the same y are
      equal. Any sort by x therefore yields what `SortByX` yields. */
  lemma {:induction false} SortedPermutationUnique(a: seq<Point2D>, b: seq<Point2D>, y: nat)
    requires SortedByX(a) && SortedByX(b) && multiset(a) == multiset(b)
    requires forall i :: 0 <= i < |a| ==> a[i].y == y
    ensures a == b
    decreases |a|
  {
    assert |a| == |multiset(a)| == |multiset(b)| == |b|;
    if |a| > 0 {
      SameHead(a, b, y);
      DropHead(a);
      DropHead(b);
      SortedTail(a);
      SortedTail(b);
      SortedPermutationUnique(a[1..], b[1..], y);
      assert a == [a[0]] + a[1..];
      assert b == [b[0]] + b[1..];
    }
  }

  /** Two x-sorted permutations of one scanline's points start alike. */
  lemma SameHead(a: seq<Point2D>, b: seq<Point2D>, y: nat)
    requires SortedByX(a) && SortedByX(b) && multiset(a) == multiset(b) && |a| > 0
    requires forall i :: 0 <= i < |a| ==> a[i].y == y
    ensures |b| > 0 && a[0] == b[0]
  {
    assert a[0] in multiset(b);
    var j :| 0 <= j < |b| && b[j] == a[0];
    assert b[0] in multiset(a);
    var i :| 0 <= i < |a| && a[i] == b[0];
    assert InOrder(a, 0, i) || i == 0;
    assert InOrder(b, 0, j) || j == 0;
    assert a[0].x <= a[i].x == b[0].x <= b[j].x == a[0].x;
  }

  /** Dropping the head removes one copy of it from the multiset. */
  lemma DropHead(s: seq<Point2D>)
    requires |s| > 0
    ensures multiset(s[1..]) == multiset(s) - multiset{s[0]}
  {
    assert s == [s[0]] + s[1..];
    assert multiset(s) == multiset{s[0]} + multiset(s[1..]);
  }

  // ---------------------------------------------------------------------

  /** The crossing of the scanline `y` with the edge from `lo` (strictly
      below the line) to `hi` (on or above it): the lower endpoint's x
      interpolated by `f = (y - lo.y) / (hi.y - lo.y)` and truncated to an
      integer. */
  function Crossing(hi: Point2D, lo: Point2D, y: nat): Point2D
    requires lo.y < y <= hi.y
  {
    var f := (y - lo.y) as real / (hi.y - lo.y) as real;
    Point2D(Trunc(Lerp(lo.x as real, hi.x as real, f)), y)
  }

  /** The crossing lies on the scanline, between the two endpoints' x,
      and is the upper endpoint itself when the scanline passes through it. */
  lemma CrossingBetween(hi: Point2D, lo: Point2D, y: nat)
    requires lo.y < y <= hi.y
    ensures Crossing(hi, lo, y).y == y
    ensures Min(lo.x, hi.x) <= Crossing(hi, lo, y).x <= Max(lo.x, hi.x)
    ensures y == hi.y ==> Crossing(hi, lo, y).x == hi.x
  {
    var f := (y - lo.y) as real / (hi.y - lo.y) as real;
    var v := Lerp(lo.x as real, hi.x as real, f);
    assert 0.0 <= f <= 1.0;
    assert RMin(lo.x as real, hi.x as real) <= v;
  }

  /** What one edge adds to `intersection(y)`. The three conditions are
      checked one after the other, as in the source. */
  function EdgeCrossings(e: Line2D, y: nat): seq<Point2D>
  {
    (if e.p1.y >= y && e.p2.y < y then [Crossing(e.p1, e.p2, y)] else [])
    + (if e.p1.y < y && e.p2.y >= y then [Crossing(e.p2, e.p1, y)] else [])
    + (if e.p1.y == y && e.p2.y == y then [e.p1, e.p2] else [])
  }

  /** An edge adds one crossing exactly when its endpoints lie on opposite
      sides of the scanline (one strictly below, one on or above), both
      endpoints when it lies on the scanline, and nothing otherwise; every
      point it adds lies on the scanline. */
  lemma EdgeCrossingsShape(e: Line2D, y: nat)
    ensures forall i :: 0 <= i < |EdgeCrossings(e, y)| ==> EdgeCrossings(e, y)[i].y == y
    ensures |EdgeCrossings(e, y)| <= 2
    ensures (e.p1.y < y) != (e.p2.y < y) <==> |EdgeCrossings(e, y)| == 1
    ensures e.p1.y < y < e.p2.y || e.p2.y < y < e.p1.y ==>
      |EdgeCrossings(e, y)| == 1 && Min(e.p1.x, e.p2.x) <= EdgeCrossings(e, y)[0].x <= Max(e.p1.x, e.p2.x)
    ensures e.p1.y == y && e.p2.y == y ==> EdgeCrossings(e, y) == [e.p1, e.p2]
    ensures (e.p1.y < y) == (e.p2.y < y) && !(e.p1.y == y && e.p2.y == y) ==> EdgeCrossings(e, y) == []
  {
    if e.p1.y >= y && e.p2.y < y {
      CrossingBetween(e.p1, e.p2, y);
    }
    if e.p1.y < y && e.p2.y >= y {
      CrossingBetween(e.p2, e.p1, y);
    }
  }

  /** The vertex after `i` in a closed loop of `n` vertices. */
  function Successor(i: nat, n: nat): (j: nat)
    requires i < n
    ensures j < n && j == (i + 1) % n
  {
    if i + 1 == n then
      DivModUnique(1, 0, n);
      0
    else
      DivModUnique(0, i + 1, n);
      i + 1
  }

  /** `Polygon2D`: the vertices in order; the last connects back to the first. */
  datatype Polygon2D = Polygon2D(points: seq<Point2D>)
  {
    function Size(): nat { |points| }

    /** `getLine(i)`: the edge from vertex `i` to the next one, where the
        next after the last is vertex 0. */
    function GetLine(index: nat): (l: Line2D)
      requires index < |points|
      ensures l.p1 == points[index]
      ensures l.p2 == points[Successor(index, |points|)]
    {
      var ip1 := if index + 1 == |points| then 0 else index + 1;
      Line2D(points[index], points[ip1])
    }

    /** `getLineList`: every edge, in vertex order. */
    method GetLineList() returns (lines: seq<Line2D>)
      ensures |lines| == |points|
      ensures forall i :: 0 <= i < |lines| ==> lines[i] == GetLine(i)
    {
      lines := [];
      var i := 0;
      while i < |points|
        invariant 0 <= i <= |points|
        invariant |lines| == i
        invariant forall k :: 0 <= k < i ==> lines[k] == GetLine(k)
      {
        lines := lines + [GetLine(i)];
        i := i + 1;
      }
    }

    /** The crossings the first `k` edges contribute, in edge order. */
    function CrossingsUpTo(y: nat, k: nat): (r: seq<Point2D>)
      requires k <= |points|
    {
      if k == 0 then [] else CrossingsUpTo(y, k - 1) + EdgeCrossings(GetLine(k - 1), y)
    }

    /** The unsorted crossing list of `intersection(y)`. */
    function Crossings(y: nat): seq<Point2D>
    {
      CrossingsUpTo(y, |points|)
    }

    /** `intersection(y)`: the crossings of every edge with the scanline,
        sorted by x. */
    method Intersection(y: nat) returns (pointList: seq<Point2D>)
      ensures pointList == SortByX(Crossings(y))
      ensures SortedByX(pointList)
      ensures multiset(pointList) == multiset(Crossings(y))
    {
      pointList := [];
      var i := 0;
      while i < |points|
        invariant 0 <= i <= |points|
        invariant pointList == CrossingsUpTo(y, i)
      {
        var line := GetLine(i);
        if line.p1.y >= y && line.p2.y < y {
          pointList := pointList + [Crossing(line.p1, line.p2, y)];
        }
        if line.p1.y < y && line.p2.y >= y {
          pointList := pointList + [Crossing(line.p2, line.p1, y)];
        }
        if line.p1.y == y && line.p2.y == y {
          pointList := pointList + [line.p1, line.p2];
        }
        assert pointList == CrossingsUpTo(y, i) + EdgeCrossings(line, y);
        i := i + 1;
      }
      SortByXSorted(pointList);
      pointList := SortByX(pointList);
    }

    /** At most two points per edge, all on the scanline. */
    lemma {:induction false} CrossingsBound(y: nat, k: nat)
      requires k <= |points|
      ensures |CrossingsUpTo(y, k)| <= 2 * k
      ensures forall i :: 0 <= i < |CrossingsUpTo(y, k)| ==> CrossingsUpTo(y, k)[i].y == y
    {
      if k > 0 {
        CrossingsBound(y, k - 1);
        EdgeCrossingsShape(GetLine(k - 1), y);
        var e := EdgeCrossings(GetLine(k - 1), y);
        assert CrossingsUpTo(y, k) == CrossingsUpTo(y, k - 1) + e;
      }
    }

    /** `intersection(y)` returns at most `2n` points, each on the scanline. */
    lemma IntersectionBound(y: nat)
      ensures |SortByX(Crossings(y))| <= 2 * |points|
      ensures forall i :: 0 <= i < |SortByX(Crossings(y))| ==> SortByX(Crossings(y))[i].y == y
    {
      CrossingsBound(y, |points|);
      SortByXSorted(Crossings(y));
      var c, s := Crossings(y), SortByX(Crossings(y));
      forall i | 0 <= i < |s| ensures s[i].y == y {
        assert s[i] in multiset(c);
      }
    }

    /** Any order by x of the crossings is the one `Intersection` returns. */
    lemma IntersectionOrderUnique(y: nat, other: seq<Point2D>)
      requires SortedByX(other) && multiset(other) == multiset(Crossings(y))
      ensures other == SortByX(Crossings(y))
    {
      IntersectionBound(y);
      SortByXSorted(Crossings(y));
      SortedPermutationUnique(SortByX(Crossings(y)), other, y);
    }

    /** No edge crosses the scanline `y = 0` (no unsigned y lies below it),
        so the `y == 0` fraction branch is never reached and the scanline 0
        only collects the endpoints of horizontal edges lying on it. */
    lemma {:induction false} ScanlineZero(k: nat)
      requires k <= |points|
      ensures forall i :: 0 <= i < |CrossingsUpTo(0, k)| ==> CrossingsUpTo(0, k)[i] in points
    {
      if k > 0 {
        ScanlineZero(k - 1);
        var e := GetLine(k - 1);
        assert e.p1 in points && e.p2 in points;
        EdgeCrossingsShape(e, 0);
        assert EdgeCrossings(e, 0) == [] || EdgeCrossings(e, 0) == [e.p1, e.p2];
      }
    }

    /** `range()` on a non-empty polygon: starts from vertex 0 and folds
        every vertex into the running minima and maxima. */
    method Range() returns (out: Range2D)
      requires |points| > 0
      ensures out == BoundsOf(points)
    {
      out := Range2D(points[0].x, points[0].y, points[0].x, points[0].y);
      var k := 0;
      while k < |points|
        invariant 0 <= k <= |points|
        invariant out == BoundsOf(points[..if k == 0 then 1 else k])
      {
        IncludeNext(points, k);
        out := Include(out, points[k]);
        k := k + 1;
      }
      assert points[..k] == points;
    }
  }

  /** Folding vertex `k` into the bounds of the vertices before it (of
      vertex 0 alone when `k` is 0) gives the bounds of the first `k + 1`. */
  lemma IncludeNext(pts: seq<Point2D>, k: nat)
    requires k < |pts|
    ensures Include(BoundsOf(pts[..if k == 0 then 1 else k]), pts[k]) == BoundsOf(pts[..k + 1])
  {
    if k > 0 {
      assert pts[..k + 1][..k] == pts[..k];
    }
  }

  /** `out` widened to contain `p`. */
  function Include(b: Range2D, p: Point2D): Range2D
  {
    Range2D(Min(b.minX, p.x), Min(b.minY, p.y), Max(b.maxX, p.x), Max(b.maxY, p.y))
  }

  /** The bounding box of a non-empty point list: the first point folded
      with `Include` into every later one. `BoundsOfBox` states what it is. */
  function BoundsOf(pts: seq<Point2D>): Range2D
    requires |pts| > 0
  {
    if |pts| == 1 then Range2D(pts[0].x, pts[0].y, pts[0].x, pts[0].y)
    else Include(BoundsOf(pts[..|pts| - 1]), pts[|pts| - 1])
  }

  /** Every point lies inside `BoundsOf` and each of its four bounds is a
      coordinate of some point: it is the smallest box around the points. */
  lemma {:induction false} BoundsOfBox(pts: seq<Point2D>)
    requires |pts| > 0
    ensures var b := BoundsOf(pts);
      && (forall i :: 0 <= i < |pts| ==> b.minX <= pts[i].x <= b.maxX && b.minY <= pts[i].y <= b.maxY)
      && (exists i :: 0 <= i < |pts| && pts[i].x == b.minX)
      && (exists i :: 0 <= i < |pts| && pts[i].y == b.minY)
      && (exists i :: 0 <= i < |pts| && pts[i].x == b.maxX)
      && (exists i :: 0 <= i < |pts| && pts[i].y == b.maxY)
    decreases |pts|
  {
    var b := BoundsOf(pts);
    var n := |pts| - 1;
    if n == 0 {
      assert pts[0].x == b.minX && pts[0].y == b.minY && pts[0].x == b.maxX && pts[0].y == b.maxY;
    } else {
      var pre := pts[..n];
      BoundsOfBox(pre);
      var b0 := BoundsOf(pre);
      assert forall i :: 0 <= i < n ==> pre[i] == pts[i];
      var i1 :| 0 <= i1 < n && pre[i1].x == b0.minX;
      var i2 :| 0 <= i2 < n && pre[i2].y == b0.minY;
      var i3 :| 0 <= i3 < n && pre[i3].x == b0.maxX;
      var i4 :| 0 <= i4 < n && pre[i4].y == b0.maxY;
      assert pts[if b.minX == pts[n].x then n else i1].x == b.minX;
      assert pts[if b.minY == pts[n].y then n else i2].y == b.minY;
      assert pts[if b.maxX == pts[n].x then n else i3].x == b.maxX;
      assert pts[if b.maxY == pts[n].y then n else i4].y == b.maxY;
    }
  }

  /** Consecutive edges of the line list share their vertex: the list is a
      closed chain. */
  lemma LineListClosed(poly: Polygon2D, lines: seq<Line2D>)
    requires |lines| == |poly.points| > 0
    requires forall i :: 0 <= i < |lines| ==> lines[i] == poly.GetLine(i)
    ensures forall i :: 0 <= i < |lines| ==> lines[i].p2 == lines[(i + 1) % |lines|].p1
    ensures lines[|lines| - 1].p2 == lines[0].p1
  {
    var n := |lines|;
    assert (n - 1 + 1) % n == 0;
  }
}
