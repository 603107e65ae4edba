/** Corner ordering and the output-size rule of the perspective rectifier
    (`order_points` and the size part of `four_point_transform`). */
module Geometry {

  /** A point in image coordinates; x grows to the right, y downwards. */
  datatype Point = Point(x: real, y: real)

  /** The ranking used for a corner: `x + y` (`pts.sum(axis=1)`) or, when
      `byDiff`, `y - x` (`np.diff(pts, axis=1)`). */
  function KeyOf(p: Point, byDiff: bool): real
  {
    if byDiff then p.y - p.x else p.x + p.y
  }

  function Keys(pts: seq<Point>, byDiff: bool): (ks: seq<real>)
    ensures |ks| == |pts|
    ensures forall i :: 0 <= i < |pts| ==> ks[i] == KeyOf(pts[i], byDiff)
  {
    seq(|pts|, i requires 0 <= i < |pts| => KeyOf(pts[i], byDiff))
  }

  /** `np.argmin`: the first index holding the smallest key. */
  function FirstArgMin(keys: seq<real>): (k: nat)
    requires |keys| > 0
    ensures k < |keys|
    ensures forall j :: 0 <= j < |keys| ==> keys[k] <= keys[j]
    ensures forall j :: 0 <= j < k ==> keys[k] < keys[j]
    decreases |keys|
  {
    if |keys| == 1 then 0
    else
      var t := FirstArgMin(keys[1..]) + 1;
      if keys[0] <= keys[t] then 0 else t
  }

  /** `np.argmax`: the first index holding the largest key. */
  function FirstArgMax(keys: seq<real>): (k: nat)
    requires |keys| > 0
    ensures k < |keys|
    ensures forall j :: 0 <= j < |keys| ==> keys[j] <= keys[k]
    ensures forall j :: 0 <= j < k ==> keys[j] < keys[k]
    decreases |keys|
  {
    if |keys| == 1 then 0
    else
      var t := FirstArgMax(keys[1..]) + 1;
      if keys[0] >= keys[t] then 0 else t
  }

  /** What `order_points` returns: top-left, top-right, bottom-right, bottom-left. */
  function Corners(pts: seq<Point>): (rect: seq<Point>)
    requires |pts| > 0
    ensures |rect| == 4 && forall c :: 0 <= c < 4 ==> rect[c] in pts
    ensures forall p :: p in pts ==> KeyOf(rect[0], false) <= KeyOf(p, false) && KeyOf(p, false) <= KeyOf(rect[2], false)
    ensures forall p :: p in pts ==> KeyOf(rect[1], true) <= KeyOf(p, true) && KeyOf(p, true) <= KeyOf(rect[3], true)
  {
    var s, d := Keys(pts, false), Keys(pts, true);
    [pts[FirstArgMin(s)], pts[FirstArgMin(d)], pts[FirstArgMax(s)], pts[FirstArgMax(d)]]
  }

  /** `order_points`: fills a zeroed 4-slot array slot by slot. */
  method OrderPoints(pts: seq<Point>) returns (rect: array<Point>)
    requires |pts| > 0
    ensures fresh(rect) && rect[..] == Corners(pts)
  {
    rect := new Point[4](_ => Point(0.0, 0.0));
    var s := Keys(pts, false);
    rect[0] := pts[FirstArgMin(s)];
    rect[2] := pts[FirstArgMax(s)];
    var diff := Keys(pts, true);
    rect[1] := pts[FirstArgMin(diff)];
    rect[3] := pts[FirstArgMax(diff)];
  }

  /** The point `np.argmin` picks comes before every point with an equal key. */
  lemma ArgMinEarliest(pts: seq<Point>, byDiff: bool)
    requires |pts| > 0
    ensures var k := FirstArgMin(Keys(pts, byDiff));
            k < |pts| && forall j :: 0 <= j < k ==> KeyOf(pts[j], byDiff) > KeyOf(pts[k], byDiff)
  {
    var ks := Keys(pts, byDiff);
    var k := FirstArgMin(ks);
    forall j | 0 <= j < k
      ensures KeyOf(pts[j], byDiff) > KeyOf(pts[k], byDiff)
    {
      assert ks[j] > ks[k];
    }
  }

  /** The point `np.argmax` picks comes before every point with an equal key. */
  lemma ArgMaxEarliest(pts: seq<Point>, byDiff: bool)
    requires |pts| > 0
    ensures var k := FirstArgMax(Keys(pts, byDiff));
            k < |pts| && forall j :: 0 <= j < k ==> KeyOf(pts[j], byDiff) < KeyOf(pts[k], byDiff)
  {
    var ks := Keys(pts, byDiff);
    var k := FirstArgMax(ks);
    forall j | 0 <= j < k
      ensures KeyOf(pts[j], byDiff) < KeyOf(pts[k], byDiff)
    {
      assert ks[j] < ks[k];
    }
  }

  /** On ties every slot takes the earliest candidate, as argmin and argmax do. */
  lemma CornersTieBreak(pts: seq<Point>)
    requires |pts| > 0
    ensures exists k :: 0 <= k < |pts| && Corners(pts)[0] == pts[k] && forall j :: 0 <= j < k ==> KeyOf(pts[j], false) > KeyOf(pts[k], false)
    ensures exists k :: 0 <= k < |pts| && Corners(pts)[1] == pts[k] && forall j :: 0 <= j < k ==> KeyOf(pts[j], true) > KeyOf(pts[k], true)
    ensures exists k :: 0 <= k < |pts| && Corners(pts)[2] == pts[k] && forall j :: 0 <= j < k ==> KeyOf(pts[j], false) < KeyOf(pts[k], false)
    ensures exists k :: 0 <= k < |pts| && Corners(pts)[3] == pts[k] && forall j :: 0 <= j < k ==> KeyOf(pts[j], true) < KeyOf(pts[k], true)
  {
    var rect := Corners(pts);
    var s, d := Keys(pts, false), Keys(pts, true);
    assert rect[0] == pts[FirstArgMin(s)] && rect[1] == pts[FirstArgMin(d)];
    assert rect[2] == pts[FirstArgMax(s)] && rect[3] == pts[FirstArgMax(d)];
    EarliestMin(pts, false);
    EarliestMin(pts, true);
    EarliestMax(pts, false);
    EarliestMax(pts, true);
  }

  lemma EarliestMin(pts: seq<Point>, byDiff: bool)
    requires |pts| > 0
    ensures exists k :: 0 <= k < |pts| && pts[FirstArgMin(Keys(pts, byDiff))] == pts[k]
                        && forall j :: 0 <= j < k ==> KeyOf(pts[j], byDiff) > KeyOf(pts[k], byDiff)
  {
    ArgMinEarliest(pts, byDiff);
  }

  lemma EarliestMax(pts: seq<Point>, byDiff: bool)
    requires |pts| > 0
    ensures exists k :: 0 <= k < |pts| && pts[FirstArgMax(Keys(pts, byDiff))] == pts[k]
                        && forall j :: 0 <= j < k ==> KeyOf(pts[j], byDiff) < KeyOf(pts[k], byDiff)
  {
    ArgMaxEarliest(pts, byDiff);
  }

  /** The point chosen for the smallest key beats every other point strictly. */
  predicate UniqueMin(pts: seq<Point>, byDiff: bool)
    requires |pts| > 0
  {
    var m := pts[FirstArgMin(Keys(pts, byDiff))];
    forall p :: p in pts && p != m ==> KeyOf(m, byDiff) < KeyOf(p, byDiff)
  }

  /** The point chosen for the largest key beats every other point strictly. */
  predicate UniqueMax(pts: seq<Point>, byDiff: bool)
    requires |pts| > 0
  {
    var m := pts[FirstArgMax(Keys(pts, byDiff))];
    forall p :: p in pts && p != m ==> KeyOf(p, byDiff) < KeyOf(m, byDiff)
  }

  predicate UniqueExtremes(pts: seq<Point>)
    requires |pts| > 0
  {
    UniqueMin(pts, false) && UniqueMin(pts, true) && UniqueMax(pts, false) && UniqueMax(pts, true)
  }

  lemma SameMin(pts: seq<Point>, qs: seq<Point>, byDiff: bool)
    requires |pts| > 0 && multiset(pts) == multiset(qs) && UniqueMin(pts, byDiff)
    ensures |qs| > 0
    ensures qs[FirstArgMin(Keys(qs, byDiff))] == pts[FirstArgMin(Keys(pts, byDiff))]
  {
    assert pts[0] in multiset(qs);
    var m := pts[FirstArgMin(Keys(pts, byDiff))];
    var n := qs[FirstArgMin(Keys(qs, byDiff))];
    assert m in multiset(qs) && n in multiset(pts);
    var b :| 0 <= b < |qs| && qs[b] == m;
    var a :| 0 <= a < |pts| && pts[a] == n;
    assert KeyOf(n, byDiff) <= KeyOf(qs[b], byDiff);
    assert KeyOf(m, byDiff) <= KeyOf(pts[a], byDiff);
  }

  lemma SameMax(pts: seq<Point>, qs: seq<Point>, byDiff: bool)
    requires |pts| > 0 && multiset(pts) == multiset(qs) && UniqueMax(pts, byDiff)
    ensures |qs| > 0
    ensures qs[FirstArgMax(Keys(qs, byDiff))] == pts[FirstArgMax(Keys(pts, byDiff))]
  {
    assert pts[0] in multiset(qs);
    var m := pts[FirstArgMax(Keys(pts, byDiff))];
    var n := qs[FirstArgMax(Keys(qs, byDiff))];
    assert m in multiset(qs) && n in multiset(pts);
    var b :| 0 <= b < |qs| && qs[b] == m;
    var a :| 0 <= a < |pts| && pts[a] == n;
    assert KeyOf(qs[b], byDiff) <= KeyOf(n, byDiff);
    assert KeyOf(pts[a], byDiff) <= KeyOf(m, byDiff);
  }

  /** When each of the four extremes is held by one point only, the ordering
      does not depend on the order in which the points are given. */
  lemma CornersIndependentOfOrder(pts: seq<Point>, qs: seq<Point>)
    requires |pts| > 0 && multiset(pts) == multiset(qs) && UniqueExtremes(pts)
    ensures |qs| > 0 && Corners(qs) == Corners(pts)
  {
    SameMin(pts, qs, false);
    SameMin(pts, qs, true);
    SameMax(pts, qs, false);
    SameMax(pts, qs, true);
  }

  /** The corners of an axis-aligned rectangle, listed top-left, top-right,
      bottom-right, bottom-left. */
  function Rectangle(x0: real, y0: real, w: real, h: real): (q: seq<Point>)
    ensures |q| == 4
  {
    [Point(x0, y0), Point(x0 + w, y0), Point(x0 + w, y0 + h), Point(x0, y0 + h)]
  }

  lemma ArgMinIs(keys: seq<real>, k: nat)
    requires k < |keys| && forall j :: 0 <= j < |keys| && j != k ==> keys[k] < keys[j]
    ensures FirstArgMin(keys) == k
  {
  }

  lemma ArgMaxIs(keys: seq<real>, k: nat)
    requires k < |keys| && forall j :: 0 <= j < |keys| && j != k ==> keys[j] < keys[k]
    ensures FirstArgMax(keys) == k
  {
  }

  /** In a rectangle with positive sides, x + y is smallest only at the
      top-left corner and largest only at the bottom-right one. */
  lemma RectangleSumExtremes(x0: real, y0: real, w: real, h: real)
    requires w > 0.0 && h > 0.0
    ensures FirstArgMin(Keys(Rectangle(x0, y0, w, h), false)) == 0
    ensures FirstArgMax(Keys(Rectangle(x0, y0, w, h), false)) == 2
    ensures UniqueMin(Rectangle(x0, y0, w, h), false) && UniqueMax(Rectangle(x0, y0, w, h), false)
  {
    var q := Rectangle(x0, y0, w, h);
    var ks := Keys(q, false);
    assert ks[0] == x0 + y0 && ks[1] == x0 + w + y0 && ks[2] == x0 + w + y0 + h && ks[3] == x0 + y0 + h;
    ArgMinIs(ks, 0);
    ArgMaxIs(ks, 2);
    RectangleMembers(x0, y0, w, h);
  }

  lemma RectangleMembers(x0: real, y0: real, w: real, h: real)
    ensures var q := Rectangle(x0, y0, w, h);
            forall p :: p in q ==> p == q[0] || p == q[1] || p == q[2] || p == q[3]
  {
  }

  /** In a rectangle with positive sides, y - x is smallest only at the
      top-right corner and largest only at the bottom-left one. */
  lemma RectangleDiffExtremes(x0: real, y0: real, w: real, h: real)
    requires w > 0.0 && h > 0.0
    ensures FirstArgMin(Keys(Rectangle(x0, y0, w, h), true)) == 1
    ensures FirstArgMax(Keys(Rectangle(x0, y0, w, h), true)) == 3
    ensures UniqueMin(Rectangle(x0, y0, w, h), true) && UniqueMax(Rectangle(x0, y0, w, h), true)
  {
    var q := Rectangle(x0, y0, w, h);
    var ks := Keys(q, true);
    assert ks[0] == y0 - x0 && ks[1] == y0 - (x0 + w) && ks[2] == y0 + h - (x0 + w) && ks[3] == y0 + h - x0;
    ArgMinIs(ks, 1);
    ArgMaxIs(ks, 3);
    RectangleMembers(x0, y0, w, h);
  }

  /** A rectangle with positive sides given in canonical order is left as it
      is, and each of its extremes is held by one corner only. */
  lemma RectangleIsCanonical(x0: real, y0: real, w: real, h: real)
    requires w > 0.0 && h > 0.0
    ensures Corners(Rectangle(x0, y0, w, h)) == Rectangle(x0, y0, w, h)
    ensures UniqueExtremes(Rectangle(x0, y0, w, h))
  {
    RectangleSumExtremes(x0, y0, w, h);
    RectangleDiffExtremes(x0, y0, w, h);
  }

  /** `int()` of a float: truncation toward zero. */
  function Trunc(v: real): (n: int)
    ensures v >= 0.0 ==> n >= 0 && n as real <= v < n as real + 1.0
    ensures v < 0.0 ==> n <= 0 && n as real - 1.0 < v <= n as real
  {
    if v >= 0.0 then v.Floor else -((-v).Floor)
  }

  /** An edge length that measures horizontal and vertical segments exactly. */
  ghost predicate AxisExact(len: (Point, Point) -> real)
  {
    && (forall p: Point, q: Point :: p.y == q.y ==> len(p, q) == if p.x >= q.x then p.x - q.x else q.x - p.x)
    && (forall p: Point, q: Point :: p.x == q.x ==> len(p, q) == if p.y >= q.y then p.y - q.y else q.y - p.y)
  }

  /** Output width: the longer of the bottom edge and the top edge, each truncated. */
  function OutputWidth(rect: seq<Point>, len: (Point, Point) -> real): (w: int)
    requires |rect| == 4
    ensures w >= Trunc(len(rect[2], rect[3])) && w >= Trunc(len(rect[1], rect[0]))
    ensures w == Trunc(len(rect[2], rect[3])) || w == Trunc(len(rect[1], rect[0]))
  {
    var a, b := Trunc(len(rect[2], rect[3])), Trunc(len(rect[1], rect[0]));
    if a >= b then a else b
  }

  /** Output height: the longer of the right edge and the left edge, each truncated. */
  function OutputHeight(rect: seq<Point>, len: (Point, Point) -> real): (h: int)
    requires |rect| == 4
    ensures h >= Trunc(len(rect[1], rect[2])) && h >= Trunc(len(rect[0], rect[3]))
    ensures h == Trunc(len(rect[1], rect[2])) || h == Trunc(len(rect[0], rect[3]))
  {
    var a, b := Trunc(len(rect[1], rect[2])), Trunc(len(rect[0], rect[3]));
    if a >= b then a else b
  }

  /** The four target corners of the warp: (0,0), (W-1,0), (W-1,H-1), (0,H-1). */
  function Destination(w: int, h: int): (dst: seq<Point>)
    ensures dst == Rectangle(0.0, 0.0, (w - 1) as real, (h - 1) as real)
  {
    [Point(0.0, 0.0), Point((w - 1) as real, 0.0), Point((w - 1) as real, (h - 1) as real), Point(0.0, (h - 1) as real)]
  }

  /** The destination corners are already in canonical order, so the warp sends
      top-left to (0,0), top-right to (W-1,0) and so on. */
  lemma DestinationIsCanonical(w: int, h: int)
    requires w >= 2 && h >= 2
    ensures Corners(Destination(w, h)) == Destination(w, h)
  {
    RectangleIsCanonical(0.0, 0.0, (w - 1) as real, (h - 1) as real);
  }

  /** The corners of an axis-aligned rectangle, given in any order, are put
      back in canonical order. */
  lemma RectangleAnyOrder(pts: seq<Point>, x0: real, y0: real, w: real, h: real)
    requires w > 0.0 && h > 0.0
    requires multiset(pts) == multiset(Rectangle(x0, y0, w, h))
    ensures |pts| == 4 && Corners(pts) == Rectangle(x0, y0, w, h)
  {
    var q := Rectangle(x0, y0, w, h);
    assert |pts| == |multiset(pts)| == |q|;
    RectangleIsCanonical(x0, y0, w, h);
    CornersIndependentOfOrder(q, pts);
  }

  /** An upright W×H rectangle, its corners given in any order, asks the warp
      for exactly W×H pixels when edge lengths are measured exactly. */
  lemma RectangleKeepsSize(pts: seq<Point>, x0: real, y0: real, w: nat, h: nat, len: (Point, Point) -> real)
    requires w > 0 && h > 0 && AxisExact(len)
    requires multiset(pts) == multiset(Rectangle(x0, y0, w as real, h as real))
    ensures |pts| == 4
    ensures OutputWidth(Corners(pts), len) == w && OutputHeight(Corners(pts), len) == h
  {
    RectangleAnyOrder(pts, x0, y0, w as real, h as real);
    RectangleSize(x0, y0, w, h, len);
  }

  lemma RectangleSize(x0: real, y0: real, w: nat, h: nat, len: (Point, Point) -> real)
    requires AxisExact(len)
    ensures var q := Rectangle(x0, y0, w as real, h as real);
            OutputWidth(q, len) == w && OutputHeight(q, len) == h
  {
    var q := Rectangle(x0, y0, w as real, h as real);
    assert len(q[2], q[3]) == w as real && len(q[1], q[0]) == w as real;
    assert len(q[1], q[2]) == h as real && len(q[0], q[3]) == h as real;
  }
}
