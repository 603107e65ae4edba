/** Document detection (`detect_document`) and perspective rectification
    (`four_point_transform`): the five largest contours are examined in
    order of decreasing area, and the first whose polygon approximation has
    four corners and covers at least a fifth of the resized frame is warped
    to an upright rectangle. */
module DocumentDetect {
  import opened Wrappers
  import opened MinMax
  import opened Raster
  import opened Geometry
  import opened VisionOps

  /** The frame is resized to this height before edge detection. */
  const DetectHeight: nat := 500

  /** Only this many of the largest contours are examined. */
  const MaxCandidates: nat := 5

  /** A contour must cover at least this share of the resized frame. */
  const MinAreaShare: real := 0.2

  // ---------------------------------------------------------------------
  // Ordering the contours by area
  // ---------------------------------------------------------------------

  predicate SortedDesc(s: seq<Contour>, key: Contour -> real)
  {
    forall i, j :: 0 <= i < j < |s| ==> key(s[j]) <= key(s[i])
  }

  /** Every key in `s` is at most `b`. */
  predicate AllAtMost(s: seq<Contour>, key: Contour -> real, b: real)
  {
    forall k :: 0 <= k < |s| ==> key(s[k]) <= b
  }

  /** A head no smaller than anything after it keeps a sorted tail sorted. */
  lemma ConsSorted(h: Contour, rest: seq<Contour>, key: Contour -> real)
    requires SortedDesc(rest, key) && AllAtMost(rest, key, key(h))
    ensures SortedDesc([h] + rest, key)
  {
    var r := [h] + rest;
    forall i, j | 0 <= i < j < |r|
      ensures key(r[j]) <= key(r[i])
    {
      assert r[j] == rest[j - 1];
      if i > 0 {
        assert r[i] == rest[i - 1];
      }
    }
  }

  /** A bound on every element of `tail` and on `x` bounds every element of a
      rearrangement of the two. */
  lemma AtMostOfMultiset(r: seq<Contour>, tail: seq<Contour>, x: Contour, key: Contour -> real, b: real)
    requires multiset(r) == multiset(tail) + multiset{x}
    requires AllAtMost(tail, key, b) && key(x) <= b
    ensures AllAtMost(r, key, b)
  {
    forall k | 0 <= k < |r|
      ensures key(r[k]) <= b
    {
      assert r[k] in multiset(r);
      if r[k] != x {
        assert r[k] in multiset(tail);
        var m :| 0 <= m < |tail| && tail[m] == r[k];
      }
    }
  }

  /** Inserts `x` before the first element whose key is not larger, so it
      goes ahead of all elements with an equal key. */
  function InsertDesc(x: Contour, s: seq<Contour>, key: Contour -> real): (r: seq<Contour>)
    requires SortedDesc(s, key)
    ensures SortedDesc(r, key)
    ensures multiset(r) == multiset(s) + multiset{x}
    decreases |s|
  {
    if s == [] then [x]
    else if key(s[0]) <= key(x) then
      ConsSorted(x, s, key);
      [x] + s
    else
      var tail := s[1..];
      assert s == [s[0]] + tail;
      var rest := InsertDesc(x, tail, key);
      AtMostOfMultiset(rest, tail, x, key, key(s[0]));
      ConsSorted(s[0], rest, key);
      [s[0]] + rest
  }

  /** `sorted(cnts, key=cv2.contourArea, reverse=True)`: a stable sort by
      decreasing key. */
  function SortDesc(s: seq<Contour>, key: Contour -> real): (r: seq<Contour>)
    ensures SortedDesc(r, key)
    ensures multiset(r) == multiset(s)
    decreases |s|
  {
    if s == [] then []
    else
      assert s == [s[0]] + s[1..];
      InsertDesc(s[0], SortDesc(s[1..], key), key)
  }

  /** `sorted(..)[:n]`: the first `n` contours after sorting. */
  function TopByArea(cnts: seq<Contour>, key: Contour -> real, n: nat): (top: seq<Contour>)
    ensures |top| == Min(n, |cnts|)
  {
    var s := SortDesc(cnts, key);
    assert |multiset(s)| == |multiset(cnts)|;
    s[..Min(n, |cnts|)]
  }

  /** In a sorted sequence nothing after position `m` beats anything before it. */
  lemma PrefixDominates(s: seq<Contour>, key: Contour -> real, m: nat)
    requires SortedDesc(s, key) && m <= |s|
    ensures forall c, d :: c in s[..m] && d in multiset(s[m..]) ==> key(d) <= key(c)
  {
    forall c, d | c in s[..m] && d in multiset(s[m..])
      ensures key(d) <= key(c)
    {
      var a :| 0 <= a < m && s[..m][a] == c;
      var b :| 0 <= b < |s| - m && s[m..][b] == d;
      assert s[a] == c && s[m + b] == d;
    }
  }

  /** The kept contours are the largest ones: taken from the input, in
      decreasing order, and none of the dropped contours is larger than any
      kept one. */
  lemma TopByAreaKeepsLargest(cnts: seq<Contour>, key: Contour -> real, n: nat)
    ensures multiset(TopByArea(cnts, key, n)) <= multiset(cnts)
    ensures SortedDesc(TopByArea(cnts, key, n), key)
    ensures forall c, d :: c in TopByArea(cnts, key, n) && d in multiset(cnts) - multiset(TopByArea(cnts, key, n)) ==> key(d) <= key(c)
  {
    var s := SortDesc(cnts, key);
    var m := Min(n, |cnts|);
    assert |s| == |cnts| by {
      assert |multiset(s)| == |multiset(cnts)|;
    }
    var top := TopByArea(cnts, key, n);
    assert top == s[..m];
    SplitMultiset(s, m);
    assert multiset(cnts) - multiset(top) == multiset(s[m..]);
    PrefixDominates(s, key, m);
  }

  /** A prefix and the rest of a sequence together hold its elements. */
  lemma SplitMultiset(s: seq<Contour>, m: nat)
    requires m <= |s|
    ensures multiset(s[..m]) + multiset(s[m..]) == multiset(s)
  {
    assert s == s[..m] + s[m..];
  }

  // ---------------------------------------------------------------------
  // Choosing the document outline
  // ---------------------------------------------------------------------

  /** `cv2.approxPolyDP(c, 0.02 * cv2.arcLength(c, True), True)`. */
  function Approx(ops: Ops, c: Contour): Contour
  {
    ops.approxPolyDP(c, 0.02 * ops.arcLength(c))
  }

  /** A contour is taken for the document when its approximation has four
      corners and its area is not below a fifth of `total`. */
  predicate Qualifies(ops: Ops, c: Contour, total: int)
  {
    |Approx(ops, c)| == 4 && !(ops.contourArea(c) < total as real * MinAreaShare)
  }

  /** The position of the first qualifying candidate, if any. */
  function FirstQualifying(ops: Ops, cands: seq<Contour>, total: int): (k: Option<nat>)
    ensures k.Some? ==> k.value < |cands| && Qualifies(ops, cands[k.value], total)
    ensures k.Some? ==> forall j :: 0 <= j < k.value ==> !Qualifies(ops, cands[j], total)
    ensures k.None? ==> forall j :: 0 <= j < |cands| ==> !Qualifies(ops, cands[j], total)
    decreases |cands|
  {
    if cands == [] then None
    else if Qualifies(ops, cands[0], total) then Some(0)
    else
      match FirstQualifying(ops, cands[1..], total)
      case None => None
      case Some(k) => Some(k + 1)
  }

  /** The first qualifying candidate is the only position with that property. */
  lemma FirstQualifyingUnique(ops: Ops, cands: seq<Contour>, total: int, k: nat)
    requires k < |cands| && Qualifies(ops, cands[k], total)
    requires forall j :: 0 <= j < k ==> !Qualifies(ops, cands[j], total)
    ensures FirstQualifying(ops, cands, total) == Some(k)
  {
  }

  /** Width of the resized frame: `int(w * 500 / h)`. */
  function ResizedWidth(image: Grid<Bgr>): nat
    requires |image| > 0
  {
    Width(image) * DetectHeight / |image|
  }

  /** The resized width is zero, and the resize raises, exactly for a frame
      more than 500 times taller than it is wide. */
  lemma NarrowFrame(image: Grid<Bgr>)
    requires |image| > 0
    ensures ResizedWidth(image) == 0 <==> Width(image) * DetectHeight < |image|
  {
    var n, d := Width(image) * DetectHeight, |image|;
    if n >= d {
      assert n / d >= 1 by {
        assert n == (n / d) * d + n % d;
        assert n % d < d;
      }
    }
  }

  /** The scale back from the resized frame to the original. */
  function Ratio(image: Grid<Bgr>): real
  {
    |image| as real / DetectHeight as real
  }

  /** The candidate contours: edges of the blurred gray resized frame, the
      five largest by area. Defined when the resize succeeds. */
  function Candidates(ops: Ops, image: Grid<Bgr>): seq<Contour>
    requires |image| > 0 && ResizedWidth(image) > 0
  {
    var resized := ops.resize(image, ResizedWidth(image), DetectHeight);
    var gray := ops.blur5(MapPixels(resized, ops.grayOf));
    var edged := ops.canny(gray, 75, 200);
    TopByArea(ops.findContours(edged), ops.contourArea, MaxCandidates)
  }

  /** `screenCnt.reshape(4, 2) * ratio`: the corners in original coordinates. */
  function Scale(q: Contour, ratio: real): (pts: seq<Point>)
    ensures |pts| == |q|
    ensures forall i :: 0 <= i < |q| ==> pts[i] == Point(q[i].x as real * ratio, q[i].y as real * ratio)
  {
    seq(|q|, i requires 0 <= i < |q| => Point(q[i].x as real * ratio, q[i].y as real * ratio))
  }

  // ---------------------------------------------------------------------
  // Rectification
  // ---------------------------------------------------------------------

  /** The rectified image: the ordered corners sent to a W×H rectangle, W and
      H being the longer of the opposite edges. */
  function Rectify(ops: Ops, image: Grid<Bgr>, pts: seq<Point>): (r: Grid<Bgr>)
    requires ops.Valid() && IsBgrImage(image) && |pts| > 0
    ensures IsBgrImage(r)
    ensures var w, h := OutputWidth(Corners(pts), ops.edgeLength), OutputHeight(Corners(pts), ops.edgeLength);
            w > 0 && h > 0 ==> |r| == h && Width(r) == w
  {
    var rect := Corners(pts);
    var w := OutputWidth(rect, ops.edgeLength);
    var h := OutputHeight(rect, ops.edgeLength);
    ops.Warp(image, rect, Destination(w, h), w, h)
  }

  /** `four_point_transform`: orders the corners into an array, measures the
      four edges and warps. */
  method FourPointTransform(ops: Ops, image: Grid<Bgr>, pts: seq<Point>) returns (warped: Grid<Bgr>)
    requires ops.Valid() && IsBgrImage(image) && |pts| > 0
    ensures IsBgrImage(warped)
    ensures warped == Rectify(ops, image, pts)
  {
    var ordered := OrderPoints(pts);
    var rect := ordered[..];
    var tl, tr, br, bl := rect[0], rect[1], rect[2], rect[3];
    var widthA, widthB := ops.edgeLength(br, bl), ops.edgeLength(tr, tl);
    var maxWidth := if Trunc(widthA) >= Trunc(widthB) then Trunc(widthA) else Trunc(widthB);
    var heightA, heightB := ops.edgeLength(tr, br), ops.edgeLength(tl, bl);
    var maxHeight := if Trunc(heightA) >= Trunc(heightB) then Trunc(heightA) else Trunc(heightB);
    assert maxWidth == OutputWidth(rect, ops.edgeLength);
    assert maxHeight == OutputHeight(rect, ops.edgeLength);
    var dst := [Point(0.0, 0.0), Point((maxWidth - 1) as real, 0.0),
                Point((maxWidth - 1) as real, (maxHeight - 1) as real), Point(0.0, (maxHeight - 1) as real)];
    assert dst == Destination(maxWidth, maxHeight);
    warped := ops.Warp(image, rect, dst, maxWidth, maxHeight);
  }

  /** A document that already is an upright W×H rectangle, its corners given
      in any order, is rectified to an image of exactly H rows of W pixels
      when edges are measured exactly. */
  lemma RectifyKeepsRectangleSize(ops: Ops, image: Grid<Bgr>, pts: seq<Point>, x0: real, y0: real, w: nat, h: nat)
    requires ops.Valid() && IsBgrImage(image)
    requires w > 0 && h > 0 && AxisExact(ops.edgeLength)
    requires multiset(pts) == multiset(Rectangle(x0, y0, w as real, h as real))
    ensures |pts| == 4
    ensures |Rectify(ops, image, pts)| == h && Width(Rectify(ops, image, pts)) == w
  {
    RectangleKeepsSize(pts, x0, y0, w, h, ops.edgeLength);
  }

  // ---------------------------------------------------------------------
  // detect_document
  // ---------------------------------------------------------------------

  /** The approximated outline of the first qualifying candidate, if any. */
  function Outline(ops: Ops, cands: seq<Contour>, total: int): (q: Option<Contour>)
    ensures q.Some? ==> |q.value| == 4
  {
    match FirstQualifying(ops, cands, total)
    case None => None
    case Some(k) => Some(Approx(ops, cands[k]))
  }

  /** The candidate loop of `detect_document`: skips contours whose
      approximation does not have four corners or whose area is too small,
      and stops at the first one that passes both tests. */
  method ChooseOutline(ops: Ops, cnts: seq<Contour>, totalArea: int) returns (screen: Option<Contour>)
    ensures screen == Outline(ops, cnts, totalArea)
  {
    screen := None;
    for i := 0 to |cnts|
      invariant screen.None?
      invariant forall j :: 0 <= j < i ==> !Qualifies(ops, cnts[j], totalArea)
    {
      var peri := ops.arcLength(cnts[i]);
      var approx := ops.approxPolyDP(cnts[i], 0.02 * peri);
      if |approx| == 4 {
        var area := ops.contourArea(cnts[i]);
        if area < totalArea as real * 0.2 {
          continue;
        }
        screen := Some(approx);
        FirstQualifyingUnique(ops, cnts, totalArea, i);
        return;
      }
    }
  }

  /** What `detect_document` returns: the rectified first qualifying
      candidate, scaled back to the original frame, or the original frame
      when none qualifies; `None` when the resize raises because the resized
      width is zero. */
  function Detect(ops: Ops, image: Grid<Bgr>): (r: Option<Grid<Bgr>>)
    requires ops.Valid() && IsBgrImage(image) && |image| > 0
    ensures r.None? <==> ResizedWidth(image) == 0
    ensures r.Some? ==> IsBgrImage(r.value)
  {
    if ResizedWidth(image) == 0 then None
    else
      match Outline(ops, Candidates(ops, image), ResizedWidth(image) * DetectHeight)
      case None => Some(image)
      case Some(q) => Some(Rectify(ops, image, Scale(q, Ratio(image))))
  }

  /** `detect_document`; `found` is false exactly when no frame is rectified,
      and the original frame is then returned with a warning unless the
      resize raised. */
  method DetectDocument(ops: Ops, image: Grid<Bgr>) returns (warped: Option<Grid<Bgr>>, found: bool)
    requires ops.Valid() && IsBgrImage(image) && |image| > 0
    ensures warped == Detect(ops, image)
    ensures found <==> ResizedWidth(image) > 0 && FirstQualifying(ops, Candidates(ops, image), ResizedWidth(image) * DetectHeight).Some?
    ensures warped.Some? && !found ==> warped.value == image
  {
    var ratio := |image| as real / 500.0;
    var orig := image;
    var height := 500;
    var width := Width(image) * height / |image|;
    assert width == ResizedWidth(image) && ratio == Ratio(image);
    var resized := ops.Resize(image, width, height);
    if resized.None? {
      return None, false;
    }
    var gray := MapPixels(resized.value, ops.grayOf);
    gray := ops.blur5(gray);
    var edged := ops.canny(gray, 75, 200);
    var cnts := TopByArea(ops.findContours(edged), ops.contourArea, 5);
    assert cnts == Candidates(ops, image);
    var screen := ChooseOutline(ops, cnts, width * height);
    assert screen == Outline(ops, Candidates(ops, image), ResizedWidth(image) * DetectHeight);
    if screen.Some? {
      var rectified := FourPointTransform(ops, orig, Scale(screen.value, ratio));
      warped, found := Some(rectified), true;
    } else {
      warped, found := Some(orig), false;
    }
  }
}
