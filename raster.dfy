/** Raster images as integer grids: row-major, `g[row][col]`, one 8-bit value
    per channel, and the two morphological filters the scan effect uses with a
    square all-ones structuring element. */
module Raster {

  type Grid<T> = seq<seq<T>>

  /** A colour pixel in OpenCV's blue-green-red channel order. */
  datatype Bgr = Bgr(b: int, g: int, r: int)

  /** A pixel after `COLOR_BGR2HSV` on 8-bit input: hue on a 0..180 scale. */
  datatype Hsv = Hsv(h: int, s: int, v: int)

  predicate IsByte(v: int)
  {
    0 <= v <= 255
  }

  function Width<T>(g: Grid<T>): nat
  {
    if |g| == 0 then 0 else |g[0]|
  }

  /** Every row has the same number of columns. */
  predicate IsRect<T>(g: Grid<T>)
  {
    forall i :: 0 <= i < |g| ==> |g[i]| == Width(g)
  }

  predicate SameShape<A, B>(a: Grid<A>, b: Grid<B>)
  {
    |a| == |b| && forall i :: 0 <= i < |a| ==> |a[i]| == |b[i]|
  }

  /** A single-channel 8-bit image. */
  predicate IsGray(g: Grid<int>)
  {
    IsRect(g) && forall i, j :: 0 <= i < |g| && 0 <= j < |g[i]| ==> IsByte(g[i][j])
  }

  predicate IsBgrPixel(p: Bgr)
  {
    IsByte(p.b) && IsByte(p.g) && IsByte(p.r)
  }

  /** A three-channel 8-bit image. */
  predicate IsBgrImage(g: Grid<Bgr>)
  {
    IsRect(g) && forall i, j :: 0 <= i < |g| && 0 <= j < |g[i]| ==> IsBgrPixel(g[i][j])
  }

  /** A mask whose every value is 0 or 255. */
  predicate IsBinary(g: Grid<int>)
  {
    forall i, j :: 0 <= i < |g| && 0 <= j < |g[i]| ==> g[i][j] == 0 || g[i][j] == 255
  }

  /** A per-pixel conversion such as `cv2.cvtColor`: the same function applied to every pixel. */
  function MapPixels<A, B>(g: Grid<A>, f: A -> B): (r: Grid<B>)
    ensures SameShape(r, g)
    ensures forall i, j :: 0 <= i < |g| && 0 <= j < |g[i]| ==> r[i][j] == f(g[i][j])
  {
    seq(|g|, i requires 0 <= i < |g| => seq(|g[i]|, j requires 0 <= j < |g[i]| => f(g[i][j])))
  }

  lemma SameShapeRect<A, B>(a: Grid<A>, b: Grid<B>)
    requires SameShape(a, b) && IsRect(b)
    ensures IsRect(a) && Width(a) == Width(b)
  {
  }

  /** Position (k, l) lies in the (2r+1)×(2r+1) square centred on (i, j). */
  predicate InWindow(i: int, j: int, k: int, l: int, r: nat)
  {
    i - r <= k <= i + r && j - r <= l <= j + r
  }

  /** First and last index of a window of radius `r` around `i`, clipped to 0..n-1:
      OpenCV's default border for dilation and erosion ignores outside pixels. */
  function Lo(i: int, r: nat): int
  {
    if i - r < 0 then 0 else i - r
  }

  function Hi(i: int, r: nat, n: nat): int
  {
    if i + r > n - 1 then n - 1 else i + r
  }

  /** The largest of row[c0..c1], both ends included. */
  function RangeMax(row: seq<int>, c0: nat, c1: nat): (m: int)
    requires c0 <= c1 < |row|
    ensures forall l :: c0 <= l <= c1 ==> row[l] <= m
    ensures exists l :: c0 <= l <= c1 && row[l] == m
    decreases c1 - c0
  {
    if c0 == c1 then row[c0]
    else
      var t := RangeMax(row, c0 + 1, c1);
      if row[c0] >= t then row[c0] else t
  }

  /** The smallest of row[c0..c1], both ends included. */
  function RangeMin(row: seq<int>, c0: nat, c1: nat): (m: int)
    requires c0 <= c1 < |row|
    ensures forall l :: c0 <= l <= c1 ==> m <= row[l]
    ensures exists l :: c0 <= l <= c1 && row[l] == m
    decreases c1 - c0
  {
    if c0 == c1 then row[c0]
    else
      var t := RangeMin(row, c0 + 1, c1);
      if row[c0] <= t then row[c0] else t
  }

  /** The largest pixel of rows r0..r1 and columns c0..c1. */
  function BlockMax(g: Grid<int>, r0: nat, r1: nat, c0: nat, c1: nat): (m: int)
    requires IsRect(g) && r0 <= r1 < |g| && c0 <= c1 < Width(g)
    ensures forall k, l :: r0 <= k <= r1 && c0 <= l <= c1 ==> g[k][l] <= m
    ensures exists k, l :: r0 <= k <= r1 && c0 <= l <= c1 && g[k][l] == m
    decreases r1 - r0
  {
    var here := RangeMax(g[r0], c0, c1);
    if r0 == r1 then here
    else
      var rest := BlockMax(g, r0 + 1, r1, c0, c1);
      if here >= rest then here else rest
  }

  /** The smallest pixel of rows r0..r1 and columns c0..c1. */
  function BlockMin(g: Grid<int>, r0: nat, r1: nat, c0: nat, c1: nat): (m: int)
    requires IsRect(g) && r0 <= r1 < |g| && c0 <= c1 < Width(g)
    ensures forall k, l :: r0 <= k <= r1 && c0 <= l <= c1 ==> m <= g[k][l]
    ensures exists k, l :: r0 <= k <= r1 && c0 <= l <= c1 && g[k][l] == m
    decreases r1 - r0
  {
    var here := RangeMin(g[r0], c0, c1);
    if r0 == r1 then here
    else
      var rest := BlockMin(g, r0 + 1, r1, c0, c1);
      if here <= rest then here else rest
  }

  /** The largest pixel of the in-image part of the window around (i, j). */
  function WindowMax(g: Grid<int>, i: nat, j: nat, r: nat): (m: int)
    requires IsRect(g) && i < |g| && j < Width(g)
    ensures forall k, l :: 0 <= k < |g| && 0 <= l < Width(g) && InWindow(i, j, k, l, r) ==> g[k][l] <= m
    ensures exists k, l :: 0 <= k < |g| && 0 <= l < Width(g) && InWindow(i, j, k, l, r) && g[k][l] == m
  {
    BlockMax(g, Lo(i, r), Hi(i, r, |g|), Lo(j, r), Hi(j, r, Width(g)))
  }

  /** The smallest pixel of the in-image part of the window around (i, j). */
  function WindowMin(g: Grid<int>, i: nat, j: nat, r: nat): (m: int)
    requires IsRect(g) && i < |g| && j < Width(g)
    ensures forall k, l :: 0 <= k < |g| && 0 <= l < Width(g) && InWindow(i, j, k, l, r) ==> m <= g[k][l]
    ensures exists k, l :: 0 <= k < |g| && 0 <= l < Width(g) && InWindow(i, j, k, l, r) && g[k][l] == m
  {
    BlockMin(g, Lo(i, r), Hi(i, r, |g|), Lo(j, r), Hi(j, r, Width(g)))
  }

  /** `cv2.dilate` with a (2r+1)×(2r+1) all-ones kernel, one iteration. */
  function Dilate(g: Grid<int>, r: nat): (d: Grid<int>)
    requires IsRect(g)
    ensures SameShape(d, g) && IsRect(d)
    ensures forall i, j :: 0 <= i < |g| && 0 <= j < Width(g) ==> d[i][j] == WindowMax(g, i, j, r)
  {
    seq(|g|, i requires 0 <= i < |g| => seq(Width(g), j requires 0 <= j < Width(g) => WindowMax(g, i, j, r)))
  }

  /** `cv2.erode` with a (2r+1)×(2r+1) all-ones kernel, one iteration. */
  function Erode(g: Grid<int>, r: nat): (e: Grid<int>)
    requires IsRect(g)
    ensures SameShape(e, g) && IsRect(e)
    ensures forall i, j :: 0 <= i < |g| && 0 <= j < Width(g) ==> e[i][j] == WindowMin(g, i, j, r)
  {
    seq(|g|, i requires 0 <= i < |g| => seq(Width(g), j requires 0 <= j < Width(g) => WindowMin(g, i, j, r)))
  }

  /** `cv2.morphologyEx(g, MORPH_CLOSE, kernel)`: dilation followed by erosion. */
  function Close(g: Grid<int>, r: nat): (c: Grid<int>)
    requires IsRect(g)
    ensures SameShape(c, g) && IsRect(c)
  {
    Erode(Dilate(g, r), r)
  }

  /** Dilation only adds: every pixel of the result is at least the input pixel. */
  lemma DilateExtensive(g: Grid<int>, r: nat, i: nat, j: nat)
    requires IsRect(g) && i < |g| && j < Width(g)
    ensures g[i][j] <= Dilate(g, r)[i][j]
  {
    assert InWindow(i, j, i, j, r);
  }

  /** Dilation picks one of the input values, so it keeps 8-bit images 8-bit and
      binary masks binary. */
  lemma DilateKeepsValues(g: Grid<int>, r: nat)
    requires IsRect(g)
    ensures IsGray(g) ==> IsGray(Dilate(g, r))
    ensures IsBinary(g) ==> IsBinary(Dilate(g, r))
  {
    var d := Dilate(g, r);
    forall i, j | 0 <= i < |d| && 0 <= j < |d[i]|
      ensures exists k, l :: 0 <= k < |g| && 0 <= l < |g[k]| && d[i][j] == g[k][l]
    {
      var m := WindowMax(g, i, j, r);
      var k, l :| 0 <= k < |g| && 0 <= l < Width(g) && InWindow(i, j, k, l, r) && g[k][l] == m;
    }
  }

  /** Erosion picks one of the input values, so it keeps 8-bit images 8-bit. */
  lemma ErodeKeepsValues(g: Grid<int>, r: nat)
    requires IsGray(g)
    ensures IsGray(Erode(g, r))
  {
    var e := Erode(g, r);
    forall i, j | 0 <= i < |e| && 0 <= j < |e[i]|
      ensures IsByte(e[i][j])
    {
      var m := WindowMin(g, i, j, r);
      var k, l :| 0 <= k < |g| && 0 <= l < Width(g) && InWindow(i, j, k, l, r) && g[k][l] == m;
    }
  }

  /** Closing never darkens: the background estimate is at least the pixel it
      is estimated for. */
  lemma CloseExtensive(g: Grid<int>, r: nat, i: nat, j: nat)
    requires IsRect(g) && i < |g| && j < Width(g)
    ensures g[i][j] <= Close(g, r)[i][j]
  {
    var d := Dilate(g, r);
    var m := WindowMin(d, i, j, r);
    var k, l :| 0 <= k < |d| && 0 <= l < Width(d) && InWindow(i, j, k, l, r) && d[k][l] == m;
    assert InWindow(k, l, i, j, r);
    assert g[i][j] <= WindowMax(g, k, l, r);
  }

  /** Closing an 8-bit image gives an 8-bit image of the same shape. */
  lemma CloseKeepsGray(g: Grid<int>, r: nat)
    requires IsGray(g)
    ensures IsGray(Close(g, r))
  {
    DilateKeepsValues(g, r);
    ErodeKeepsValues(Dilate(g, r), r);
  }
}
