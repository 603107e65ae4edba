/** The scan effect (`process_scan_effect`): a red-stamp mask, a scan-like
    grayscale enhancement and a per-pixel composite of the two. */
module ScanEffect {
  import opened MinMax
  import opened Raster
  import opened VisionOps

  /** The two inclusive HSV ranges of red: hue 0..10 and hue 156..180, both
      with saturation 43..255 and value 46..255. */
  const LowerRed1: Hsv := Hsv(0, 43, 46)
  const UpperRed1: Hsv := Hsv(10, 255, 255)
  const LowerRed2: Hsv := Hsv(156, 43, 46)
  const UpperRed2: Hsv := Hsv(180, 255, 255)

  /** Highlights above this value are cut down to it (`THRESH_TRUNC`). */
  const TruncLevel: int := 230

  /** `cv2.inRange` for one pixel: every channel within its inclusive bounds. */
  predicate InHsvRange(p: Hsv, lo: Hsv, hi: Hsv)
  {
    lo.h <= p.h <= hi.h && lo.s <= p.s <= hi.s && lo.v <= p.v <= hi.v
  }

  /** A pixel that one of the two red ranges accepts. */
  predicate IsRed(p: Hsv)
  {
    InHsvRange(p, LowerRed1, UpperRed1) || InHsvRange(p, LowerRed2, UpperRed2)
  }

  /** `cv2.inRange(hsv, lo, hi)`: 255 inside the range, 0 outside. */
  function InRange(hsv: Grid<Hsv>, lo: Hsv, hi: Hsv): (m: Grid<int>)
    ensures SameShape(m, hsv) && IsBinary(m)
    ensures forall i, j :: 0 <= i < |hsv| && 0 <= j < |hsv[i]| ==> (m[i][j] == 255 <==> InHsvRange(hsv[i][j], lo, hi))
  {
    MapPixels(hsv, p => if InHsvRange(p, lo, hi) then 255 else 0)
  }

  /** `cv2.add` on 8-bit values: the sum, saturated at 255. */
  function SaturatingAdd(a: int, b: int): int
  {
    if a + b > 255 then 255 else a + b
  }

  /** `cv2.add(mask1, mask2)`, pixel by pixel. */
  function AddMasks(a: Grid<int>, b: Grid<int>): (s: Grid<int>)
    requires SameShape(a, b)
    ensures SameShape(s, a)
    ensures forall i, j :: 0 <= i < |a| && 0 <= j < |a[i]| ==> s[i][j] == SaturatingAdd(a[i][j], b[i][j])
  {
    seq(|a|, i requires 0 <= i < |a| => seq(|a[i]|, j requires 0 <= j < |a[i]| => SaturatingAdd(a[i][j], b[i][j])))
  }

  /** The union of the two red masks is 255 exactly where either range holds
      and 0 elsewhere; saturation keeps 255 + 255 at 255. */
  function RedMask(hsv: Grid<Hsv>): (m: Grid<int>)
    ensures SameShape(m, hsv) && IsBinary(m)
    ensures forall i, j :: 0 <= i < |hsv| && 0 <= j < |hsv[i]| ==> (m[i][j] == 255 <==> IsRed(hsv[i][j]))
  {
    AddMasks(InRange(hsv, LowerRed1, UpperRed1), InRange(hsv, LowerRed2, UpperRed2))
  }

  /** Some pixel of the 3×3 neighbourhood of (i, j) inside the image is red. */
  ghost predicate RedNear(hsv: Grid<Hsv>, i: int, j: int)
  {
    exists k, l :: 0 <= k < |hsv| && 0 <= l < |hsv[k]| && InWindow(i, j, k, l, 1) && IsRed(hsv[k][l])
  }

  /** `cv2.dilate(red_mask, ones((3, 3)), iterations=1)`. */
  function StampMask(hsv: Grid<Hsv>): (m: Grid<int>)
    requires IsRect(hsv)
    ensures SameShape(m, hsv) && IsRect(m)
  {
    Dilate(RedMask(hsv), 1)
  }

  /** The dilated mask is 255 exactly where a red pixel lies in the 3×3
      neighbourhood, and 0 elsewhere. */
  lemma StampMaskMeaning(hsv: Grid<Hsv>, i: nat, j: nat)
    requires IsRect(hsv) && i < |hsv| && j < Width(hsv)
    ensures StampMask(hsv)[i][j] == (if RedNear(hsv, i, j) then 255 else 0)
  {
    var red := RedMask(hsv);
    SameShapeRect(red, hsv);
    var m := WindowMax(red, i, j, 1);
    assert StampMask(hsv)[i][j] == m;
    var k, l :| 0 <= k < |red| && 0 <= l < Width(red) && InWindow(i, j, k, l, 1) && red[k][l] == m;
    if RedNear(hsv, i, j) {
      var k', l' :| 0 <= k' < |hsv| && 0 <= l' < |hsv[k']| && InWindow(i, j, k', l', 1) && IsRed(hsv[k'][l']);
      assert red[k'][l'] == 255;
    } else {
      assert !IsRed(hsv[k][l]);
    }
  }

  /** Dilation never removes a pixel of the union mask: every red pixel is in
      the stamp mask. */
  lemma StampMaskCoversRed(hsv: Grid<Hsv>, i: nat, j: nat)
    requires IsRect(hsv) && i < |hsv| && j < Width(hsv)
    ensures RedMask(hsv)[i][j] == 255 ==> StampMask(hsv)[i][j] == 255
  {
    StampMaskMeaning(hsv, i, j);
    assert InWindow(i, j, i, j, 1);
  }

  /** `value | 1` on a non-negative integer: the next odd number from `value` on. */
  function OrOne(value: nat): nat
  {
    if value % 2 == 0 then value + 1 else value
  }

  /** The side of the square closing kernel: `int(min(h, w) * 0.02) | 1`,
      raised to 3 when smaller. It is the smallest odd number that is at
      least 3 and at least 2% of the shorter side. */
  function BackgroundKernelSize(h: nat, w: nat): (k: nat)
    ensures k % 2 == 1 && k >= 3
    ensures k >= Min(h, w) / 50
    ensures k - 2 < 3 || k - 2 < Min(h, w) / 50
  {
    var size := OrOne(Min(h, w) / 50);
    if size < 3 then 3 else size
  }

  /** `cv2.LUT(gray, table)`. */
  function ApplyLut(g: Grid<int>, table: seq<int>): (r: Grid<int>)
    requires IsGray(g) && |table| == 256 && forall v :: 0 <= v < 256 ==> IsByte(table[v])
    ensures IsGray(r) && SameShape(r, g)
    ensures forall i, j :: 0 <= i < |g| && 0 <= j < |g[i]| ==> r[i][j] == table[g[i][j]]
  {
    seq(|g|, i requires 0 <= i < |g| => seq(|g[i]|, j requires 0 <= j < |g[i]| => table[g[i][j]]))
  }

  /** `cv2.threshold(g, level, 255, THRESH_TRUNC)`: values above `level` become
      `level`, the others stay as they are. */
  function Truncate(g: Grid<int>, level: int): (r: Grid<int>)
    requires IsGray(g) && IsByte(level)
    ensures IsGray(r) && SameShape(r, g)
    ensures forall i, j :: 0 <= i < |g| && 0 <= j < |g[i]| ==> r[i][j] <= level
    ensures forall i, j :: 0 <= i < |g| && 0 <= j < |g[i]| && g[i][j] <= level ==> r[i][j] == g[i][j]
    ensures forall i, j :: 0 <= i < |g| && 0 <= j < |g[i]| && g[i][j] > level ==> r[i][j] == level
  {
    MapPixels(g, v => if v > level then level else v)
  }

  /** Truncating twice changes nothing more than truncating once. */
  lemma TruncateIdempotent(g: Grid<int>)
    requires IsGray(g)
    ensures Truncate(Truncate(g, TruncLevel), TruncLevel) == Truncate(g, TruncLevel)
  {
    var once := Truncate(g, TruncLevel);
    var twice := Truncate(once, TruncLevel);
    forall i | 0 <= i < |g|
      ensures twice[i] == once[i]
    {
    }
  }

  /** `cv2.cvtColor(gray, COLOR_GRAY2BGR)`: the gray value in all three
      channels, so an 8-bit gray image becomes a colour image. */
  function GrayToBgr(g: Grid<int>): (r: Grid<Bgr>)
    ensures SameShape(r, g)
    ensures forall i, j :: 0 <= i < |g| && 0 <= j < |g[i]| ==> r[i][j] == Bgr(g[i][j], g[i][j], g[i][j])
    ensures IsGray(g) ==> IsBgrImage(r)
  {
    var r := MapPixels(g, v => Bgr(v, v, v));
    assert IsGray(g) ==> IsBgrImage(r) by {
      if IsGray(g) {
        SameShapeRect(r, g);
        forall i, j | 0 <= i < |r| && 0 <= j < |r[i]|
          ensures IsBgrPixel(r[i][j])
        {
          assert IsByte(g[i][j]);
        }
      }
    }
    r
  }

  /** `np.where(mask_3ch > 0, image, scanned)`: a plain per-pixel select. */
  function Composite(mask: Grid<int>, image: Grid<Bgr>, scanned: Grid<Bgr>): (r: Grid<Bgr>)
    requires SameShape(image, mask) && SameShape(scanned, mask)
    ensures SameShape(r, mask)
    ensures forall i, j :: 0 <= i < |mask| && 0 <= j < |mask[i]| ==> r[i][j] == if mask[i][j] > 0 then image[i][j] else scanned[i][j]
  {
    seq(|mask|, i requires 0 <= i < |mask| =>
      seq(|mask[i]|, j requires 0 <= j < |mask[i]| => if mask[i][j] > 0 then image[i][j] else scanned[i][j]))
  }

  /** The background estimate: `gray` closed with the square kernel. */
  function Background(gray: Grid<int>): (bg: Grid<int>)
    requires IsGray(gray)
    ensures IsGray(bg) && SameShape(bg, gray)
  {
    CloseKeepsGray(gray, BackgroundKernelSize(|gray|, Width(gray)) / 2);
    Close(gray, BackgroundKernelSize(|gray|, Width(gray)) / 2)
  }

  /** The estimated background is never darker than the pixel it lies behind,
      so dividing by it does not push a pixel past white. */
  lemma BackgroundNotDarker(gray: Grid<int>, i: nat, j: nat)
    requires IsGray(gray) && i < |gray| && j < Width(gray)
    ensures gray[i][j] <= Background(gray)[i][j]
  {
    CloseExtensive(gray, BackgroundKernelSize(|gray|, Width(gray)) / 2, i, j);
  }

  /** The grayscale enhancement, steps A to D of `process_scan_effect`. */
  function Enhance(ops: Ops, gray: Grid<int>): (e: Grid<int>)
    requires ops.Valid() && IsGray(gray)
    ensures IsGray(e) && SameShape(e, gray)
  {
    var bg := Background(gray);
    var divided := ops.Divide(gray, bg);
    var gamma := ApplyLut(divided, ops.gammaTable);
    var cut := Truncate(gamma, TruncLevel);
    var normalized := ops.Normalize(cut);
    var blurred := ops.BlurSigma2(normalized);
    ops.AddWeighted(normalized, blurred)
  }

  /** `cv2.cvtColor(image, COLOR_BGR2GRAY)`. */
  function GrayOf(ops: Ops, image: Grid<Bgr>): (gray: Grid<int>)
    requires ops.Valid() && IsBgrImage(image)
    ensures IsGray(gray) && SameShape(gray, image)
    ensures forall i, j :: 0 <= i < |image| && 0 <= j < |image[i]| ==> gray[i][j] == ops.grayOf(image[i][j])
  {
    MapPixels(image, ops.grayOf)
  }

  /** The enhanced image as three equal channels (`scanned_bgr`). */
  function Scanned(ops: Ops, image: Grid<Bgr>): (r: Grid<Bgr>)
    requires ops.Valid() && IsBgrImage(image)
    ensures IsBgrImage(r) && SameShape(r, image)
  {
    GrayToBgr(Enhance(ops, GrayOf(ops, image)))
  }

  lemma CompositeKeepsBgr(mask: Grid<int>, image: Grid<Bgr>, scanned: Grid<Bgr>)
    requires SameShape(image, mask) && SameShape(scanned, mask) && IsBgrImage(image) && IsBgrImage(scanned)
    ensures IsBgrImage(Composite(mask, image, scanned))
  {
    var r := Composite(mask, image, scanned);
    SameShapeRect(r, image);
    SameShapeRect(mask, image);
  }

  /** `process_scan_effect`: original colour where the stamp mask is set, the
      enhanced gray (in three equal channels) everywhere else. */
  function ProcessScanEffect(ops: Ops, image: Grid<Bgr>): (r: Grid<Bgr>)
    requires ops.Valid() && IsBgrImage(image)
    ensures IsBgrImage(r) && SameShape(r, image)
  {
    var hsv := MapPixels(image, ops.hsvOf);
    SameShapeRect(hsv, image);
    var mask := StampMask(hsv);
    var scanned := Scanned(ops, image);
    CompositeKeepsBgr(mask, image, scanned);
    Composite(mask, image, scanned)
  }

  /** Each output pixel is the original pixel where a red pixel lies in its 3×3
      neighbourhood and otherwise the enhanced gray value in all three
      channels; there is no blending. */
  lemma ProcessScanEffectPixel(ops: Ops, image: Grid<Bgr>, i: nat, j: nat)
    requires ops.Valid() && IsBgrImage(image) && i < |image| && j < Width(image)
    ensures var hsv := MapPixels(image, ops.hsvOf);
            var v := Enhance(ops, GrayOf(ops, image))[i][j];
            ProcessScanEffect(ops, image)[i][j] == if RedNear(hsv, i, j) then image[i][j] else Bgr(v, v, v)
  {
    var hsv := MapPixels(image, ops.hsvOf);
    SameShapeRect(hsv, image);
    StampMaskMeaning(hsv, i, j);
  }

  /** A pixel that either red range accepts keeps its original colour exactly. */
  lemma StampKeepsColour(ops: Ops, image: Grid<Bgr>, i: nat, j: nat)
    requires ops.Valid() && IsBgrImage(image) && i < |image| && j < Width(image)
    requires IsRed(ops.hsvOf(image[i][j]))
    ensures ProcessScanEffect(ops, image)[i][j] == image[i][j]
  {
    var hsv := MapPixels(image, ops.hsvOf);
    ProcessScanEffectPixel(ops, image, i, j);
    assert InWindow(i, j, i, j, 1) && IsRed(hsv[i][j]);
  }
}
