/** The OpenCV calls the scanner makes whose numeric behaviour is not modelled
    (floating-point filters, edge and contour extraction, resampling). They are
    passed in as functions, so the logic around them is verified for every
    implementation that keeps OpenCV's shape and 8-bit guarantees. */
module VisionOps {
  import opened Wrappers
  import opened Raster
  import opened Geometry

  /** A contour point as `cv2.findContours` returns it. */
  datatype IPoint = IPoint(x: int, y: int)

  type Contour = seq<IPoint>

  datatype Ops = Ops(
    /** `cv2.resize(image, (width, height))` */
    resize: (Grid<Bgr>, int, int) -> Grid<Bgr>,
    /** `cv2.cvtColor(.., COLOR_BGR2GRAY)`, one pixel */
    grayOf: Bgr -> int,
    /** `cv2.cvtColor(.., COLOR_BGR2HSV)`, one pixel */
    hsvOf: Bgr -> Hsv,
    /** `cv2.GaussianBlur(gray, (5, 5), 0)` */
    blur5: Grid<int> -> Grid<int>,
    /** `cv2.Canny(gray, low, high)` */
    canny: (Grid<int>, int, int) -> Grid<int>,
    /** `cv2.findContours(edges, RETR_LIST, CHAIN_APPROX_SIMPLE)`, the contour list */
    findContours: Grid<int> -> seq<Contour>,
    /** `cv2.arcLength(c, True)` */
    arcLength: Contour -> real,
    /** `cv2.approxPolyDP(c, epsilon, True)` */
    approxPolyDP: (Contour, real) -> Contour,
    /** `cv2.contourArea(c)` */
    contourArea: Contour -> real,
    /** `np.sqrt(dx ** 2 + dy ** 2)` between two corners */
    edgeLength: (Point, Point) -> real,
    /** `cv2.warpPerspective(image, getPerspectiveTransform(rect, dst), (w, h))` */
    warp: (Grid<Bgr>, seq<Point>, seq<Point>, int, int) -> Grid<Bgr>,
    /** `cv2.divide(gray, background, scale=255)` */
    divide: (Grid<int>, Grid<int>) -> Grid<int>,
    /** the 256-entry gamma table given to `cv2.LUT` */
    gammaTable: seq<int>,
    /** `cv2.normalize(.., 0, 255, NORM_MINMAX)` */
    normalize: Grid<int> -> Grid<int>,
    /** `cv2.GaussianBlur(.., (0, 0), 2.0)` */
    blurSigma2: Grid<int> -> Grid<int>,
    /** `cv2.addWeighted(processed, 1.5, blurred, -0.5, 0)` */
    addWeighted: (Grid<int>, Grid<int>) -> Grid<int>)
  {
    /** What OpenCV guarantees of these calls on 8-bit images: gray values stay
        8-bit, filters keep the shape of their input, the warp yields a
        well-formed colour image, `h` rows of `w` pixels when that size is
        positive (the `dsize` argument). */
    ghost predicate Valid()
    {
      && (forall p :: IsByte(grayOf(p)))
      && |gammaTable| == 256 && (forall v :: 0 <= v < 256 ==> IsByte(gammaTable[v]))
      && (forall a, b :: IsGray(a) && SameShape(b, a) ==> IsGray(divide(a, b)) && SameShape(divide(a, b), a))
      && (forall a :: IsGray(a) ==> IsGray(normalize(a)) && SameShape(normalize(a), a))
      && (forall a :: IsGray(a) ==> IsGray(blurSigma2(a)) && SameShape(blurSigma2(a), a))
      && (forall a, b :: IsGray(a) && SameShape(b, a) ==> IsGray(addWeighted(a, b)) && SameShape(addWeighted(a, b), a))
      && (forall img, rect, dst, w, h :: IsBgrImage(img) ==>
            && IsBgrImage(warp(img, rect, dst, w, h))
            && (w > 0 && h > 0 ==> |warp(img, rect, dst, w, h)| == h && Width(warp(img, rect, dst, w, h)) == w))
    }

    /** `cv2.resize(image, (w, h))` with no scale factors: OpenCV raises
        (`None` here) when the requested size is empty, a width or height
        of zero. */
    function Resize(img: Grid<Bgr>, w: int, h: int): (r: Option<Grid<Bgr>>)
      ensures r.Some? <==> w > 0 && h > 0
      ensures r.Some? ==> r.value == resize(img, w, h)
    {
      if w > 0 && h > 0 then Some(resize(img, w, h)) else None
    }

    function Divide(a: Grid<int>, b: Grid<int>): (r: Grid<int>)
      requires Valid() && IsGray(a) && SameShape(b, a)
      ensures IsGray(r) && SameShape(r, a)
    {
      divide(a, b)
    }

    function Normalize(a: Grid<int>): (r: Grid<int>)
      requires Valid() && IsGray(a)
      ensures IsGray(r) && SameShape(r, a)
    {
      normalize(a)
    }

    function BlurSigma2(a: Grid<int>): (r: Grid<int>)
      requires Valid() && IsGray(a)
      ensures IsGray(r) && SameShape(r, a)
    {
      blurSigma2(a)
    }

    function AddWeighted(a: Grid<int>, b: Grid<int>): (r: Grid<int>)
      requires Valid() && IsGray(a) && SameShape(b, a)
      ensures IsGray(r) && SameShape(r, a)
    {
      addWeighted(a, b)
    }

    function Warp(img: Grid<Bgr>, rect: seq<Point>, dst: seq<Point>, w: int, h: int): (r: Grid<Bgr>)
      requires Valid() && IsBgrImage(img)
      ensures IsBgrImage(r)
      ensures w > 0 && h > 0 ==> |r| == h && Width(r) == w
    {
      warp(img, rect, dst, w, h)
    }
  }
}
