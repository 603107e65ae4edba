/** The merged-image layout of `pdf_to_single_image`: the canvas size and
    the offsets at which the page images are pasted, one after another,
    top to bottom or left to right. */
module PdfLayout {

  /** The size of one page image in pixels. */
  datatype Size = Size(width: nat, height: nat)

  /** Where an image's top-left corner is pasted on the canvas. */
  datatype Offset = Offset(x: nat, y: nat)

  function Widths(sizes: seq<Size>): (r: seq<nat>)
    ensures |r| == |sizes|
  {
    seq(|sizes|, k requires 0 <= k < |sizes| => sizes[k].width)
  }

  function Heights(sizes: seq<Size>): (r: seq<nat>)
    ensures |r| == |sizes|
  {
    seq(|sizes|, k requires 0 <= k < |sizes| => sizes[k].height)
  }

  /** `sum(..)` */
  function SumOf(xs: seq<nat>): nat
  {
    if xs == [] then 0 else SumOf(xs[..|xs| - 1]) + xs[|xs| - 1]
  }

  /** `max(..)`, which raises on an empty list. */
  function MaxOf(xs: seq<nat>): (m: nat)
    requires |xs| > 0
    ensures forall k :: 0 <= k < |xs| ==> xs[k] <= m
    ensures exists k :: 0 <= k < |xs| && xs[k] == m
  {
    if |xs| == 1 then xs[0]
    else
      var m := MaxOf(xs[..|xs| - 1]);
      if xs[|xs| - 1] > m then xs[|xs| - 1] else m
  }

  /** The canvas: as wide as the widest page and as tall as all pages
      together when stacked vertically, and the other way round otherwise. */
  function CanvasSize(sizes: seq<Size>, vertical: bool): Size
    requires |sizes| > 0
  {
    if vertical then Size(MaxOf(Widths(sizes)), SumOf(Heights(sizes)))
    else Size(SumOf(Widths(sizes)), MaxOf(Heights(sizes)))
  }

  /** The lengths the paste position advances by: heights when stacking
      vertically, widths otherwise. */
  function Steps(sizes: seq<Size>, vertical: bool): (r: seq<nat>)
    ensures |r| == |sizes|
  {
    if vertical then Heights(sizes) else Widths(sizes)
  }

  /** Image `k` is pasted after all the images before it. */
  function Offsets(sizes: seq<Size>, vertical: bool): (r: seq<Offset>)
    ensures |r| == |sizes|
  {
    seq(|sizes|, k requires 0 <= k < |sizes| =>
      var pos := SumOf(Steps(sizes, vertical)[..k]);
      if vertical then Offset(0, pos) else Offset(pos, 0))
  }

  /** The paste loop of `pdf_to_single_image`: `current_pos` starts at 0
      and grows by each image's height (vertical) or width (horizontal). */
  method PasteOffsets(sizes: seq<Size>, vertical: bool) returns (offsets: seq<Offset>)
    ensures offsets == Offsets(sizes, vertical)
  {
    var currentPos := 0;
    offsets := [];
    for i := 0 to |sizes|
      invariant offsets == Offsets(sizes, vertical)[..i]
      invariant currentPos == SumOf(Steps(sizes, vertical)[..i])
    {
      assert Steps(sizes, vertical)[..i + 1][..i] == Steps(sizes, vertical)[..i];
      if vertical {
        offsets := offsets + [Offset(0, currentPos)];
        currentPos := currentPos + sizes[i].height;
      } else {
        offsets := offsets + [Offset(currentPos, 0)];
        currentPos := currentPos + sizes[i].width;
      }
    }
  }

  /** A prefix sum grows by at least the entry it passes. */
  lemma {:induction false} SumOfPrefix(xs: seq<nat>, i: nat, j: nat)
    requires i < j <= |xs|
    ensures SumOf(xs[..i]) + xs[i] <= SumOf(xs[..j])
    decreases j
  {
    assert xs[..j][..j - 1] == xs[..j - 1];
    if j > i + 1 {
      SumOfPrefix(xs, i, j - 1);
    } else {
      assert xs[..j - 1] == xs[..i];
    }
  }

  /** Rectangles `[x, x + width) × [y, y + height)` share a pixel. */
  predicate Overlap(a: Offset, sa: Size, b: Offset, sb: Size)
  {
    && a.x < b.x + sb.width && b.x < a.x + sa.width
    && a.y < b.y + sb.height && b.y < a.y + sa.height
  }

  /** Every pasted image lies inside the canvas. */
  lemma PastedInside(sizes: seq<Size>, vertical: bool, k: nat)
    requires k < |sizes|
    ensures var c, o := CanvasSize(sizes, vertical), Offsets(sizes, vertical)[k];
            o.x + sizes[k].width <= c.width && o.y + sizes[k].height <= c.height
  {
    var steps := Steps(sizes, vertical);
    SumOfPrefix(steps, k, |sizes|);
    assert steps[..|sizes|] == steps;
    assert Widths(sizes)[k] == sizes[k].width && Heights(sizes)[k] == sizes[k].height;
  }

  /** No two pasted images overlap: each starts where the ones before it
      have ended. */
  lemma PastedDisjoint(sizes: seq<Size>, vertical: bool, i: nat, j: nat)
    requires i < j < |sizes|
    ensures var o := Offsets(sizes, vertical);
            !Overlap(o[i], sizes[i], o[j], sizes[j]) && !Overlap(o[j], sizes[j], o[i], sizes[i])
    ensures var o := Offsets(sizes, vertical);
            if vertical then o[i].y + sizes[i].height <= o[j].y else o[i].x + sizes[i].width <= o[j].x
  {
    var steps := Steps(sizes, vertical);
    SumOfPrefix(steps, i, j);
    assert steps[i] == if vertical then sizes[i].height else sizes[i].width;
  }

  /** The images follow each other without a gap, and the last one ends at
      the canvas edge along the stacking direction. */
  lemma PastedTight(sizes: seq<Size>, vertical: bool)
    requires |sizes| > 0
    ensures var o, n := Offsets(sizes, vertical), |sizes|;
            && o[0] == Offset(0, 0)
            && (forall k :: 0 <= k < n - 1 ==>
                  if vertical then o[k + 1].y == o[k].y + sizes[k].height else o[k + 1].x == o[k].x + sizes[k].width)
            && (if vertical then o[n - 1].y + sizes[n - 1].height == CanvasSize(sizes, vertical).height
                else o[n - 1].x + sizes[n - 1].width == CanvasSize(sizes, vertical).width)
  {
    var steps := Steps(sizes, vertical);
    var n := |sizes|;
    forall k | 0 <= k < n
      ensures SumOf(steps[..k + 1]) == SumOf(steps[..k]) + steps[k]
      ensures steps[k] == if vertical then sizes[k].height else sizes[k].width
    {
      assert steps[..k + 1][..k] == steps[..k];
    }
    assert steps[..0] == [];
    assert steps[..n] == steps;
    assert SumOf(steps) == if vertical then CanvasSize(sizes, vertical).height else CanvasSize(sizes, vertical).width;
  }
}
