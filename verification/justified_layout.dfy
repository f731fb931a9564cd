/**
 * The justified gallery layout: images are cut into rows at breakpoints
 * chosen along a path of a forward graph whose edge weights are the squared
 * deviation of the row's height from the target height; each row is then
 * scaled to fill the container width.
 *
 * Only an image's width and height are modelled; the other fields the
 * source copies along are not.
 */
module JustifiedLayout {
  import opened Wrappers
  import opened Seqs
  import opened GalleryUtils
  import opened RowPath

  datatype Image = Image(width: real, height: real)

  /** A working copy of an input image with its position and rounded aspect ratio. */
  datatype Annotated = Annotated(width: real, height: real, index: nat, ratio: real)

  /** A working image once its row is scaled. `isLastInRow` is `undefined`, i.e. false, except on a row's last image. */
  datatype Scaled = Scaled(
    width: real, height: real, index: nat, ratio: real,
    scaledWidth: real, scaledHeight: real, scaledWidthPc: real,
    isLastInRow: bool, isLastRow: bool)

  /** With `byRow` the rows, otherwise all scaled images in one list. */
  datatype LayoutResult = ByRow(rows: seq<seq<Scaled>>) | Flat(images: seq<Scaled>)

  /** The `padding` default. */
  const DefaultPadding: real := 2.0

  /** Containers narrower than this allow at most two images per row. */
  const NarrowWidth: real := 420.0

  /**
   * An image whose aspect ratio is defined and does not round to zero, so
   * every row's ratio sum is positive.
   */
  predicate Measurable(img: Image)
  {
    img.height != 0.0 && img.width / img.height >= 0.005
  }

  predicate AllMeasurable(images: seq<Image>)
  {
    forall i :: 0 <= i < |images| ==> Measurable(images[i])
  }

  predicate PositiveRatios(row: seq<Annotated>)
  {
    forall i :: 0 <= i < |row| ==> row[i].ratio > 0.0
  }

  /** The annotated part of a scaled image. */
  function Base(s: Scaled): Annotated
  {
    Annotated(s.width, s.height, s.index, s.ratio)
  }

  function Bases(row: seq<Scaled>): (r: seq<Annotated>)
    ensures |r| == |row| && forall k :: 0 <= k < |row| ==> r[k] == Base(row[k])
  {
    seq(|row|, k requires 0 <= k < |row| => Base(row[k]))
  }

  /** The working copies: each input's size, its position as `index` and `ratio(width, height)`. */
  function Annotate(images: seq<Image>): (r: seq<Annotated>)
    requires forall i :: 0 <= i < |images| ==> images[i].height != 0.0
    ensures |r| == |images|
  {
    seq(|images|, i requires 0 <= i < |images| =>
      Annotated(images[i].width, images[i].height, i, Ratio(images[i].width, images[i].height)))
  }

  /** Every working copy keeps its input's size, records its position and carries `ratio(width, height)`. */
  lemma AnnotateCopies(images: seq<Image>)
    requires forall i :: 0 <= i < |images| ==> images[i].height != 0.0
    ensures var a := Annotate(images);
      forall i :: 0 <= i < |a| ==>
        && a[i].width == images[i].width && a[i].height == images[i].height
        && a[i].index == i
        && a[i].ratio == Ratio(images[i].width, images[i].height)
  {
  }

  /** Measurable images get positive ratios, so every row has a positive aspect ratio. */
  lemma {:induction false} AnnotatedRatiosPositive(images: seq<Image>)
    requires AllMeasurable(images)
    ensures PositiveRatios(Annotate(images))
  {
    var a := Annotate(images);
    forall i | 0 <= i < |a| ensures a[i].ratio > 0.0 {
      RatioBounds(images[i].width, images[i].height);
    }
  }

  /** The row's aspect ratio: the sum of its images' ratios, added left to right. */
  function SumRatios(row: seq<Annotated>): real
  {
    if |row| == 0 then 0.0 else SumRatios(row[..|row| - 1]) + row[|row| - 1].ratio
  }

  lemma {:induction false} SumRatiosPositive(row: seq<Annotated>)
    requires |row| >= 1 && PositiveRatios(row)
    ensures SumRatios(row) > 0.0
    decreases |row|
  {
    if |row| > 1 {
      SumRatiosPositive(row[..|row| - 1]);
    }
  }

  /** `getRowHeight`: the row's width less the gaps between its images, over its aspect ratio, to two decimals. */
  function RowHeight(row: seq<Annotated>, containerWidth: real, padding: real): real
    requires |row| >= 1 && PositiveRatios(row)
  {
    SumRatiosPositive(row);
    ScaleHeight(containerWidth - (|row| - 1) as real * padding, SumRatios(row))
  }

  /**
   * The row height is the height, to two decimals, at which the row's
   * images side by side fill the container width less the gaps between them.
   */
  lemma {:induction false} RowHeightFillsRow(row: seq<Annotated>, containerWidth: real, padding: real)
    requires |row| >= 1 && PositiveRatios(row)
    ensures SumRatios(row) > 0.0
    ensures var w := containerWidth - (|row| - 1) as real * padding;
      var h := RowHeight(row, containerWidth, padding);
      IsHundredth(h) && w / SumRatios(row) - 0.005 < h <= w / SumRatios(row) + 0.005
  {
    SumRatiosPositive(row);
    ScaleHeightBounds(containerWidth - (|row| - 1) as real * padding, SumRatios(row));
  }

  /**
   * `cost`: the squared deviation of the row `start .. end-1` from the
   * target height, zero exactly when the row has the target height.
   */
  function Cost(images: seq<Annotated>, start: nat, end: nat, containerWidth: real, targetHeight: real,
                padding: real): (r: real)
    requires start < end <= |images| && PositiveRatios(images)
    ensures r >= 0.0
    ensures RowHeight(images[start..end], containerWidth, padding) == targetHeight ==> r == 0.0
    ensures RowHeight(images[start..end], containerWidth, padding) != targetHeight ==> r > 0.0
  {
    var d := RowHeight(images[start..end], containerWidth, padding) - targetHeight;
    SquarePositive(d);
    Square(d)
  }

  /** `Math.pow(Math.abs(d), 2)`. */
  function Square(d: real): real
  {
    d * d
  }

  lemma {:induction false} SquareOfPositive(d: real)
    requires d > 0.0
    ensures Square(d) > 0.0
  {
    assert Square(d) >= 0.0;
    assert Square(d) / d == d;
  }

  /** A square is never negative and is zero only at zero. */
  lemma {:induction false} SquarePositive(d: real)
    ensures Square(d) >= 0.0
    ensures d != 0.0 ==> Square(d) > 0.0
    ensures d == 0.0 ==> Square(d) == 0.0
  {
    if d > 0.0 {
      SquareOfPositive(d);
    } else if d < 0.0 {
      SquareOfPositive(-d);
      assert Square(d) == Square(-d);
    }
  }

  /**
   * The edge weights of the layout graph, as the shortest-path search sees
   * them; pairs that are not rows of positive ratio weigh 0.
   */
  function EdgeCost(images: seq<Annotated>, containerWidth: real, targetHeight: real, padding: real): CostFn
  {
    (s: nat, e: nat) =>
      if s < e <= |images| && PositiveRatios(images) then Cost(images, s, e, containerWidth, targetHeight, padding)
      else 0.0
  }

  /**
   * `calcSeekLimit`: 2 in a narrow container, otherwise the number of 3:4
   * portraits that fit an ideal row, times 1.5 and rounded, which is twice
   * the container's rounded aspect ratio, rounded.
   */
  function CalcSeekLimit(containerWidth: real, targetRowHeight: real): (r: int)
    requires containerWidth >= NarrowWidth ==> targetRowHeight != 0.0
    ensures containerWidth < NarrowWidth ==> r == 2
    ensures containerWidth >= NarrowWidth ==>
      var q := Ratio(containerWidth, targetRowHeight);
      2.0 * q - 0.5 < r as real <= 2.0 * q + 0.5
  {
    if containerWidth < NarrowWidth then 2
    else
      var count := Ratio(containerWidth, targetRowHeight) / 0.75;
      MathRound(count * 1.5)
  }

  /** When the target height is at most the container width, a row may hold two images. */
  lemma {:induction false} SeekLimitAllowsPairs(containerWidth: real, targetRowHeight: real)
    requires 0.0 < targetRowHeight <= containerWidth
    ensures CalcSeekLimit(containerWidth, targetRowHeight) >= 2
  {
    if containerWidth >= NarrowWidth {
      assert containerWidth / targetRowHeight >= 1.0;
    }
  }

  /**
   * The `graph` callback: the neighbours of node `start` with their weights.
   * The map holds `start` itself at 0 and every later node up to `limit`
   * positions on and no further than the image count, weighted by the cost
   * of the row between them.
   */
  method Graph(images: seq<Annotated>, start: nat, limit: int, containerWidth: real, targetHeight: real,
               padding: real)
    returns (results: map<nat, real>)
    requires PositiveRatios(images)
    ensures forall e: nat :: e in results <==> e == start || (Step(start, e, limit) && e <= |images|)
    ensures results[start] == 0.0
    ensures forall e :: e in results && e != start ==>
      results[e] == EdgeCost(images, containerWidth, targetHeight, padding)(start, e) >= 0.0
  {
    results := map[start := 0.0];
    var i := start + 1;
    while i < |images| + 1
      invariant start < i
      invariant forall e: nat :: e in results <==> e == start || (start < e < i && e <= |images| && e - start <= limit)
      invariant results[start] == 0.0
      invariant forall e :: e in results && e != start ==>
        results[e] == EdgeCost(images, containerWidth, targetHeight, padding)(start, e) >= 0.0
    {
      if i - start > limit {
        break;
      }
      results := results[i := Cost(images, start, i, containerWidth, targetHeight, padding)];
      i := i + 1;
    }
  }

  /** Breakpoints that start at 0, end at `n` and strictly increase. */
  predicate Increasing(p: seq<nat>, n: nat)
  {
    && |p| >= 1
    && p[0] == 0
    && p[|p| - 1] == n
    && forall i, j :: 0 <= i < j < |p| ==> p[i] < p[j]
  }

  lemma {:induction false} StepsIncrease(p: seq<nat>, n: nat, limit: int, i: nat, j: nat)
    requires ValidPath(p, n, limit) && i < j < |p|
    ensures p[i] < p[j]
    decreases j - i
  {
    assert Step(p[j - 1], p[j], limit);
    if i < j - 1 {
      StepsIncrease(p, n, limit, i, j - 1);
    }
  }

  /** A path of the graph is a strictly increasing breakpoint list. */
  lemma {:induction false} ValidPathIsIncreasing(p: seq<nat>, n: nat, limit: int)
    requires ValidPath(p, n, limit)
    ensures Increasing(p, n)
  {
    forall i, j | 0 <= i < j < |p| ensures p[i] < p[j] {
      StepsIncrease(p, n, limit, i, j);
    }
  }

  /** Breakpoints `p` cut `images` into rows that can be scaled to a container of this width. */
  predicate Layable(images: seq<Annotated>, p: seq<nat>, containerWidth: real)
  {
    Increasing(p, |images|) && PositiveRatios(images) && containerWidth != 0.0
  }

  /** The rows `images[p[i] .. p[i+1])` the breakpoints cut out. */
  function Rows(images: seq<Annotated>, p: seq<nat>): (rows: seq<seq<Annotated>>)
    requires Increasing(p, |images|)
    ensures |rows| == |p| - 1
  {
    seq(|p| - 1, i requires 0 <= i < |p| - 1 => images[p[i]..p[i + 1]])
  }

  /** One image of a row scaled to the row's height. */
  function ScaleImage(a: Annotated, rowHeight: real, containerWidth: real, isLastInRow: bool, isLastRow: bool): Scaled
    requires containerWidth != 0.0
  {
    var w := ScaleWidth(rowHeight, a.ratio);
    Scaled(a.width, a.height, a.index, a.ratio, w, rowHeight, Round(w / containerWidth * 100.0), isLastInRow, isLastRow)
  }

  /** A row scaled to its height, the last image flagged. */
  function ScaleRow(row: seq<Annotated>, containerWidth: real, padding: real, isLastRow: bool): (r: seq<Scaled>)
    requires |row| >= 1 && PositiveRatios(row) && containerWidth != 0.0
    ensures |r| == |row|
  {
    var h := RowHeight(row, containerWidth, padding);
    seq(|row|, k requires 0 <= k < |row| => ScaleImage(row[k], h, containerWidth, k == |row| - 1, isLastRow))
  }

  /** All rows scaled, the final one flagged as the last row. */
  function ScaledRows(images: seq<Annotated>, p: seq<nat>, containerWidth: real, padding: real)
    : (r: seq<seq<Scaled>>)
    requires Layable(images, p, containerWidth)
    ensures |r| == |p| - 1
    ensures forall i :: 0 <= i < |r| ==> |r[i]| == p[i + 1] - p[i]
  {
    var rows := Rows(images, p);
    seq(|rows|, i requires 0 <= i < |rows| => ScaleRow(rows[i], containerWidth, padding, i == |p| - 2))
  }

  /**
   * The default export, given the path the shortest-path search returned
   * for the graph with seek limit `limit` (by default `CalcSeekLimit`).
   */
  function Layout(images: seq<Image>, containerWidth: real, padding: real, limit: int, path: seq<nat>,
                  byRow: bool): (r: LayoutResult)
    requires AllMeasurable(images) && containerWidth != 0.0 && ValidPath(path, |images|, limit)
    ensures r.ByRow? <==> byRow
  {
    var a := Annotate(images);
    AnnotatedRatiosPositive(images);
    ValidPathIsIncreasing(path, |images|, limit);
    var rows := ScaledRows(a, path, containerWidth, padding);
    if byRow then ByRow(rows) else Flat(Flatten(rows))
  }

  /** The scaled rows before the `i`-th hold exactly the images before breakpoint `p[i]`. */
  lemma {:induction false} RowOffset(images: seq<Annotated>, p: seq<nat>, containerWidth: real, padding: real, i: nat)
    requires Layable(images, p, containerWidth)
    requires i < |p|
    ensures |Flatten(ScaledRows(images, p, containerWidth, padding)[..i])| == p[i]
  {
    var rs := ScaledRows(images, p, containerWidth, padding);
    if i > 0 {
      RowOffset(images, p, containerWidth, padding, i - 1);
      assert rs[..i][..i - 1] == rs[..i - 1];
    }
  }

  /** Every position before `n` lies in exactly one row `[p[i], p[i+1])`. */
  lemma {:induction false} FindRow(p: seq<nat>, n: nat, j: nat) returns (i: nat)
    requires Increasing(p, n) && j < n
    ensures i < |p| - 1 && p[i] <= j < p[i + 1]
    decreases |p|
  {
    assert |p| >= 2;
    if j >= p[|p| - 2] {
      i := |p| - 2;
    } else {
      var init := p[..|p| - 1];
      assert Increasing(init, p[|p| - 2]);
      i := FindRow(init, p[|p| - 2], j);
    }
  }

  /** Position `k` of a scaled row is the row's image `k` at the row's height, flagged when it ends the row. */
  lemma ScaleRowAt(row: seq<Annotated>, containerWidth: real, padding: real, isLastRow: bool, k: nat,
                   x: Annotated, isLastInRow: bool)
    requires |row| >= 1 && PositiveRatios(row) && containerWidth != 0.0 && k < |row|
    requires row[k] == x && (isLastInRow <==> k == |row| - 1)
    ensures ScaleRow(row, containerWidth, padding, isLastRow)[k]
         == ScaleImage(x, RowHeight(row, containerWidth, padding), containerWidth, isLastInRow, isLastRow)
  {
  }

  lemma {:induction false} ScaledRowsRow(a: seq<Annotated>, p: seq<nat>, containerWidth: real, padding: real, i: nat)
    requires Layable(a, p, containerWidth) && i < |p| - 1
    ensures p[i] < p[i + 1] <= |a|
    ensures ScaledRows(a, p, containerWidth, padding)[i] == ScaleRow(a[p[i]..p[i + 1]], containerWidth, padding, i == |p| - 2)
  {
    assert Rows(a, p)[i] == a[p[i]..p[i + 1]];
  }

  /** Position `j` of row `i` of the scaled rows is the working copy at `j`, scaled to its row's height. */
  lemma {:induction false} ScaledRowsAt(a: seq<Annotated>, p: seq<nat>, containerWidth: real, padding: real, i: nat, j: nat)
    requires Layable(a, p, containerWidth)
    requires i < |p| - 1 && p[i] <= j < p[i + 1]
    ensures ScaledRows(a, p, containerWidth, padding)[i][j - p[i]]
         == ScaleImage(a[j], RowHeight(a[p[i]..p[i + 1]], containerWidth, padding), containerWidth,
                       j + 1 == p[i + 1], i == |p| - 2)
  {
    ScaledRowsRow(a, p, containerWidth, padding, i);
    ScaleRowAt(a[p[i]..p[i + 1]], containerWidth, padding, i == |p| - 2, j - p[i], a[j], j + 1 == p[i + 1]);
  }

  /** The flattened rows hold one scaled image per working copy. */
  lemma {:induction false} FlatLength(a: seq<Annotated>, p: seq<nat>, containerWidth: real, padding: real)
    requires Layable(a, p, containerWidth)
    ensures |Flatten(ScaledRows(a, p, containerWidth, padding))| == |a|
  {
    var rs := ScaledRows(a, p, containerWidth, padding);
    RowOffset(a, p, containerWidth, padding, |p| - 1);
    assert rs[..|p| - 1] == rs;
  }

  /**
   * What the layout promises for the image at position `j` of the flat
   * result: it is working copy `j`; it is last in its row exactly when
   * `j + 1` is a breakpoint and in the last row exactly when it lies past
   * the second-last breakpoint; its height is the height of the row it lies
   * in, its width that height times its ratio, also as a percentage of the
   * container width.
   */
  predicate PlacedAt(x: Scaled, a: seq<Annotated>, p: seq<nat>, containerWidth: real, padding: real, j: nat)
    requires PositiveRatios(a) && containerWidth != 0.0 && j < |a|
  {
    && Base(x) == a[j]
    && (x.isLastInRow <==> j + 1 in p)
    && (x.isLastRow <==> |p| >= 2 && j >= p[|p| - 2])
    && (exists i :: 0 <= i < |p| - 1 && p[i] <= j < p[i + 1] <= |a|
                   && x.scaledHeight == RowHeight(a[p[i]..p[i + 1]], containerWidth, padding))
    && x.scaledWidth == ScaleWidth(x.scaledHeight, a[j].ratio)
    && x.scaledWidthPc == Round(x.scaledWidth / containerWidth * 100.0)
  }

  /** An image of row `i` scaled as the layout scales it meets the promises at its position. */
  lemma {:induction false} ScaledImagePlaced(a: seq<Annotated>, p: seq<nat>, containerWidth: real, padding: real, i: nat, j: nat)
    requires Layable(a, p, containerWidth)
    requires i < |p| - 1 && p[i] <= j < p[i + 1]
    ensures PlacedAt(ScaleImage(a[j], RowHeight(a[p[i]..p[i + 1]], containerWidth, padding), containerWidth,
                                j + 1 == p[i + 1], i == |p| - 2), a, p, containerWidth, padding, j)
  {
    BreakpointFlags(p, |a|, i, j);
  }

  /** Position `j` of the flattened rows is position `j - p[i]` of the row `i` that contains `j`. */
  lemma {:induction false} FlatIndex(a: seq<Annotated>, p: seq<nat>, containerWidth: real, padding: real, i: nat, j: nat)
    requires Layable(a, p, containerWidth) && i < |p| - 1 && p[i] <= j < p[i + 1]
    ensures j < |Flatten(ScaledRows(a, p, containerWidth, padding))|
    ensures Flatten(ScaledRows(a, p, containerWidth, padding))[j] == ScaledRows(a, p, containerWidth, padding)[i][j - p[i]]
  {
    var rs := ScaledRows(a, p, containerWidth, padding);
    RowOffset(a, p, containerWidth, padding, i);
    FlattenIndex(rs, i, j - p[i], j);
  }

  /** Position `j` of the flattened rows is working copy `j`, scaled within the row `i` that contains it. */
  lemma {:induction false} FlatElement(a: seq<Annotated>, p: seq<nat>, containerWidth: real, padding: real, j: nat) returns (i: nat)
    requires Layable(a, p, containerWidth) && j < |a|
    ensures i < |p| - 1 && p[i] <= j < p[i + 1]
    ensures j < |Flatten(ScaledRows(a, p, containerWidth, padding))|
    ensures Flatten(ScaledRows(a, p, containerWidth, padding))[j]
         == ScaleImage(a[j], RowHeight(a[p[i]..p[i + 1]], containerWidth, padding), containerWidth,
                       j + 1 == p[i + 1], i == |p| - 2)
  {
    i := FindRow(p, |a|, j);
    FlatIndex(a, p, containerWidth, padding, i, j);
    ScaledRowsAt(a, p, containerWidth, padding, i, j);
  }

  /** Position `j` of the flattened rows meets the promises at that position. */
  lemma {:induction false} FlatAt(a: seq<Annotated>, p: seq<nat>, containerWidth: real, padding: real, j: nat)
    requires Layable(a, p, containerWidth) && j < |a|
    ensures j < |Flatten(ScaledRows(a, p, containerWidth, padding))|
    ensures PlacedAt(Flatten(ScaledRows(a, p, containerWidth, padding))[j], a, p, containerWidth, padding, j)
  {
    var i := FlatElement(a, p, containerWidth, padding, j);
    ScaledImagePlaced(a, p, containerWidth, padding, i, j);
  }

  /** In row `i`, position `j` is a row's last exactly when `j + 1` is a breakpoint, and in the last row exactly when past the second-last one. */
  lemma {:induction false} BreakpointFlags(p: seq<nat>, n: nat, i: nat, j: nat)
    requires Increasing(p, n) && i < |p| - 1 && p[i] <= j < p[i + 1]
    ensures (j + 1 == p[i + 1]) <==> j + 1 in p
    ensures (i == |p| - 2) <==> j >= p[|p| - 2]
  {
    if j + 1 in p {
      var t :| 0 <= t < |p| && p[t] == j + 1;
      assert i < t <= i + 1;
    }
    if i < |p| - 2 {
      assert p[i + 1] <= p[|p| - 2];
    }
  }

  /** The layout is the scaled rows of the working copies, flattened unless `byRow`. */
  lemma {:induction false} LayoutUnfold(images: seq<Image>, containerWidth: real, padding: real, limit: int, path: seq<nat>, byRow: bool)
    requires AllMeasurable(images) && containerWidth != 0.0 && ValidPath(path, |images|, limit)
    ensures Layable(Annotate(images), path, containerWidth)
    ensures var rows := ScaledRows(Annotate(images), path, containerWidth, padding);
      Layout(images, containerWidth, padding, limit, path, byRow) == if byRow then ByRow(rows) else Flat(Flatten(rows))
  {
    AnnotatedRatiosPositive(images);
    ValidPathIsIncreasing(path, |images|, limit);
  }

  /** The flat result at position `j`, see `PlacedAt`. */
  lemma {:induction false} LayoutFlatAt(images: seq<Image>, containerWidth: real, padding: real, limit: int, path: seq<nat>, j: nat)
    requires AllMeasurable(images) && containerWidth != 0.0 && ValidPath(path, |images|, limit)
    requires j < |images|
    ensures PositiveRatios(Annotate(images))
    ensures var out := Layout(images, containerWidth, padding, limit, path, false).images;
      && |out| == |images|
      && PlacedAt(out[j], Annotate(images), path, containerWidth, padding, j)
  {
    var a := Annotate(images);
    LayoutUnfold(images, containerWidth, padding, limit, path, false);
    FlatLength(a, path, containerWidth, padding);
    FlatAt(a, path, containerWidth, padding, j);
  }

  /**
   * The flat result, image by image: it is the working copy at the same
   * position; it is last in its row exactly when the next position is a
   * breakpoint, in the last row exactly when it lies past the second-last
   * breakpoint; its height is its row's height and its width that height
   * times its ratio, also as a percentage of the container width.
   */
  lemma {:induction false} LayoutFlat(images: seq<Image>, containerWidth: real, padding: real, limit: int, path: seq<nat>)
    requires AllMeasurable(images) && containerWidth != 0.0 && ValidPath(path, |images|, limit)
    ensures var out := Layout(images, containerWidth, padding, limit, path, false).images;
      var a := Annotate(images);
      && PositiveRatios(a)
      && |out| == |images|
      && forall j :: 0 <= j < |out| ==>
        && Base(out[j]) == a[j]
        && (out[j].isLastInRow <==> j + 1 in path)
        && (out[j].isLastRow <==> |path| >= 2 && j >= path[|path| - 2])
        && (exists i :: 0 <= i < |path| - 1 && path[i] <= j < path[i + 1] <= |images|
                       && out[j].scaledHeight == RowHeight(a[path[i]..path[i + 1]], containerWidth, padding))
        && out[j].scaledWidth == ScaleWidth(out[j].scaledHeight, a[j].ratio)
        && out[j].scaledWidthPc == Round(out[j].scaledWidth / containerWidth * 100.0)
  {
    AnnotatedRatiosPositive(images);
    ValidPathIsIncreasing(path, |images|, limit);
    FlatLength(Annotate(images), path, containerWidth, padding);
    forall j: nat | j < |images| {
      LayoutFlatAt(images, containerWidth, padding, limit, path, j);
    }
  }

  /**
   * The rows, with `byRow`: one per edge of the path, each holding one to
   * `limit` images, exactly the working copies between its breakpoints, in
   * order; the flat result is their concatenation.
   */
  lemma {:induction false} LayoutByRow(images: seq<Image>, containerWidth: real, padding: real, limit: int, path: seq<nat>)
    requires AllMeasurable(images) && containerWidth != 0.0 && ValidPath(path, |images|, limit)
    ensures var rows := Layout(images, containerWidth, padding, limit, path, true).rows;
      var a := Annotate(images);
      && |rows| == |path| - 1
      && (forall i {:trigger rows[i]} :: 0 <= i < |rows| ==>
            && 1 <= |rows[i]| <= limit
            && path[i] < path[i + 1] <= |images|
            && Bases(rows[i]) == a[path[i]..path[i + 1]])
      && Flatten(rows) == Layout(images, containerWidth, padding, limit, path, false).images
  {
    var a := Annotate(images);
    AnnotatedRatiosPositive(images);
    ValidPathIsIncreasing(path, |images|, limit);
    var rows := ScaledRows(a, path, containerWidth, padding);
    assert rows == Layout(images, containerWidth, padding, limit, path, true).rows;
    forall i {:trigger rows[i]} | 0 <= i < |rows|
      ensures 1 <= |rows[i]| <= limit && path[i] < path[i + 1] <= |images| && Bases(rows[i]) == a[path[i]..path[i + 1]]
    {
      assert Step(path[i], path[i + 1], limit);
      forall k | 0 <= k < |rows[i]| ensures Bases(rows[i])[k] == a[path[i]..path[i + 1]][k] {
        ScaledRowsAt(a, path, containerWidth, padding, i, path[i] + k);
      }
    }
  }

  /**
   * The default export with the path found by the forward search: a layout
   * along a cheapest path of the graph, or none when the graph has no path
   * (images to place but a seek limit below 1).
   */
  function LayoutShortest(images: seq<Image>, containerWidth: real, targetHeight: real, padding: real, limit: int,
                          byRow: bool): (r: Option<LayoutResult>)
    requires AllMeasurable(images) && containerWidth != 0.0
    ensures r.None? <==> |images| > 0 && limit < 1
    ensures r.Some? ==>
      var c := EdgeCost(Annotate(images), containerWidth, targetHeight, padding);
      exists p :: && ValidPath(p, |images|, limit)
                  && (forall q :: ValidPath(q, |images|, limit) ==> PathCost(c, p) <= PathCost(c, q))
                  && r.value == Layout(images, containerWidth, padding, limit, p, byRow)
  {
    var c := EdgeCost(Annotate(images), containerWidth, targetHeight, padding);
    ShortestPathExists(c, |images|, limit);
    match ShortestPath(c, |images|, limit)
    case None => None
    case Some(p) => Some(Layout(images, containerWidth, padding, limit, p, byRow))
  }
}
