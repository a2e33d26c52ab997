/**
 * The overlap error metric: a windowed sum of squared luminance differences
 * between two textures, and the mean of that error over the overlap between
 * a candidate tile and the pixels already painted on the canvas.
 */
module ErrorMetrics {
  import opened Pixels
  import opened TileGrid

  /** Sum of the metric error down one column of `h` pixels, A at (xA, yA..) against B at (xB, yB..). */
  function ColumnSum(A: array2<Rgb>, xA: int, yA: int, B: array2<Rgb>, xB: int, yB: int, h: nat): (s: real)
    requires Within(A, xA, yA, 1, h) && Within(B, xB, yB, 1, h)
    reads A, B
    ensures s >= 0.0
    decreases h
  {
    if h == 0 then 0.0
    else ColumnSum(A, xA, yA, B, xB, yB, h - 1) + MetricError(A[yA + h - 1, xA], B[yB + h - 1, xB])
  }

  /** Sum of the metric error over the w-by-h window, column by column. */
  function WindowSum(A: array2<Rgb>, xA: int, yA: int, B: array2<Rgb>, xB: int, yB: int, w: nat, h: nat): (s: real)
    requires Within(A, xA, yA, w, h) && Within(B, xB, yB, w, h)
    reads A, B
    ensures s >= 0.0
    decreases w
  {
    if w == 0 then 0.0
    else WindowSum(A, xA, yA, B, xB, yB, w - 1, h) + ColumnSum(A, xA + w - 1, yA, B, xB + w - 1, yB, h)
  }

  /**
   * calculateErrorSum: the accumulating double loop, columns outer and rows
   * inner, computes the window sum.
   */
  method CalculateErrorSum(A: array2<Rgb>, xA: int, yA: int, B: array2<Rgb>, xB: int, yB: int, width: nat, height: nat)
    returns (squaredErrorSum: real)
    requires Within(A, xA, yA, width, height) && Within(B, xB, yB, width, height)
    ensures squaredErrorSum == WindowSum(A, xA, yA, B, xB, yB, width, height)
    ensures squaredErrorSum >= 0.0
    ensures width == 0 || height == 0 ==> squaredErrorSum == 0.0
  {
    squaredErrorSum := 0.0;
    var ix, ixA, ixB := 0, xA, xB;
    while ix < width
      invariant 0 <= ix <= width && ixA == xA + ix && ixB == xB + ix
      invariant squaredErrorSum == WindowSum(A, xA, yA, B, xB, yB, ix, height)
    {
      var iy, iyA, iyB := 0, yA, yB;
      while iy < height
        invariant 0 <= iy <= height && iyA == yA + iy && iyB == yB + iy
        invariant squaredErrorSum
          == WindowSum(A, xA, yA, B, xB, yB, ix, height) + ColumnSum(A, ixA, yA, B, ixB, yB, iy)
      {
        squaredErrorSum := squaredErrorSum + MetricError(A[iyA, ixA], B[iyB, ixB]);
        iy, iyA, iyB := iy + 1, iyA + 1, iyB + 1;
      }
      ix, ixA, ixB := ix + 1, ixA + 1, ixB + 1;
    }
    EmptyWindowSum(A, xA, yA, B, xB, yB, width);
  }

  /** An empty window sums to zero. */
  lemma {:induction false} EmptyWindowSum(A: array2<Rgb>, xA: int, yA: int, B: array2<Rgb>, xB: int, yB: int, w: nat)
    ensures WindowSum(A, xA, yA, B, xB, yB, w, 0) == 0.0 && WindowSum(A, xA, yA, B, xB, yB, 0, w) == 0.0
    decreases w
  {
    if w > 0 {
      EmptyWindowSum(A, xA, yA, B, xB, yB, w - 1);
    }
  }

  /** Splitting a window into a left and a right part splits its sum. */
  lemma {:induction false} WindowSumSplitColumns(A: array2<Rgb>, xA: int, yA: int, B: array2<Rgb>, xB: int, yB: int,
                                                  w1: nat, w2: nat, h: nat)
    requires Within(A, xA, yA, w1 + w2, h) && Within(B, xB, yB, w1 + w2, h)
    ensures WindowSum(A, xA, yA, B, xB, yB, w1 + w2, h)
         == WindowSum(A, xA, yA, B, xB, yB, w1, h) + WindowSum(A, xA + w1, yA, B, xB + w1, yB, w2, h)
    decreases w2
  {
    if w2 > 0 {
      WindowSumSplitColumns(A, xA, yA, B, xB, yB, w1, w2 - 1, h);
    }
  }

  lemma {:induction false} ColumnSumSplitRows(A: array2<Rgb>, xA: int, yA: int, B: array2<Rgb>, xB: int, yB: int,
                                               h1: nat, h2: nat)
    requires Within(A, xA, yA, 1, h1 + h2) && Within(B, xB, yB, 1, h1 + h2)
    ensures ColumnSum(A, xA, yA, B, xB, yB, h1 + h2)
         == ColumnSum(A, xA, yA, B, xB, yB, h1) + ColumnSum(A, xA, yA + h1, B, xB, yB + h1, h2)
    decreases h2
  {
    if h2 > 0 {
      ColumnSumSplitRows(A, xA, yA, B, xB, yB, h1, h2 - 1);
    }
  }

  /** Splitting a window into a top and a bottom part splits its sum. */
  lemma {:induction false} WindowSumSplitRows(A: array2<Rgb>, xA: int, yA: int, B: array2<Rgb>, xB: int, yB: int,
                                               w: nat, h1: nat, h2: nat)
    requires Within(A, xA, yA, w, h1 + h2) && Within(B, xB, yB, w, h1 + h2)
    ensures WindowSum(A, xA, yA, B, xB, yB, w, h1 + h2)
         == WindowSum(A, xA, yA, B, xB, yB, w, h1) + WindowSum(A, xA, yA + h1, B, xB, yB + h1, w, h2)
    decreases w
  {
    if w > 0 {
      WindowSumSplitRows(A, xA, yA, B, xB, yB, w - 1, h1, h2);
      ColumnSumSplitRows(A, xA + w - 1, yA, B, xB + w - 1, yB, h1, h2);
    }
  }

  /** Where a candidate tile of the source is compared with the canvas, and the tile and seam extents. */
  datatype OverlapGeometry = OverlapGeometry(srcX: int, srcY: int, tgtX: int, tgtY: int,
                                             tileW: int, tileH: int, seamW: int, seamH: int)

  /**
   * calculateMSE divides by positive pixel counts and reads inside both
   * textures: the left strip when the tile is not in the first column, the
   * top strip when it is not in the first row.
   */
  predicate MseDefined(source: array2<Rgb>, target: array2<Rgb>, g: OverlapGeometry) {
    0 < g.seamW <= g.tileW && 0 < g.seamH <= g.tileH &&
    (g.tgtX > 0 ==> Within(source, g.srcX, g.srcY, g.seamW, g.tileH) && Within(target, g.tgtX, g.tgtY, g.seamW, g.tileH)) &&
    (g.tgtY > 0 ==> Within(source, g.srcX, g.srcY, g.tileW, g.seamH) && Within(target, g.tgtX, g.tgtY, g.tileW, g.seamH))
  }

  /**
   * calculateMSE: the mean metric error over the overlap of the candidate
   * tile at (srcX, srcY) with the canvas at (tgtX, tgtY).  No overlap for the
   * first tile, a left strip in the first row, a top strip in the first
   * column, and otherwise an L-shape made of three rectangles whose sums are
   * added before dividing by the total pixel count.
   */
  function CalculateMSE(source: array2<Rgb>, target: array2<Rgb>, srcX: int, srcY: int, tgtX: int, tgtY: int,
                        tileW: int, tileH: int, seamW: int, seamH: int): (mse: real)
    requires MseDefined(source, target, OverlapGeometry(srcX, srcY, tgtX, tgtY, tileW, tileH, seamW, seamH))
    reads source, target
    ensures mse >= 0.0
    ensures tgtX <= 0 && tgtY <= 0 ==> mse == 0.0
  {
    if tgtX <= 0 && tgtY <= 0 then 0.0
    else if tgtX > 0 && tgtY <= 0 then
      var squaredErrorSum := WindowSum(source, srcX, srcY, target, tgtX, tgtY, seamW, tileH);
      var pixelCount := seamW * tileH;
      assert pixelCount > 0 by { PositiveProduct(seamW, tileH); }
      squaredErrorSum / pixelCount as real
    else if tgtX <= 0 && tgtY > 0 then
      var squaredErrorSum := WindowSum(source, srcX, srcY, target, tgtX, tgtY, tileW, seamH);
      var pixelCount := seamH * tileW;
      assert pixelCount > 0 by { PositiveProduct(seamH, tileW); }
      squaredErrorSum / pixelCount as real
    else
      var a := WindowSum(source, srcX, srcY, target, tgtX, tgtY, seamW, seamH);
      var b := WindowSum(source, srcX, srcY + seamH, target, tgtX, tgtY + seamH, seamW, tileH - seamH);
      var c := WindowSum(source, srcX + seamW, srcY, target, tgtX + seamW, tgtY, tileW - seamW, seamH);
      var pixelCount := seamW * seamH + seamW * (tileH - seamH) + seamH * (tileW - seamW);
      assert pixelCount > 0 by {
        PositiveProduct(seamW, seamH);
        MulNonNegative(seamW, tileH - seamH);
        MulNonNegative(seamH, tileW - seamW);
      }
      (a + b + c) / pixelCount as real
  }

  lemma PositiveProduct(a: int, b: int)
    requires a > 0 && b > 0
    ensures a * b > 0
  {
  }

  // The overlap as a region of the tile, for an independent account of the mean.

  /** Pixel (ix, iy) of the tile overlaps pixels painted before it. */
  predicate InOverlap(g: OverlapGeometry, ix: int, iy: int) {
    (g.tgtX > 0 && ix < g.seamW) || (g.tgtY > 0 && iy < g.seamH)
  }

  /** Width of the left strip of the overlap (zero in the first column). */
  function LeftWidth(g: OverlapGeometry): int {
    if g.tgtX > 0 then g.seamW else 0
  }

  /** Height of the top strip of the overlap (zero in the first row). */
  function TopHeight(g: OverlapGeometry): int {
    if g.tgtY > 0 then g.seamH else 0
  }

  function Min(a: int, b: int): int { if a <= b then a else b }

  function Max(a: int, b: int): int { if a <= b then b else a }

  /** Error summed over the overlap pixels among the first h rows of tile column ix. */
  ghost function OverlapColumnSum(source: array2<Rgb>, target: array2<Rgb>, g: OverlapGeometry, ix: int, h: nat): real
    requires MseDefined(source, target, g) && 0 <= ix < g.tileW && h <= g.tileH
    reads source, target
    decreases h
  {
    if h == 0 then 0.0
    else
      OverlapColumnSum(source, target, g, ix, h - 1) +
      (if InOverlap(g, ix, h - 1)
       then MetricError(source[g.srcY + h - 1, g.srcX + ix], target[g.tgtY + h - 1, g.tgtX + ix])
       else 0.0)
  }

  /** Error summed over the overlap pixels among the first w columns of the tile. */
  ghost function OverlapSum(source: array2<Rgb>, target: array2<Rgb>, g: OverlapGeometry, w: nat): real
    requires MseDefined(source, target, g) && w <= g.tileW
    reads source, target
    decreases w
  {
    if w == 0 then 0.0
    else OverlapSum(source, target, g, w - 1) + OverlapColumnSum(source, target, g, w - 1, g.tileH)
  }

  /** Number of overlap pixels among the first h rows of tile column ix. */
  ghost function OverlapColumnCount(g: OverlapGeometry, ix: int, h: nat): nat
    decreases h
  {
    if h == 0 then 0
    else OverlapColumnCount(g, ix, h - 1) + (if InOverlap(g, ix, h - 1) then 1 else 0)
  }

  /** Number of overlap pixels among the first w columns of the tile. */
  ghost function OverlapCount(g: OverlapGeometry, w: nat): nat
    requires 0 <= g.tileH
    decreases w
  {
    if w == 0 then 0
    else OverlapCount(g, w - 1) + OverlapColumnCount(g, w - 1, g.tileH)
  }

  lemma {:induction false} OverlapColumnSumShape(source: array2<Rgb>, target: array2<Rgb>, g: OverlapGeometry, ix: int, h: nat)
    requires MseDefined(source, target, g) && 0 <= ix < g.tileW && h <= g.tileH
    ensures ix < LeftWidth(g) ==>
      OverlapColumnSum(source, target, g, ix, h) == ColumnSum(source, g.srcX + ix, g.srcY, target, g.tgtX + ix, g.tgtY, h)
    ensures ix >= LeftWidth(g) ==>
      OverlapColumnSum(source, target, g, ix, h)
        == ColumnSum(source, g.srcX + ix, g.srcY, target, g.tgtX + ix, g.tgtY, Min(h, TopHeight(g)))
    decreases h
  {
    if h > 0 {
      OverlapColumnSumShape(source, target, g, ix, h - 1);
    }
  }

  lemma {:induction false} OverlapColumnCountShape(g: OverlapGeometry, ix: int, h: nat)
    requires 0 <= g.seamH && 0 <= ix
    ensures OverlapColumnCount(g, ix, h) == if ix < LeftWidth(g) then h else Min(h, TopHeight(g))
    decreases h
  {
    if h > 0 {
      OverlapColumnCountShape(g, ix, h - 1);
    }
  }

  /**
   * The overlap among the first w tile columns is the left strip (its first
   * w columns) plus the part of the top strip to the right of it.
   */
  lemma {:induction false} OverlapSumShape(source: array2<Rgb>, target: array2<Rgb>, g: OverlapGeometry, w: nat)
    requires MseDefined(source, target, g) && w <= g.tileW
    ensures var L, T := LeftWidth(g), TopHeight(g);
      OverlapSum(source, target, g, w)
        == WindowSum(source, g.srcX, g.srcY, target, g.tgtX, g.tgtY, Min(w, L), g.tileH)
         + WindowSum(source, g.srcX + L, g.srcY, target, g.tgtX + L, g.tgtY, Max(0, w - L), T)
    decreases w
  {
    if w > 0 {
      OverlapSumShape(source, target, g, w - 1);
      OverlapColumnSumShape(source, target, g, w - 1, g.tileH);
      var L, T := LeftWidth(g), TopHeight(g);
      if w <= L {
        assert Min(w - 1, L) == w - 1 && Max(0, w - 1 - L) == 0 && Min(w, L) == w && Max(0, w - L) == 0;
        EmptyWindowSum(source, g.srcX + L, g.srcY, target, g.tgtX + L, g.tgtY, T);
        OverlapSumStepLeft(source, target, g, w);
      } else {
        assert Min(w - 1, L) == L && Max(0, w - 1 - L) == w - 1 - L && Min(w, L) == L && Max(0, w - L) == w - L;
        OverlapSumStepTop(source, target, g, w);
      }
    }
  }

  /** One more column inside the left strip adds that whole column. */
  lemma OverlapSumStepLeft(source: array2<Rgb>, target: array2<Rgb>, g: OverlapGeometry, w: nat)
    requires MseDefined(source, target, g) && 0 < w <= g.tileW && w <= LeftWidth(g)
    requires OverlapSum(source, target, g, w - 1) == WindowSum(source, g.srcX, g.srcY, target, g.tgtX, g.tgtY, w - 1, g.tileH)
    ensures OverlapSum(source, target, g, w) == WindowSum(source, g.srcX, g.srcY, target, g.tgtX, g.tgtY, w, g.tileH)
  {
    OverlapColumnSumShape(source, target, g, w - 1, g.tileH);
  }

  /** One more column right of the left strip adds its top-strip part. */
  lemma OverlapSumStepTop(source: array2<Rgb>, target: array2<Rgb>, g: OverlapGeometry, w: nat)
    requires MseDefined(source, target, g) && LeftWidth(g) < w <= g.tileW
    requires var L, T := LeftWidth(g), TopHeight(g);
      OverlapSum(source, target, g, w - 1)
        == WindowSum(source, g.srcX, g.srcY, target, g.tgtX, g.tgtY, L, g.tileH)
         + WindowSum(source, g.srcX + L, g.srcY, target, g.tgtX + L, g.tgtY, w - 1 - L, T)
    ensures var L, T := LeftWidth(g), TopHeight(g);
      OverlapSum(source, target, g, w)
        == WindowSum(source, g.srcX, g.srcY, target, g.tgtX, g.tgtY, L, g.tileH)
         + WindowSum(source, g.srcX + L, g.srcY, target, g.tgtX + L, g.tgtY, w - L, T)
  {
    OverlapColumnSumShape(source, target, g, w - 1, g.tileH);
    assert Min(g.tileH, TopHeight(g)) == TopHeight(g);
  }

  /** The number of overlap pixels among the first w tile columns. */
  lemma {:induction false} OverlapCountShape(g: OverlapGeometry, w: nat)
    requires 0 < g.seamW <= g.tileW && 0 < g.seamH <= g.tileH && w <= g.tileW
    ensures OverlapCount(g, w) == Min(w, LeftWidth(g)) * g.tileH + Max(0, w - LeftWidth(g)) * TopHeight(g)
    decreases w
  {
    if w > 0 {
      OverlapCountShape(g, w - 1);
      OverlapColumnCountShape(g, w - 1, g.tileH);
    }
  }

  /**
   * The value of calculateMSE, whenever there is an overlap, is the error
   * summed over the overlap region divided by the number of its pixels: an
   * area-weighted mean, not a mean of per-rectangle means.
   */
  lemma MseIsOverlapMean(source: array2<Rgb>, target: array2<Rgb>, g: OverlapGeometry)
    requires MseDefined(source, target, g) && (g.tgtX > 0 || g.tgtY > 0)
    ensures OverlapCount(g, g.tileW) > 0
    ensures CalculateMSE(source, target, g.srcX, g.srcY, g.tgtX, g.tgtY, g.tileW, g.tileH, g.seamW, g.seamH)
         == OverlapSum(source, target, g, g.tileW) / OverlapCount(g, g.tileW) as real
  {
    OverlapSumShape(source, target, g, g.tileW);
    OverlapCountShape(g, g.tileW);
    if g.tgtX > 0 && g.tgtY <= 0 {
      LeftStripMean(source, target, g);
    } else if g.tgtX <= 0 && g.tgtY > 0 {
      TopStripMean(source, target, g);
    } else {
      LShapeMean(source, target, g);
    }
  }

  lemma LeftStripMean(source: array2<Rgb>, target: array2<Rgb>, g: OverlapGeometry)
    requires MseDefined(source, target, g) && g.tgtX > 0 && g.tgtY <= 0
    requires var L, T := LeftWidth(g), TopHeight(g);
      OverlapSum(source, target, g, g.tileW)
        == WindowSum(source, g.srcX, g.srcY, target, g.tgtX, g.tgtY, Min(g.tileW, L), g.tileH)
         + WindowSum(source, g.srcX + L, g.srcY, target, g.tgtX + L, g.tgtY, Max(0, g.tileW - L), T)
    requires OverlapCount(g, g.tileW) == Min(g.tileW, LeftWidth(g)) * g.tileH + Max(0, g.tileW - LeftWidth(g)) * TopHeight(g)
    ensures OverlapCount(g, g.tileW) > 0
    ensures CalculateMSE(source, target, g.srcX, g.srcY, g.tgtX, g.tgtY, g.tileW, g.tileH, g.seamW, g.seamH)
         == OverlapSum(source, target, g, g.tileW) / OverlapCount(g, g.tileW) as real
  {
    EmptyWindowSum(source, g.srcX + g.seamW, g.srcY, target, g.tgtX + g.seamW, g.tgtY, g.tileW - g.seamW);
    assert OverlapCount(g, g.tileW) == g.seamW * g.tileH;
    PositiveProduct(g.seamW, g.tileH);
  }

  lemma TopStripMean(source: array2<Rgb>, target: array2<Rgb>, g: OverlapGeometry)
    requires MseDefined(source, target, g) && g.tgtX <= 0 && g.tgtY > 0
    requires var L, T := LeftWidth(g), TopHeight(g);
      OverlapSum(source, target, g, g.tileW)
        == WindowSum(source, g.srcX, g.srcY, target, g.tgtX, g.tgtY, Min(g.tileW, L), g.tileH)
         + WindowSum(source, g.srcX + L, g.srcY, target, g.tgtX + L, g.tgtY, Max(0, g.tileW - L), T)
    requires OverlapCount(g, g.tileW) == Min(g.tileW, LeftWidth(g)) * g.tileH + Max(0, g.tileW - LeftWidth(g)) * TopHeight(g)
    ensures OverlapCount(g, g.tileW) > 0
    ensures CalculateMSE(source, target, g.srcX, g.srcY, g.tgtX, g.tgtY, g.tileW, g.tileH, g.seamW, g.seamH)
         == OverlapSum(source, target, g, g.tileW) / OverlapCount(g, g.tileW) as real
  {
    assert OverlapCount(g, g.tileW) == g.seamH * g.tileW;
    PositiveProduct(g.seamH, g.tileW);
  }

  lemma LShapeMean(source: array2<Rgb>, target: array2<Rgb>, g: OverlapGeometry)
    requires MseDefined(source, target, g) && g.tgtX > 0 && g.tgtY > 0
    requires var L, T := LeftWidth(g), TopHeight(g);
      OverlapSum(source, target, g, g.tileW)
        == WindowSum(source, g.srcX, g.srcY, target, g.tgtX, g.tgtY, Min(g.tileW, L), g.tileH)
         + WindowSum(source, g.srcX + L, g.srcY, target, g.tgtX + L, g.tgtY, Max(0, g.tileW - L), T)
    requires OverlapCount(g, g.tileW) == Min(g.tileW, LeftWidth(g)) * g.tileH + Max(0, g.tileW - LeftWidth(g)) * TopHeight(g)
    ensures OverlapCount(g, g.tileW) > 0
    ensures CalculateMSE(source, target, g.srcX, g.srcY, g.tgtX, g.tgtY, g.tileW, g.tileH, g.seamW, g.seamH)
         == OverlapSum(source, target, g, g.tileW) / OverlapCount(g, g.tileW) as real
  {
    var a := WindowSum(source, g.srcX, g.srcY, target, g.tgtX, g.tgtY, g.seamW, g.seamH);
    var b := WindowSum(source, g.srcX, g.srcY + g.seamH, target, g.tgtX, g.tgtY + g.seamH, g.seamW, g.tileH - g.seamH);
    var c := WindowSum(source, g.srcX + g.seamW, g.srcY, target, g.tgtX + g.seamW, g.tgtY, g.tileW - g.seamW, g.seamH);
    var n := g.seamW * g.seamH + g.seamW * (g.tileH - g.seamH) + g.seamH * (g.tileW - g.seamW);
    assert Min(g.tileW, g.seamW) == g.seamW && Max(0, g.tileW - g.seamW) == g.tileW - g.seamW;
    var left := WindowSum(source, g.srcX, g.srcY, target, g.tgtX, g.tgtY, g.seamW, g.tileH);
    assert OverlapSum(source, target, g, g.tileW) == left + c;
    assert left == a + b by {
      WindowSumSplitRows(source, g.srcX, g.srcY, target, g.tgtX, g.tgtY, g.seamW, g.seamH, g.tileH - g.seamH);
    }
    LShapeCount(g);
    LShapeFormula(source, target, g);
  }

  /** The pixel count of the L-shape, in the form the L-shape branch of calculateMSE divides by. */
  lemma LShapeCount(g: OverlapGeometry)
    requires 0 < g.seamW <= g.tileW && 0 < g.seamH <= g.tileH && g.tgtX > 0 && g.tgtY > 0
    requires OverlapCount(g, g.tileW) == Min(g.tileW, LeftWidth(g)) * g.tileH + Max(0, g.tileW - LeftWidth(g)) * TopHeight(g)
    ensures var n := g.seamW * g.seamH + g.seamW * (g.tileH - g.seamH) + g.seamH * (g.tileW - g.seamW);
      OverlapCount(g, g.tileW) == n && n > 0
  {
    assert Min(g.tileW, g.seamW) == g.seamW && Max(0, g.tileW - g.seamW) == g.tileW - g.seamW;
    LCountIdentity(g.seamW, g.seamH, g.tileW, g.tileH);
    PositiveProduct(g.seamW, g.tileH);
    MulNonNegative(g.tileW - g.seamW, g.seamH);
  }

  /** The L-shape branch of calculateMSE, with the three rectangle sums named. */
  lemma LShapeFormula(source: array2<Rgb>, target: array2<Rgb>, g: OverlapGeometry)
    requires MseDefined(source, target, g) && g.tgtX > 0 && g.tgtY > 0
    ensures CalculateMSE(source, target, g.srcX, g.srcY, g.tgtX, g.tgtY, g.tileW, g.tileH, g.seamW, g.seamH)
         == (WindowSum(source, g.srcX, g.srcY, target, g.tgtX, g.tgtY, g.seamW, g.seamH)
             + WindowSum(source, g.srcX, g.srcY + g.seamH, target, g.tgtX, g.tgtY + g.seamH, g.seamW, g.tileH - g.seamH)
             + WindowSum(source, g.srcX + g.seamW, g.srcY, target, g.tgtX + g.seamW, g.tgtY, g.tileW - g.seamW, g.seamH))
            / (g.seamW * g.seamH + g.seamW * (g.tileH - g.seamH) + g.seamH * (g.tileW - g.seamW)) as real
  {
  }

  /** Pixel-count identity of the L-shape, as plain arithmetic. */
  lemma LCountIdentity(sw: int, sh: int, tw: int, th: int)
    ensures sw * sh + sw * (th - sh) + sh * (tw - sw) == sw * th + (tw - sw) * sh
    ensures sw * th + (tw - sw) * sh == sw * th + sh * tw - sw * sh
  {
    assert sw * (th - sh) == sw * th - sw * sh;
    assert sh * (tw - sw) == (tw - sw) * sh == sh * tw - sw * sh;
  }

  /**
   * The L-shape's three rectangles (corner, left strip below it, top strip
   * right of it) are disjoint and together make up the overlap, and their
   * pixel counts add up to seamW*tileH + seamH*tileW - seamW*seamH.
   */
  lemma LShapePixelCount(g: OverlapGeometry)
    requires 0 < g.seamW <= g.tileW && 0 < g.seamH <= g.tileH && g.tgtX > 0 && g.tgtY > 0
    ensures forall ix, iy :: 0 <= ix < g.tileW && 0 <= iy < g.tileH ==>
      var corner := ix < g.seamW && iy < g.seamH;
      var leftBelow := ix < g.seamW && g.seamH <= iy;
      var topRight := g.seamW <= ix && iy < g.seamH;
      (InOverlap(g, ix, iy) <==> corner || leftBelow || topRight) &&
      !(corner && leftBelow) && !(corner && topRight) && !(leftBelow && topRight)
    ensures g.seamW * g.seamH + g.seamW * (g.tileH - g.seamH) + g.seamH * (g.tileW - g.seamW)
         == g.seamW * g.tileH + g.seamH * g.tileW - g.seamW * g.seamH
         == OverlapCount(g, g.tileW)
  {
    OverlapCountShape(g, g.tileW);
    LCountIdentity(g.seamW, g.seamH, g.tileW, g.tileH);
    assert Min(g.tileW, g.seamW) == g.seamW && Max(0, g.tileW - g.seamW) == g.tileW - g.seamW;
  }
}
