/**
 * Minimum-cost seams through the overlap strip between the canvas A and a
 * candidate tile B.  The tile view of the source is modelled as the source
 * texture plus the tile's origin, folded into (xB, yB).
 */
module SeamCarving {
  import opened Wrappers
  import opened Pixels
  import opened SeamDp

  /**
   * Pointwise errors of a vertical seam over a width-by-height strip: one
   * step per row, width - 1 cut positions; cutting at column x compares canvas
   * pixel x with tile pixel x + 1.
   */
  ghost function VerticalErrors(A: array2<Rgb>, B: array2<Rgb>, xA: int, yA: int, xB: int, yB: int,
                                width: int, height: int): (E: seq<seq<real>>)
    requires 1 <= width && 1 <= height
    requires Within(A, xA, yA, width - 1, height) && Within(B, xB, yB, width, height)
    reads A, B
    ensures |E| == height && IsCostGrid(E, width - 1)
  {
    seq(height, y requires 0 <= y < height reads A, B =>
      seq(width - 1, x requires 0 <= x < width - 1 reads A, B =>
        SeamError(A[yA + y, xA + x], B[yB + y, xB + x + 1])))
  }

  /**
   * Pointwise errors of a horizontal seam: the transpose, one step per
   * column, height - 1 cut positions; cutting at row y compares canvas pixel
   * y with tile pixel y + 1.
   */
  ghost function HorizontalErrors(A: array2<Rgb>, B: array2<Rgb>, xA: int, yA: int, xB: int, yB: int,
                                  width: int, height: int): (E: seq<seq<real>>)
    requires 1 <= width && 1 <= height
    requires Within(A, xA, yA, width, height - 1) && Within(B, xB, yB, width, height)
    reads A, B
    ensures |E| == width && IsCostGrid(E, height - 1)
  {
    seq(width, x requires 0 <= x < width reads A, B =>
      seq(height - 1, y requires 0 <= y < height - 1 reads A, B =>
        SeamError(A[yA + y, xA + x], B[yB + y + 1, xB + x])))
  }

  /** The vertical seam the source returns, or None where it would read outside its cost grid. */
  ghost function VerticalSeamOf(A: array2<Rgb>, B: array2<Rgb>, xA: int, yA: int, xB: int, yB: int,
                                width: int, height: int): Option<seq<int>>
    requires 1 <= width && 1 <= height
    requires Within(A, xA, yA, width - 1, height) && Within(B, xB, yB, width, height)
    reads A, B
  {
    SeamOfGrid(VerticalErrors(A, B, xA, yA, xB, yB, width, height), width - 1, height)
  }

  /** The horizontal seam the source returns, or None where it would read outside its cost grid. */
  ghost function HorizontalSeamOf(A: array2<Rgb>, B: array2<Rgb>, xA: int, yA: int, xB: int, yB: int,
                                  width: int, height: int): Option<seq<int>>
    requires 1 <= width && 1 <= height
    requires Within(A, xA, yA, width, height - 1) && Within(B, xB, yB, width, height)
    reads A, B
  {
    SeamOfGrid(HorizontalErrors(A, B, xA, yA, xB, yB, width, height), height - 1, width)
  }

  /**
   * computeVerticalSeamCost: fills the height-by-(width - 1) grid row by row.
   * Row 0 gets only its costs (its offsets are left as they were); every
   * later cell gets the cost and offset of the dynamic program.
   */
  method ComputeVerticalSeamCost(A: array2<Rgb>, B: array2<Rgb>, xA: int, yA: int, xB: int, yB: int,
                                 width: int, height: int, result: array2<MinCostCutData>, ghost E: seq<seq<real>>)
    requires 1 <= width && 1 <= height
    requires Within(A, xA, yA, width - 1, height) && Within(B, xB, yB, width, height)
    requires result.Length0 == height && result.Length1 == width - 1
    requires E == VerticalErrors(A, B, xA, yA, xB, yB, width, height)
    modifies result
    ensures forall y, x :: 0 <= y < height && 0 <= x < width - 1 ==>
      Stored(E, width - 1, y, x, result[y, x], old(result[y, x]))
    ensures VerticalFilled(E, width - 1, height, result)
    ensures forall c :: 0 <= c < width - 1 ==> result[0, c].cost == SeamError(A[yA, xA + c], B[yB, xB + c + 1])
  {
    var n := width - 1;
    for xi := 0 to n
      invariant forall x :: 0 <= x < n ==>
        result[0, x] == if x < xi then old(result[0, x]).(cost := E[0][x]) else old(result[0, x])
      invariant forall y, x :: 1 <= y < height && 0 <= x < n ==> result[y, x] == old(result[y, x])
    {
      result[0, xi] := result[0, xi].(cost := SeamError(A[yA, xA + xi], B[yB, xB + xi + 1]));
    }
    for yi := 1 to height
      invariant forall y, x :: 0 <= y < yi && 0 <= x < n ==> Stored(E, n, y, x, result[y, x], old(result[y, x]))
    {
      VerticalSeamCostRow(A, B, xA, yA, xB, yB, width, height, result, yi, E);
    }
  }

  /** One step of the fill: row yi from the costs of row yi - 1, every other row untouched. */
  method VerticalSeamCostRow(A: array2<Rgb>, B: array2<Rgb>, xA: int, yA: int, xB: int, yB: int,
                             width: int, height: int, result: array2<MinCostCutData>, yi: int,
                             ghost E: seq<seq<real>>)
    requires 1 <= width && 1 <= yi < height
    requires Within(A, xA, yA, width - 1, height) && Within(B, xB, yB, width, height)
    requires result.Length0 == height && result.Length1 == width - 1
    requires E == VerticalErrors(A, B, xA, yA, xB, yB, width, height)
    requires forall y, x :: y == yi - 1 && 0 <= x < width - 1 ==> result[y, x].cost == Cell(E, width - 1, y, x).cost
    modifies result
    ensures forall x :: 0 <= x < width - 1 ==> result[yi, x] == Cell(E, width - 1, yi, x)
    ensures forall y, x :: 0 <= y < height && y != yi && 0 <= x < width - 1 ==> result[y, x] == old(result[y, x])
  {
    var n := width - 1;
    for xi := 0 to n
      invariant forall x :: 0 <= x < xi ==> result[yi, x] == Cell(E, n, yi, x)
      invariant forall y, x :: 0 <= y < height && y != yi && 0 <= x < n ==> result[y, x] == old(result[y, x])
    {
      var d := VerticalSeamCostCell(A, B, xA, yA, xB, yB, width, height, result, yi, xi, E);
      result[yi, xi] := d;
    }
  }

  /** One cell of a vertical cost row, from the three cells above it. */
  method VerticalSeamCostCell(A: array2<Rgb>, B: array2<Rgb>, xA: int, yA: int, xB: int, yB: int,
                              width: int, height: int, result: array2<MinCostCutData>, yi: int, xi: int,
                              ghost E: seq<seq<real>>) returns (d: MinCostCutData)
    requires 1 <= yi < height && 0 <= xi < width - 1
    requires Within(A, xA, yA, width - 1, height) && Within(B, xB, yB, width, height)
    requires result.Length0 == height && result.Length1 == width - 1
    requires E == VerticalErrors(A, B, xA, yA, xB, yB, width, height)
    requires forall y, x :: y == yi - 1 && 0 <= x < width - 1 ==> result[y, x].cost == Cell(E, width - 1, y, x).cost
    ensures d == Cell(E, width - 1, yi, xi)
  {
    var costLeft := if xi > 0 then Fin(result[yi - 1, xi - 1].cost) else Inf;
    var costMiddle := result[yi - 1, xi].cost;
    var costRight := if xi < width - 2 then Fin(result[yi - 1, xi + 1].cost) else Inf;
    var ec := SeamError(A[yA + yi, xA + xi], B[yB + yi, xB + xi + 1]);
    var o := PickOffset(costLeft, costMiddle, costRight);
    CellStep(E, width - 1, yi, xi, costLeft, costMiddle, costRight);
    d := MinCostCutData(Neighbour(costLeft, costMiddle, costRight, o).v + ec, o);
  }

  /**
   * Cell (y, x) of a filled grid holds the dynamic program's cell, except
   * that step 0 keeps the offset it had before the fill.
   */
  ghost predicate Stored(E: seq<seq<real>>, n: int, y: int, x: int, d: MinCostCutData, before: MinCostCutData)
    requires IsCostGrid(E, n) && 0 <= y < |E| && 0 <= x < n
  {
    d == if y == 0 then before.(cost := Cell(E, n, y, x).cost) else Cell(E, n, y, x)
  }

  /**
   * computeHorizontalSeamCost: the transpose, filling the (height - 1)-by-width
   * grid column by column; cell (y, x) holds step x, position y.
   */
  method ComputeHorizontalSeamCost(A: array2<Rgb>, B: array2<Rgb>, xA: int, yA: int, xB: int, yB: int,
                                   width: int, height: int, result: array2<MinCostCutData>, ghost E: seq<seq<real>>)
    requires 1 <= width && 1 <= height
    requires Within(A, xA, yA, width, height - 1) && Within(B, xB, yB, width, height)
    requires result.Length0 == height - 1 && result.Length1 == width
    requires E == HorizontalErrors(A, B, xA, yA, xB, yB, width, height)
    modifies result
    ensures forall y, x :: 0 <= y < height - 1 && 0 <= x < width ==>
      Stored(E, height - 1, x, y, result[y, x], old(result[y, x]))
    ensures HorizontalFilled(E, height - 1, width, result)
    ensures forall r :: 0 <= r < height - 1 ==> result[r, 0].cost == SeamError(A[yA + r, xA], B[yB + r + 1, xB])
  {
    var n := height - 1;
    for yi := 0 to n
      invariant forall y :: 0 <= y < n ==>
        result[y, 0] == if y < yi then old(result[y, 0]).(cost := E[0][y]) else old(result[y, 0])
      invariant forall y, x :: 0 <= y < n && 1 <= x < width ==> result[y, x] == old(result[y, x])
    {
      result[yi, 0] := result[yi, 0].(cost := SeamError(A[yA + yi, xA], B[yB + yi + 1, xB]));
    }
    for xi := 1 to width
      invariant forall y, x :: 0 <= y < n && 0 <= x < xi ==> Stored(E, n, x, y, result[y, x], old(result[y, x]))
    {
      HorizontalSeamCostColumn(A, B, xA, yA, xB, yB, width, height, result, xi, E);
    }
  }

  /** One step of the transposed fill: column xi from the costs of column xi - 1, every other column untouched. */
  method HorizontalSeamCostColumn(A: array2<Rgb>, B: array2<Rgb>, xA: int, yA: int, xB: int, yB: int,
                                  width: int, height: int, result: array2<MinCostCutData>, xi: int,
                                  ghost E: seq<seq<real>>)
    requires 1 <= xi < width && 1 <= height
    requires Within(A, xA, yA, width, height - 1) && Within(B, xB, yB, width, height)
    requires result.Length0 == height - 1 && result.Length1 == width
    requires E == HorizontalErrors(A, B, xA, yA, xB, yB, width, height)
    requires forall y, x :: x == xi - 1 && 0 <= y < height - 1 ==> result[y, x].cost == Cell(E, height - 1, x, y).cost
    modifies result
    ensures forall y :: 0 <= y < height - 1 ==> result[y, xi] == Cell(E, height - 1, xi, y)
    ensures forall y, x :: 0 <= y < height - 1 && 0 <= x < width && x != xi ==> result[y, x] == old(result[y, x])
  {
    var n := height - 1;
    for yi := 0 to n
      invariant forall y :: 0 <= y < yi ==> result[y, xi] == Cell(E, n, xi, y)
      invariant forall y, x :: 0 <= y < n && 0 <= x < width && x != xi ==> result[y, x] == old(result[y, x])
    {
      var d := HorizontalSeamCostCell(A, B, xA, yA, xB, yB, width, height, result, xi, yi, E);
      result[yi, xi] := d;
    }
  }

  /** One cell of a horizontal cost column, from the three cells to its left. */
  method HorizontalSeamCostCell(A: array2<Rgb>, B: array2<Rgb>, xA: int, yA: int, xB: int, yB: int,
                                width: int, height: int, result: array2<MinCostCutData>, xi: int, yi: int,
                                ghost E: seq<seq<real>>) returns (d: MinCostCutData)
    requires 1 <= xi < width && 0 <= yi < height - 1
    requires Within(A, xA, yA, width, height - 1) && Within(B, xB, yB, width, height)
    requires result.Length0 == height - 1 && result.Length1 == width
    requires E == HorizontalErrors(A, B, xA, yA, xB, yB, width, height)
    requires forall y, x :: x == xi - 1 && 0 <= y < height - 1 ==> result[y, x].cost == Cell(E, height - 1, x, y).cost
    ensures d == Cell(E, height - 1, xi, yi)
  {
    var costAbove := if yi > 0 then Fin(result[yi - 1, xi - 1].cost) else Inf;
    var costMiddle := result[yi, xi - 1].cost;
    var costBelow := if yi < height - 2 then Fin(result[yi + 1, xi - 1].cost) else Inf;
    var ec := SeamError(A[yA + yi, xA + xi], B[yB + yi + 1, xB + xi]);
    var o := PickOffset(costAbove, costMiddle, costBelow);
    CellStep(E, height - 1, xi, yi, costAbove, costMiddle, costBelow);
    d := MinCostCutData(Neighbour(costAbove, costMiddle, costBelow, o).v + ec, o);
  }

  /** A vertical cost grid holds the dynamic program's costs, and its offsets below row 0. */
  ghost predicate VerticalFilled(E: seq<seq<real>>, n: int, h: int, a: array2<MinCostCutData>)
    requires IsCostGrid(E, n) && |E| == h
    reads a
  {
    a.Length0 == h && a.Length1 == n &&
    forall y, x {:trigger a[y, x]} :: 0 <= y < h && 0 <= x < n ==>
      a[y, x].cost == Cell(E, n, y, x).cost && (0 < y ==> a[y, x].lastOffset == Cell(E, n, y, x).lastOffset)
  }

  /** The transposed grid: cell (y, x) holds step x, position y. */
  ghost predicate HorizontalFilled(E: seq<seq<real>>, n: int, w: int, a: array2<MinCostCutData>)
    requires IsCostGrid(E, n) && |E| == w
    reads a
  {
    a.Length0 == n && a.Length1 == w &&
    forall y, x {:trigger a[y, x]} :: 0 <= y < n && 0 <= x < w ==>
      a[y, x].cost == Cell(E, n, x, y).cost && (0 < x ==> a[y, x].lastOffset == Cell(E, n, x, y).lastOffset)
  }

  /**
   * findVerticalMinCostSeam: fills a fresh cost grid, takes the first
   * cheapest cell of the last row and follows the stored offsets back up.
   * Where the source would read the grid at column -1 the result is None.
   */
  method FindVerticalMinCostSeam(A: array2<Rgb>, B: array2<Rgb>, xA: int, yA: int, xB: int, yB: int,
                                 width: int, height: int) returns (seam: Option<seq<int>>)
    requires 1 <= width && 1 <= height
    requires Within(A, xA, yA, width - 1, height) && Within(B, xB, yB, width, height)
    ensures seam == VerticalSeamOf(A, B, xA, yA, xB, yB, width, height)
    ensures seam.None? <==> width == 1 && 2 <= height
  {
    ghost var E := VerticalErrors(A, B, xA, yA, xB, yB, width, height);
    var seamCosts := new MinCostCutData[height, width - 1]((_, _) => MinCostCutData(0.0, 0));
    ComputeVerticalSeamCost(A, B, xA, yA, xB, yB, width, height, seamCosts, E);
    seam := VerticalSeamFromCosts(seamCosts, width - 1, height, E);
    assert E == VerticalErrors(A, B, xA, yA, xB, yB, width, height);
  }

  /** The scan of the last row and the backtrack of findVerticalMinCostSeam, over a filled grid. */
  method VerticalSeamFromCosts(seamCosts: array2<MinCostCutData>, n: int, height: int, ghost E: seq<seq<real>>)
    returns (seam: Option<seq<int>>)
    requires 0 <= n && 1 <= height && |E| == height && IsCostGrid(E, n)
    requires VerticalFilled(E, n, height, seamCosts)
    ensures seam == SeamOfGrid(E, n, height)
  {
    var bestCostXi, nextXi := ScanLastRow(seamCosts, n, height, E);
    var s := seq(height, _ => 0)[height - 1 := bestCostXi];
    var yi := height - 2;
    while yi >= 0
      invariant -1 <= yi <= height - 2 && |s| == height && s[height - 1] == bestCostXi
      invariant 0 < n ==> forall k :: yi < k < height ==> 0 <= s[k] < n
      invariant 0 < n ==> forall k :: yi < k < height - 1 ==> s[k] == s[k + 1] + Cell(E, n, k + 1, s[k + 1]).lastOffset
      invariant 0 < n && 0 <= yi ==> nextXi == s[yi + 1] + Cell(E, n, yi + 1, s[yi + 1]).lastOffset
      invariant n == 0 ==> nextXi == -1 && yi == height - 2
      decreases yi
    {
      s := s[yi := nextXi];
      if !(0 <= nextXi < n) {
        return None;
      }
      nextXi := nextXi + seamCosts[yi, nextXi].lastOffset;
      yi := yi - 1;
    }
    if n == 0 {
      return Some([-1]);
    }
    FollowsOffsetsIsBacktrack(E, n, s);
    return Some(s);
  }
  /** The scan of the last row: the first cheapest column, and the column its stored offset leads to; -1 for both when there is no column. */
  method ScanLastRow(seamCosts: array2<MinCostCutData>, n: int, height: int, ghost E: seq<seq<real>>)
    returns (bestCostXi: int, nextXi: int)
    requires 0 <= n && 1 <= height && |E| == height && IsCostGrid(E, n)
    requires VerticalFilled(E, n, height, seamCosts)
    ensures n == 0 ==> bestCostXi == -1 && nextXi == -1
    ensures 0 < n ==> (bestCostXi == FirstMinCol(E, n, height - 1, n) &&
                       nextXi == bestCostXi + seamCosts[height - 1, bestCostXi].lastOffset)
  {
    var bestCost := Inf;
    bestCostXi, nextXi := -1, -1;
    for xi := 0 to n
      invariant xi == 0 ==> bestCost == Inf && bestCostXi == -1 && nextXi == -1
      invariant 0 < xi ==>
        bestCostXi == FirstMinCol(E, n, height - 1, xi) &&
        bestCost == Fin(Cell(E, n, height - 1, bestCostXi).cost) &&
        nextXi == bestCostXi + seamCosts[height - 1, bestCostXi].lastOffset
    {
      if ExtLt(Fin(seamCosts[height - 1, xi].cost), bestCost) {
        bestCost := Fin(seamCosts[height - 1, xi].cost);
        bestCostXi := xi;
        nextXi := xi + seamCosts[height - 1, xi].lastOffset;
      }
    }
  }


  /**
   * findHorizontalMinCostSeam: the transpose; the seam holds one row per
   * column of the overlap.
   */
  method FindHorizontalMinCostSeam(A: array2<Rgb>, B: array2<Rgb>, xA: int, yA: int, xB: int, yB: int,
                                   width: int, height: int) returns (seam: Option<seq<int>>)
    requires 1 <= width && 1 <= height
    requires Within(A, xA, yA, width, height - 1) && Within(B, xB, yB, width, height)
    ensures seam == HorizontalSeamOf(A, B, xA, yA, xB, yB, width, height)
    ensures seam.None? <==> height == 1 && 2 <= width
  {
    ghost var E := HorizontalErrors(A, B, xA, yA, xB, yB, width, height);
    var seamCosts := new MinCostCutData[height - 1, width]((_, _) => MinCostCutData(0.0, 0));
    ComputeHorizontalSeamCost(A, B, xA, yA, xB, yB, width, height, seamCosts, E);
    seam := HorizontalSeamFromCosts(seamCosts, height - 1, width, E);
    assert E == HorizontalErrors(A, B, xA, yA, xB, yB, width, height);
  }

  /** The scan of the last column and the backtrack of findHorizontalMinCostSeam, over a filled grid. */
  method HorizontalSeamFromCosts(seamCosts: array2<MinCostCutData>, n: int, width: int, ghost E: seq<seq<real>>)
    returns (seam: Option<seq<int>>)
    requires 0 <= n && 1 <= width && |E| == width && IsCostGrid(E, n)
    requires HorizontalFilled(E, n, width, seamCosts)
    ensures seam == SeamOfGrid(E, n, width)
  {
    var bestCostYi, nextYi := ScanLastColumn(seamCosts, n, width, E);
    var s := seq(width, _ => 0)[width - 1 := bestCostYi];
    var xi := width - 2;
    while xi >= 0
      invariant -1 <= xi <= width - 2 && |s| == width && s[width - 1] == bestCostYi
      invariant 0 < n ==> forall k :: xi < k < width ==> 0 <= s[k] < n
      invariant 0 < n ==> forall k :: xi < k < width - 1 ==> s[k] == s[k + 1] + Cell(E, n, k + 1, s[k + 1]).lastOffset
      invariant 0 < n && 0 <= xi ==> nextYi == s[xi + 1] + Cell(E, n, xi + 1, s[xi + 1]).lastOffset
      invariant n == 0 ==> nextYi == -1 && xi == width - 2
      decreases xi
    {
      s := s[xi := nextYi];
      if !(0 <= nextYi < n) {
        return None;
      }
      nextYi := nextYi + seamCosts[nextYi, xi].lastOffset;
      xi := xi - 1;
    }
    if n == 0 {
      return Some([-1]);
    }
    FollowsOffsetsIsBacktrack(E, n, s);
    return Some(s);
  }
  /** The scan of the last column: the first cheapest row, and the row its stored offset leads to; -1 for both when there is no row. */
  method ScanLastColumn(seamCosts: array2<MinCostCutData>, n: int, width: int, ghost E: seq<seq<real>>)
    returns (bestCostYi: int, nextYi: int)
    requires 0 <= n && 1 <= width && |E| == width && IsCostGrid(E, n)
    requires HorizontalFilled(E, n, width, seamCosts)
    ensures n == 0 ==> bestCostYi == -1 && nextYi == -1
    ensures 0 < n ==> (bestCostYi == FirstMinCol(E, n, width - 1, n) &&
                       nextYi == bestCostYi + seamCosts[bestCostYi, width - 1].lastOffset)
  {
    var bestCost := Inf;
    bestCostYi, nextYi := -1, -1;
    for yi := 0 to n
      invariant yi == 0 ==> bestCost == Inf && bestCostYi == -1 && nextYi == -1
      invariant 0 < yi ==>
        bestCostYi == FirstMinCol(E, n, width - 1, yi) &&
        bestCost == Fin(Cell(E, n, width - 1, bestCostYi).cost) &&
        nextYi == bestCostYi + seamCosts[bestCostYi, width - 1].lastOffset
    {
      if ExtLt(Fin(seamCosts[yi, width - 1].cost), bestCost) {
        bestCost := Fin(seamCosts[yi, width - 1].cost);
        bestCostYi := yi;
        nextYi := yi + seamCosts[yi, width - 1].lastOffset;
      }
    }
  }


  // Properties of the seams at the level of the two images.

  /**
   * With at least two columns the vertical seam exists and is a cheapest
   * seam: one column per row, inside the strip, moving by at most one column
   * per row, and no dearer than any other such path.
   */
  lemma VerticalSeamIsCheapest(A: array2<Rgb>, B: array2<Rgb>, xA: int, yA: int, xB: int, yB: int,
                               width: int, height: int)
    requires 2 <= width && 1 <= height
    requires Within(A, xA, yA, width - 1, height) && Within(B, xB, yB, width, height)
    ensures var seam := VerticalSeamOf(A, B, xA, yA, xB, yB, width, height);
      seam.Some? && IsCheapestSeam(VerticalErrors(A, B, xA, yA, xB, yB, width, height), width - 1, seam.value)
  {
    var E := VerticalErrors(A, B, xA, yA, xB, yB, width, height);
    assert VerticalSeamOf(A, B, xA, yA, xB, yB, width, height) == SeamOfGrid(E, width - 1, height);
    SeamOfGridIsOptimal(E, width - 1, height);
  }

  /** The transpose: with at least two rows the horizontal seam has one row per column and is a cheapest such path. */
  lemma HorizontalSeamIsCheapest(A: array2<Rgb>, B: array2<Rgb>, xA: int, yA: int, xB: int, yB: int,
                                 width: int, height: int)
    requires 1 <= width && 2 <= height
    requires Within(A, xA, yA, width, height - 1) && Within(B, xB, yB, width, height)
    ensures var seam := HorizontalSeamOf(A, B, xA, yA, xB, yB, width, height);
      seam.Some? && IsCheapestSeam(HorizontalErrors(A, B, xA, yA, xB, yB, width, height), height - 1, seam.value)
  {
    var E := HorizontalErrors(A, B, xA, yA, xB, yB, width, height);
    assert HorizontalSeamOf(A, B, xA, yA, xB, yB, width, height) == SeamOfGrid(E, height - 1, width);
    SeamOfGridIsOptimal(E, height - 1, width);
  }
}
