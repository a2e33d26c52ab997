/**
 * The tile grid of the quilter: how many tiles cover the requested size,
 * how large the canvas they make is, and where each tile is placed.
 * Neighbouring tiles overlap by the seam width (height), so tile i starts at
 * i * (tile - seam) and a row of count tiles is count * tile - (count - 1) * seam
 * pixels long.
 */
module TileGrid {

  /** Ceiling of a / b for a positive divisor, on integers. */
  function CeilDiv(a: int, b: int): (q: int)
    requires 0 < b
    ensures (q - 1) * b < a <= q * b
  {
    var q := (a + b - 1) / b;
    assert q * b <= a + b - 1 < q * b + b;
    q
  }

  /** The number of tiles along one axis: the ceiling of (target - seam) / (tile - seam). */
  function TileCount(target: int, tile: int, seam: int): int
    requires seam < tile
  {
    CeilDiv(target - seam, tile - seam)
  }

  /** The canvas length covered by count tiles that overlap by seam. */
  function CanvasExtent(count: int, tile: int, seam: int): int {
    count * tile - (count - 1) * seam
  }

  /** The origin of tile i along one axis. */
  function TileOrigin(i: int, tile: int, seam: int): int {
    i * (tile - seam)
  }

  /**
   * The canvas is at least as long as the target, so the final crop is
   * possible, and one tile fewer would fall short of it.
   */
  lemma CanvasCoversTarget(target: int, tile: int, seam: int)
    requires seam < tile
    ensures var count := TileCount(target, tile, seam);
      target <= CanvasExtent(count, tile, seam) && CanvasExtent(count - 1, tile, seam) < target
  {
    var count := TileCount(target, tile, seam);
    assert CanvasExtent(count, tile, seam) == count * (tile - seam) + seam;
    assert CanvasExtent(count - 1, tile, seam) == (count - 1) * (tile - seam) + seam;
  }

  /** With a non-negative target the tile count is at least 1 exactly when the target is longer than the seam. */
  lemma TileCountPositive(target: int, tile: int, seam: int)
    requires seam < tile
    ensures 1 <= TileCount(target, tile, seam) <==> seam < target
  {
    var count := TileCount(target, tile, seam);
    if seam < target {
      assert 0 < count * (tile - seam);
    } else {
      assert (count - 1) * (tile - seam) < 0;
    }
  }

  /** Consecutive tiles overlap by exactly the seam. */
  lemma NeighboursOverlapBySeam(i: int, tile: int, seam: int)
    ensures TileOrigin(i, tile, seam) + tile - TileOrigin(i + 1, tile, seam) == seam
  {
    assert TileOrigin(i + 1, tile, seam) == TileOrigin(i, tile, seam) + (tile - seam);
  }

  /** Every tile of the row lies inside the canvas, and the last one ends exactly at its edge. */
  lemma TilesInsideCanvas(count: int, tile: int, seam: int, i: int)
    requires seam < tile && 0 <= i < count
    ensures 0 <= TileOrigin(i, tile, seam)
    ensures TileOrigin(i, tile, seam) + tile <= CanvasExtent(count, tile, seam)
    ensures i == count - 1 ==> TileOrigin(i, tile, seam) + tile == CanvasExtent(count, tile, seam)
  {
    var step := tile - seam;
    var gap := count - 1 - i;
    assert CanvasExtent(count, tile, seam) == (count - 1) * step + tile by {
      assert count * tile - (count - 1) * seam == (count - 1) * tile + tile - (count - 1) * seam;
      Distribute(count - 1, tile, seam);
    }
    assert (count - 1) * step == i * step + gap * step by {
      DistributeSum(i, gap, step);
    }
    MulNonNegative(gap, step);
    MulNonNegative(i, step);
  }

  lemma Distribute(a: int, b: int, c: int)
    ensures a * b - a * c == a * (b - c)
  {
  }

  lemma DistributeSum(a: int, b: int, c: int)
    ensures (a + b) * c == a * c + b * c
  {
  }

  lemma MulNonNegative(a: int, b: int)
    requires 0 <= a && 0 <= b
    ensures 0 <= a * b
  {
  }

  lemma MulStrictlyMonotone(a: int, b: int, c: int)
    requires a < b && 0 < c
    ensures a * c < b * c
  {
    DistributeSum(a, b - a, c);
    assert 0 < (b - a) * c;
  }

  /** The tiles leave no gap: every canvas position lies in some tile. */
  lemma TilesCoverCanvas(count: int, tile: int, seam: int, p: int)
    requires 0 <= seam < tile && 1 <= count && 0 <= p < CanvasExtent(count, tile, seam)
    ensures exists i :: 0 <= i < count && TileOrigin(i, tile, seam) <= p < TileOrigin(i, tile, seam) + tile
  {
    var step := tile - seam;
    var i := if p / step < count then p / step else count - 1;
    if p / step < count {
      assert i * step <= p < i * step + step;
    } else {
      assert (count - 1) * step <= (p / step) * step <= p;
      assert p < CanvasExtent(count, tile, seam) == (count - 1) * step + tile;
    }
    assert TileOrigin(i, tile, seam) <= p < TileOrigin(i, tile, seam) + tile;
  }

  /** The origins of one row of tiles, left to right. */
  function RowOrigins(countX: nat, row: int, tileW: int, tileH: int, seamW: int, seamH: int): seq<(int, int)> {
    seq(countX, i => (TileOrigin(i, tileW, seamW), TileOrigin(row, tileH, seamH)))
  }

  /**
   * The tile origins in the order the quilter visits them: row by row, and
   * left to right within a row.  Visit number k is the tile in column
   * k % countX of row k / countX.
   */
  function GridOrigins(countX: nat, countY: nat, tileW: int, tileH: int, seamW: int, seamH: int): (g: seq<(int, int)>)
    ensures |g| == countX * countY
    ensures forall k :: 0 <= k < |g| ==>
      g[k] == (TileOrigin(k % countX, tileW, seamW), TileOrigin(k / countX, tileH, seamH))
  {
    if countY == 0 then []
    else
      var prefix := GridOrigins(countX, countY - 1, tileW, tileH, seamW, seamH);
      var row := RowOrigins(countX, countY - 1, tileW, tileH, seamW, seamH);
      var g := prefix + row;
      assert |g| == countX * (countY - 1) + countX == countX * countY;
      forall k | |prefix| <= k < |g|
        ensures g[k] == (TileOrigin(k % countX, tileW, seamW), TileOrigin(k / countX, tileH, seamH))
      {
        DivModInRow(k, countX, countY - 1, k - |prefix|);
      }
      g
  }

  /** Position k = r * n + i of a row-major walk with rows of n lies in row r, column i. */
  lemma DivModInRow(k: int, n: int, r: int, i: int)
    requires 0 <= i < n && k == r * n + i
    ensures k / n == r && k % n == i
  {
    var q, m := k / n, k % n;
    assert k == q * n + m && 0 <= m < n;
    if q < r {
      MulStrictlyMonotone(q, r, n);
      assert (q + 1) * n <= r * n by { MulMonotone(q + 1, r, n); }
    } else if r < q {
      assert (r + 1) * n <= q * n by { MulMonotone(r + 1, q, n); }
    }
  }

  lemma MulMonotone(a: int, b: int, c: int)
    requires a <= b && 0 <= c
    ensures a * c <= b * c
  {
    DistributeSum(a, b - a, c);
    MulNonNegative(b - a, c);
  }

  /**
   * The walk up to and including tile k of row r is a prefix of the whole
   * walk: a quilt that stops there has visited exactly the origins before it.
   */
  lemma RowPrefixInGrid(countX: nat, countY: nat, r: nat, k: nat, tileW: int, tileH: int, seamW: int, seamH: int)
    requires r < countY && k < countX
    ensures GridOrigins(countX, r, tileW, tileH, seamW, seamH) + RowOrigins(k + 1, r, tileW, tileH, seamW, seamH)
      <= GridOrigins(countX, countY, tileW, tileH, seamW, seamH)
  {
    var p := GridOrigins(countX, r, tileW, tileH, seamW, seamH) + RowOrigins(k + 1, r, tileW, tileH, seamW, seamH);
    var g := GridOrigins(countX, countY, tileW, tileH, seamW, seamH);
    assert |p| <= |g| by {
      MulMonotone(r + 1, countY, countX);
      assert |p| == r * countX + k + 1;
    }
    forall i | 0 <= i < |p|
      ensures p[i] == g[i]
    {
      if r * countX <= i {
        DivModInRow(i, countX, r, i - r * countX);
      }
    }
  }

  /** Strict order on origins: by row first, then by column. */
  predicate RowMajorBefore(a: (int, int), b: (int, int)) {
    a.1 < b.1 || (a.1 == b.1 && a.0 < b.0)
  }

  /** A run of origins in strictly row-major order. */
  predicate IsRowMajor(s: seq<(int, int)>) {
    forall j, k :: 0 <= j < k < |s| ==> RowMajorBefore(s[j], s[k])
  }

  /**
   * With tiles that advance by a positive step the visit order is strictly
   * row-major: every origin comes before every later one, so no tile is
   * visited twice.
   */
  lemma {:induction false} GridOriginsRowMajor(countX: nat, countY: nat, tileW: int, tileH: int, seamW: int, seamH: int)
    requires seamW < tileW && seamH < tileH
    ensures IsRowMajor(GridOrigins(countX, countY, tileW, tileH, seamW, seamH))
  {
    if countY > 0 {
      var prefix := GridOrigins(countX, countY - 1, tileW, tileH, seamW, seamH);
      var row := RowOrigins(countX, countY - 1, tileW, tileH, seamW, seamH);
      GridOriginsRowMajor(countX, countY - 1, tileW, tileH, seamW, seamH);
      RowIsRowMajor(countX, countY - 1, tileW, tileH, seamW, seamH);
      PrefixBeforeRow(countX, countY, tileW, tileH, seamW, seamH);
      ConcatRowMajor(prefix, row);
      assert GridOrigins(countX, countY, tileW, tileH, seamW, seamH) == prefix + row;
    }
  }

  /** Within one row the origins advance strictly to the right. */
  lemma RowIsRowMajor(countX: nat, row: int, tileW: int, tileH: int, seamW: int, seamH: int)
    requires seamW < tileW
    ensures IsRowMajor(RowOrigins(countX, row, tileW, tileH, seamW, seamH))
  {
    forall j, k | 0 <= j < k < countX
      ensures TileOrigin(j, tileW, seamW) < TileOrigin(k, tileW, seamW)
    {
      MulStrictlyMonotone(j, k, tileW - seamW);
    }
  }

  /** Every origin of the earlier rows is above every origin of the last row. */
  lemma PrefixBeforeRow(countX: nat, countY: nat, tileW: int, tileH: int, seamW: int, seamH: int)
    requires seamH < tileH && 0 < countY
    ensures forall a, b ::
      (a in GridOrigins(countX, countY - 1, tileW, tileH, seamW, seamH) &&
       b in RowOrigins(countX, countY - 1, tileW, tileH, seamW, seamH)) ==> a.1 < b.1
  {
    GridOriginsRows(countX, countY - 1, tileW, tileH, seamW, seamH);
    forall r | 0 <= r < countY - 1
      ensures TileOrigin(r, tileH, seamH) < TileOrigin(countY - 1, tileH, seamH)
    {
      MulStrictlyMonotone(r, countY - 1, tileH - seamH);
    }
  }

  /** Two row-major runs, the first entirely above the second, concatenate into a row-major run. */
  lemma ConcatRowMajor(p: seq<(int, int)>, q: seq<(int, int)>)
    requires IsRowMajor(p) && IsRowMajor(q)
    requires forall a, b :: a in p && b in q ==> a.1 < b.1
    ensures IsRowMajor(p + q)
  {
    forall j, k | 0 <= j < k < |p + q|
      ensures RowMajorBefore((p + q)[j], (p + q)[k])
    {
      if k < |p| {
        assert (p + q)[j] == p[j] && (p + q)[k] == p[k];
      } else if j < |p| {
        assert (p + q)[j] == p[j] && (p + q)[k] == q[k - |p|];
        assert p[j] in p && q[k - |p|] in q;
      } else {
        assert (p + q)[j] == q[j - |p|] && (p + q)[k] == q[k - |p|];
      }
    }
  }

  /** Every origin of the first rows lies in one of those rows. */
  lemma {:induction false} GridOriginsRows(countX: nat, countY: nat, tileW: int, tileH: int, seamW: int, seamH: int)
    requires seamH < tileH
    ensures forall t :: t in GridOrigins(countX, countY, tileW, tileH, seamW, seamH) ==>
      exists r :: 0 <= r < countY && t.1 == TileOrigin(r, tileH, seamH)
  {
    if countY > 0 {
      GridOriginsRows(countX, countY - 1, tileW, tileH, seamW, seamH);
    }
  }
}
