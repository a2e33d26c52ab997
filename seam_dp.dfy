/**
 * The dynamic program behind the minimum-cost seam, stated over an abstract
 * error grid.  A grid E has one row per step along the seam (a canvas row for
 * a vertical seam, a column for a horizontal one) and n cut positions per
 * step; E[i][c] is the pointwise error of cutting at position c in step i.
 */
module SeamDp {
  import opened Wrappers

  /** One cell of the cost grid: the accumulated cost and the offset (-1, 0 or +1) of the cheapest predecessor. */
  datatype MinCostCutData = MinCostCutData(cost: real, lastOffset: int)

  /** A predecessor cost; `Inf` stands for the largest-float sentinel given to positions outside the grid. */
  datatype Ext = Fin(v: real) | Inf

  predicate ExtLe(a: Ext, b: Ext) {
    match (a, b)
    case (_, Inf) => true
    case (Inf, Fin(_)) => false
    case (Fin(x), Fin(y)) => x <= y
  }

  predicate ExtLt(a: Ext, b: Ext) {
    !ExtLe(b, a)
  }

  /** The predecessor cost at offset o: left (-1), middle (0) or right (+1). */
  function Neighbour(left: Ext, middle: real, right: Ext, o: int): Ext {
    if o == -1 then left else if o == 0 then Fin(middle) else right
  }

  /**
   * The choice among the three predecessors: left if it is no more than both
   * others, else middle if it is no more than both others, else right.  The
   * chosen one is the first, in the order left, middle, right, of the
   * cheapest, and it is never an out-of-grid neighbour.
   */
  function PickOffset(left: Ext, middle: real, right: Ext): (o: int)
    ensures -1 <= o <= 1
    ensures Neighbour(left, middle, right, o).Fin?
    ensures forall o' :: -1 <= o' <= 1 ==> ExtLe(Neighbour(left, middle, right, o), Neighbour(left, middle, right, o'))
    ensures forall o' :: -1 <= o' < o ==> ExtLt(Neighbour(left, middle, right, o), Neighbour(left, middle, right, o'))
  {
    if ExtLe(left, Fin(middle)) && ExtLe(left, right) then -1
    else if ExtLe(Fin(middle), left) && ExtLe(Fin(middle), right) then 0
    else 1
  }

  ghost predicate IsCostGrid(E: seq<seq<real>>, n: int) {
    forall i :: 0 <= i < |E| ==> |E[i]| == n
  }

  /** The accumulated cost of position c + o in step i - 1, or Inf outside the grid. */
  ghost function PredecessorCost(E: seq<seq<real>>, n: int, i: int, c: int, o: int): Ext
    requires IsCostGrid(E, n) && 1 <= i < |E|
    decreases i, 0
  {
    if 0 <= c + o < n then Fin(Cell(E, n, i - 1, c + o).cost) else Inf
  }

  /**
   * The cell the dynamic program stores at step i, position c: the pointwise
   * error in step 0; later, the cost of the chosen predecessor plus the
   * pointwise error, and the offset of that predecessor.
   */
  ghost function Cell(E: seq<seq<real>>, n: int, i: int, c: int): (d: MinCostCutData)
    requires IsCostGrid(E, n) && 0 <= i < |E| && 0 <= c < n
    ensures i > 0 ==> -1 <= d.lastOffset <= 1 && 0 <= c + d.lastOffset < n
    decreases i, 1
  {
    if i == 0 then MinCostCutData(E[0][c], 0)
    else
      var left, right := PredecessorCost(E, n, i, c, -1), PredecessorCost(E, n, i, c, 1);
      var middle := Cell(E, n, i - 1, c).cost;
      var o := PickOffset(left, middle, right);
      MinCostCutData(Neighbour(left, middle, right, o).v + E[i][c], o)
  }

  /** The recurrence of a later step, given the three predecessor costs as a filling loop reads them. */
  lemma CellStep(E: seq<seq<real>>, n: int, i: int, c: int, left: Ext, middle: real, right: Ext)
    requires IsCostGrid(E, n) && 1 <= i < |E| && 0 <= c < n
    requires left == PredecessorCost(E, n, i, c, -1) && right == PredecessorCost(E, n, i, c, 1)
    requires middle == Cell(E, n, i - 1, c).cost
    ensures var o := PickOffset(left, middle, right);
      Cell(E, n, i, c) == MinCostCutData(Neighbour(left, middle, right, o).v + E[i][c], o)
  {
  }

  /** A seam path: one position per step, each in [0, n), consecutive positions at most one apart. */
  ghost predicate IsSeamPath(p: seq<int>, n: int) {
    (forall k :: 0 <= k < |p| ==> 0 <= p[k] < n) &&
    (forall k :: 0 <= k < |p| - 1 ==> -1 <= p[k + 1] - p[k] <= 1)
  }

  /** The summed pointwise error along a path that starts in step 0. */
  ghost function PathCost(E: seq<seq<real>>, p: seq<int>): real
    requires |p| <= |E| && forall k :: 0 <= k < |p| ==> 0 <= p[k] < |E[k]|
    decreases |p|
  {
    if p == [] then 0.0 else PathCost(E, p[..|p| - 1]) + E[|p| - 1][p[|p| - 1]]
  }

  /** A cheapest seam: a seam path through every step that costs no more than any other. */
  ghost predicate IsCheapestSeam(E: seq<seq<real>>, n: int, s: seq<int>)
    requires IsCostGrid(E, n)
  {
    |s| == |E| && IsSeamPath(s, n) &&
    forall p :: |p| == |E| && IsSeamPath(p, n) ==> PathCost(E, s) <= PathCost(E, p)
  }

  /** The path recovered by following stored offsets back from position c in step i. */
  ghost function Backtrack(E: seq<seq<real>>, n: int, i: int, c: int): (p: seq<int>)
    requires IsCostGrid(E, n) && 0 <= i < |E| && 0 <= c < n
    ensures |p| == i + 1 && p[i] == c && IsSeamPath(p, n)
    decreases i
  {
    if i == 0 then [c] else Backtrack(E, n, i - 1, c + Cell(E, n, i, c).lastOffset) + [c]
  }

  /** The first position, in ascending order, of the cheapest among the first k cells of step i. */
  ghost function FirstMinCol(E: seq<seq<real>>, n: int, i: int, k: int): (b: int)
    requires IsCostGrid(E, n) && 0 <= i < |E| && 1 <= k <= n
    ensures 0 <= b < k
    ensures forall j :: 0 <= j < k ==> Cell(E, n, i, b).cost <= Cell(E, n, i, j).cost
    ensures forall j :: 0 <= j < b ==> Cell(E, n, i, b).cost < Cell(E, n, i, j).cost
    decreases k
  {
    if k == 1 then 0
    else
      var b := FirstMinCol(E, n, i, k - 1);
      if Cell(E, n, i, k - 1).cost < Cell(E, n, i, b).cost then k - 1 else b
  }

  /**
   * The seam of an h-step grid: backtracked from the first cheapest cell of
   * the last step.  With no cut position at all the end marker is -1; one
   * step then gives the seam [-1], while more steps would have to read the
   * grid at position -1, which is undefined, and give None.
   */
  ghost function SeamOfGrid(E: seq<seq<real>>, n: int, h: int): Option<seq<int>>
    requires 0 <= n && 1 <= h && |E| == h && IsCostGrid(E, n)
  {
    if n == 0 then (if h == 1 then Some([-1]) else None)
    else Some(Backtrack(E, n, h - 1, FirstMinCol(E, n, h - 1, n)))
  }

  // Properties of the dynamic program.

  /** Tie-break: the stored predecessor is in the grid, is the cheapest, and is the first cheapest in the order left, middle, right. */
  lemma TieBreak(E: seq<seq<real>>, n: int, i: int, c: int)
    requires IsCostGrid(E, n) && 1 <= i < |E| && 0 <= c < n
    ensures var o := Cell(E, n, i, c).lastOffset;
      -1 <= o <= 1 && 0 <= c + o < n &&
      Cell(E, n, i, c).cost == Cell(E, n, i - 1, c + o).cost + E[i][c] &&
      (forall o' :: -1 <= o' <= 1 ==> ExtLe(PredecessorCost(E, n, i, c, o), PredecessorCost(E, n, i, c, o'))) &&
      (forall o' :: -1 <= o' < o ==> ExtLt(PredecessorCost(E, n, i, c, o), PredecessorCost(E, n, i, c, o')))
  {
    var left, right := PredecessorCost(E, n, i, c, -1), PredecessorCost(E, n, i, c, 1);
    var middle := Cell(E, n, i - 1, c).cost;
    forall o' | -1 <= o' <= 1
      ensures Neighbour(left, middle, right, o') == PredecessorCost(E, n, i, c, o')
    {
    }
  }

  /** Consecutive entries of a backtracked path are linked by the stored offsets. */
  lemma {:induction false} BacktrackStep(E: seq<seq<real>>, n: int, i: int, c: int, k: int)
    requires IsCostGrid(E, n) && 0 <= i < |E| && 0 <= c < n && 0 <= k < i
    ensures var p := Backtrack(E, n, i, c);
      p[k] == p[k + 1] + Cell(E, n, k + 1, p[k + 1]).lastOffset
    decreases i
  {
    var c' := c + Cell(E, n, i, c).lastOffset;
    if k < i - 1 {
      BacktrackStep(E, n, i - 1, c', k);
    }
  }

  /**
   * A path that follows the stored offsets: every position is in [0, n) and
   * each one is its successor plus the offset stored at the successor.
   */
  ghost predicate FollowsOffsets(E: seq<seq<real>>, n: int, p: seq<int>)
    requires IsCostGrid(E, n) && |p| <= |E|
  {
    (forall k :: 0 <= k < |p| ==> 0 <= p[k] < n) &&
    forall k :: 0 <= k < |p| - 1 ==> p[k] == p[k + 1] + Cell(E, n, k + 1, p[k + 1]).lastOffset
  }

  /** The backtracked path follows the stored offsets. */
  lemma BacktrackFollowsOffsets(E: seq<seq<real>>, n: int, i: int, c: int)
    requires IsCostGrid(E, n) && 0 <= i < |E| && 0 <= c < n
    ensures FollowsOffsets(E, n, Backtrack(E, n, i, c))
  {
    forall k | 0 <= k < i
      ensures Backtrack(E, n, i, c)[k] == Backtrack(E, n, i, c)[k + 1] + Cell(E, n, k + 1, Backtrack(E, n, i, c)[k + 1]).lastOffset
    {
      BacktrackStep(E, n, i, c, k);
    }
  }

  /** Conversely, a path that follows the stored offsets is the backtrack from its last position. */
  lemma {:induction false} FollowsOffsetsIsBacktrack(E: seq<seq<real>>, n: int, p: seq<int>)
    requires IsCostGrid(E, n) && 1 <= |p| <= |E| && FollowsOffsets(E, n, p)
    ensures p == Backtrack(E, n, |p| - 1, p[|p| - 1])
    decreases |p|
  {
    var i := |p| - 1;
    if i > 0 {
      var c := p[i];
      var q := p[..i];
      assert FollowsOffsets(E, n, q) by {
        assert forall k :: 0 <= k < |q| ==> q[k] == p[k];
      }
      var c' := c + Cell(E, n, i, c).lastOffset;
      assert q[i - 1] == c' by {
        assert q[i - 1] == p[i - 1];
      }
      FollowsOffsetsIsBacktrack(E, n, q);
      assert q == Backtrack(E, n, i - 1, c');
      assert Backtrack(E, n, i, c) == q + [c];
      assert p == q + [c];
    }
  }

  /** The backtracked path costs exactly what the cell it starts from stores. */
  lemma {:induction false} BacktrackCost(E: seq<seq<real>>, n: int, i: int, c: int)
    requires IsCostGrid(E, n) && 0 <= i < |E| && 0 <= c < n
    ensures PathCost(E, Backtrack(E, n, i, c)) == Cell(E, n, i, c).cost
    decreases i
  {
    if i > 0 {
      var c' := c + Cell(E, n, i, c).lastOffset;
      assert 0 <= c' < n;
      BacktrackCost(E, n, i - 1, c');
      BacktrackCostStep(E, n, i, c);
    } else {
      BacktrackCostBase(E, n, c);
    }
  }

  /** The base of BacktrackCost: a one-step path costs its pointwise error. */
  lemma BacktrackCostBase(E: seq<seq<real>>, n: int, c: int)
    requires IsCostGrid(E, n) && 0 < |E| && 0 <= c < n
    ensures PathCost(E, Backtrack(E, n, 0, c)) == Cell(E, n, 0, c).cost
  {
    assert Backtrack(E, n, 0, c) == [c];
    assert PathCost(E, [c]) == E[0][c];
  }

  /** The step of BacktrackCost: if the path from the chosen predecessor costs what that cell stores, so does the path from the cell. */
  lemma BacktrackCostStep(E: seq<seq<real>>, n: int, i: int, c: int)
    requires IsCostGrid(E, n) && 1 <= i < |E| && 0 <= c < n
    requires var c' := c + Cell(E, n, i, c).lastOffset;
      PathCost(E, Backtrack(E, n, i - 1, c')) == Cell(E, n, i - 1, c').cost
    ensures PathCost(E, Backtrack(E, n, i, c)) == Cell(E, n, i, c).cost
  {
    var p := Backtrack(E, n, i, c);
    var q := Backtrack(E, n, i - 1, c + Cell(E, n, i, c).lastOffset);
    BacktrackPrefix(E, n, i, c);
    PathCostLast(E, n, p, q, i, c);
    CellCostFromPredecessor(E, n, i, c);
  }

  /** A later cell costs its chosen predecessor's cost plus its own pointwise error. */
  lemma CellCostFromPredecessor(E: seq<seq<real>>, n: int, i: int, c: int)
    requires IsCostGrid(E, n) && 1 <= i < |E| && 0 <= c < n
    ensures Cell(E, n, i, c).cost == Cell(E, n, i - 1, c + Cell(E, n, i, c).lastOffset).cost + E[i][c]
  {
    TieBreak(E, n, i, c);
  }

  /** Dropping the last step of a backtracked path gives the backtrack from the chosen predecessor. */
  lemma BacktrackPrefix(E: seq<seq<real>>, n: int, i: int, c: int)
    requires IsCostGrid(E, n) && 1 <= i < |E| && 0 <= c < n
    ensures Backtrack(E, n, i, c)[..i] == Backtrack(E, n, i - 1, c + Cell(E, n, i, c).lastOffset)
  {
  }

  /** The cost of a path is the cost of all but its last step plus the last step's pointwise error. */
  lemma PathCostLast(E: seq<seq<real>>, n: int, p: seq<int>, q: seq<int>, i: int, c: int)
    requires IsCostGrid(E, n) && IsSeamPath(p, n) && 0 <= i && |p| == i + 1 <= |E|
    requires p[..i] == q && p[i] == c
    ensures PathCost(E, p) == PathCost(E, q) + E[i][c]
  {
    assert p != [];
  }

  /** No seam path ending at a cell costs less than the cell stores. */
  lemma {:induction false} CellIsLowerBound(E: seq<seq<real>>, n: int, p: seq<int>)
    requires IsCostGrid(E, n) && 1 <= |p| <= |E| && IsSeamPath(p, n)
    ensures Cell(E, n, |p| - 1, p[|p| - 1]).cost <= PathCost(E, p)
    decreases |p|
  {
    var i := |p| - 1;
    if i > 0 {
      var q := p[..i];
      assert IsSeamPath(q, n);
      CellIsLowerBound(E, n, q);
      TieBreak(E, n, i, p[i]);
      assert -1 <= p[i - 1] - p[i] <= 1;
    }
  }

  /**
   * For at least one cut position, the seam exists, has one position per
   * step, moves by at most one per step, ends at the first cheapest cell of
   * the last step, costs what that cell stores, and costs no more than any
   * other seam path through the grid.
   */
  lemma SeamOfGridIsOptimal(E: seq<seq<real>>, n: int, h: int)
    requires 1 <= n && 1 <= h && |E| == h && IsCostGrid(E, n)
    ensures SeamOfGrid(E, n, h).Some?
    ensures var s := SeamOfGrid(E, n, h).value;
      |s| == h && IsSeamPath(s, n) &&
      s[h - 1] == FirstMinCol(E, n, h - 1, n) &&
      PathCost(E, s) == Cell(E, n, h - 1, s[h - 1]).cost &&
      forall p :: |p| == h && IsSeamPath(p, n) ==> PathCost(E, s) <= PathCost(E, p)
  {
    var b := FirstMinCol(E, n, h - 1, n);
    var s := Backtrack(E, n, h - 1, b);
    assert SeamOfGrid(E, n, h) == Some(s);
    assert PathCost(E, s) == Cell(E, n, h - 1, b).cost by {
      BacktrackCost(E, n, h - 1, b);
    }
    NoPathCheaper(E, n, h, s, b);
  }

  /** A path that costs what the first cheapest cell of the last step stores is a cheapest seam path. */
  lemma NoPathCheaper(E: seq<seq<real>>, n: int, h: int, s: seq<int>, b: int)
    requires 1 <= n && 1 <= h && |E| == h && IsCostGrid(E, n)
    requires b == FirstMinCol(E, n, h - 1, n)
    requires |s| == h && IsSeamPath(s, n) && PathCost(E, s) == Cell(E, n, h - 1, b).cost
    ensures forall p :: |p| == h && IsSeamPath(p, n) ==> PathCost(E, s) <= PathCost(E, p)
  {
    forall p | |p| == h && IsSeamPath(p, n)
      ensures PathCost(E, s) <= PathCost(E, p)
    {
      CellIsLowerBound(E, n, p);
      assert Cell(E, n, h - 1, b).cost <= Cell(E, n, h - 1, p[h - 1]).cost;
    }
  }
}
