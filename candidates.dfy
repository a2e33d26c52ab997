/**
 * The candidate list of the error-biased tile selection.  The quilter keys
 * candidate origins by their overlap error in a multimap; iterating it visits
 * them by ascending error, and candidates with equal error in the order they
 * were inserted.  The multimap is modelled as a sequence sorted by error in
 * which a new entry goes after every entry whose key is not larger.
 */
module Candidates {

  /** A candidate tile origin in the source texture with its overlap error. */
  datatype Candidate = Candidate(mse: real, srcX: int, srcY: int)

  /** Ascending error, as the multimap iterates. */
  ghost predicate SortedByMse(m: seq<Candidate>) {
    forall i, j :: 0 <= i < j < |m| ==> m[i].mse <= m[j].mse
  }

  /** (sx, sy) comes before (srcX, srcY) in the scan of the source: row by row, left to right. */
  predicate ScannedBefore(sx: int, sy: int, srcX: int, srcY: int) {
    sy < srcY || (sy == srcY && sx < srcX)
  }

  /** a is iterated before b: smaller error, or equal error and scanned earlier. */
  predicate IteratedBefore(a: Candidate, b: Candidate) {
    a.mse < b.mse || (a.mse == b.mse && ScannedBefore(a.srcX, a.srcY, b.srcX, b.srcY))
  }

  /** The order the multimap holds after inserting in scan order. */
  ghost predicate InIterationOrder(m: seq<Candidate>) {
    forall i, j :: 0 <= i < j < |m| ==> IteratedBefore(m[i], m[j])
  }

  /**
   * The upper bound of key in a sorted list: the number of entries whose
   * error is at most key.
   */
  function UpperBound(m: seq<Candidate>, key: real): (k: nat)
    requires SortedByMse(m)
    ensures k <= |m|
    ensures forall i :: 0 <= i < k ==> m[i].mse <= key
    ensures forall i :: k <= i < |m| ==> key < m[i].mse
    decreases |m|
  {
    if |m| == 0 || m[|m| - 1].mse <= key then |m|
    else UpperBound(m[..|m| - 1], key)
  }

  /**
   * multimap::insert: the new entry goes at the upper bound of its key, after
   * every entry with an equal key.  Taking it out again gives back the list.
   */
  function Insert(m: seq<Candidate>, c: Candidate): (r: seq<Candidate>)
    requires SortedByMse(m)
    ensures SortedByMse(r)
    ensures multiset(r) == multiset(m) + multiset{c}
    ensures forall e :: e in r <==> e in m || e == c
    ensures var k := UpperBound(m, c.mse);
      k < |r| && r[k] == c && r[..k] + r[k + 1..] == m
  {
    var k := UpperBound(m, c.mse);
    var r := m[..k] + [c] + m[k..];
    SpliceFacts(m, c, k, r);
    assert forall e :: e in r <==> e in multiset(r);
    assert forall e :: e in m <==> e in multiset(m);
    r
  }

  /** The facts about placing c at position k of m that Insert promises. */
  lemma SpliceFacts(m: seq<Candidate>, c: Candidate, k: nat, r: seq<Candidate>)
    requires SortedByMse(m) && k == UpperBound(m, c.mse) && r == m[..k] + [c] + m[k..]
    ensures SortedByMse(r)
    ensures multiset(r) == multiset(m) + multiset{c}
    ensures k < |r| && r[k] == c && r[..k] + r[k + 1..] == m
  {
    SpliceShape(m, c, k, r);
    forall i, j | 0 <= i < j < |r|
      ensures r[i].mse <= r[j].mse
    {
      var mi := if i < k then m[i] else if i == k then c else m[i - 1];
      var mj := if j < k then m[j] else if j == k then c else m[j - 1];
      assert r[i] == mi && r[j] == mj;
    }
  }

  /** Where the entries of m and c end up when c is placed at position k. */
  lemma SpliceShape<T>(m: seq<T>, c: T, k: nat, r: seq<T>)
    requires k <= |m| && r == m[..k] + [c] + m[k..]
    ensures |r| == |m| + 1 && r[k] == c
    ensures forall i :: 0 <= i < k ==> r[i] == m[i]
    ensures forall i :: k < i < |r| ==> r[i] == m[i - 1]
    ensures r[..k] + r[k + 1..] == m
    ensures multiset(r) == multiset(m) + multiset{c}
  {
    assert r[..k] == m[..k] && r[k + 1..] == m[k..];
    assert m == m[..k] + m[k..];
    assert multiset(r) == multiset(m[..k]) + multiset{c} + multiset(m[k..]);
  }

  /**
   * Inserting a candidate scanned after every entry keeps the iteration
   * order: equal errors stay in scan order.
   */
  lemma InsertKeepsIterationOrder(m: seq<Candidate>, c: Candidate)
    requires InIterationOrder(m)
    requires forall e :: e in m ==> ScannedBefore(e.srcX, e.srcY, c.srcX, c.srcY)
    ensures SortedByMse(m)
    ensures InIterationOrder(Insert(m, c))
  {
    var k := UpperBound(m, c.mse);
    var r := Insert(m, c);
    assert r == m[..k] + [c] + m[k..];
    forall i | 0 <= i < k
      ensures IteratedBefore(m[i], c)
    {
      assert m[i] in m;
    }
    SpliceKeepsIterationOrder(m, c, k, r);
  }

  /** Placing c where everything before it is iterated earlier and everything after it later keeps the order. */
  lemma SpliceKeepsIterationOrder(m: seq<Candidate>, c: Candidate, k: nat, r: seq<Candidate>)
    requires InIterationOrder(m) && k <= |m| && r == m[..k] + [c] + m[k..]
    requires forall i :: 0 <= i < k ==> IteratedBefore(m[i], c)
    requires forall i :: k <= i < |m| ==> c.mse < m[i].mse
    ensures InIterationOrder(r)
  {
    SpliceShape(m, c, k, r);
    forall i, j | 0 <= i < j < |r|
      ensures IteratedBefore(r[i], r[j])
    {
      if j < k {
        assert r[i] == m[i] && r[j] == m[j];
      } else if j == k {
        assert r[i] == m[i];
      } else if i < k {
        assert IteratedBefore(m[i], m[j - 1]);
      } else if i == k {
        assert r[j] == m[j - 1];
      } else {
        assert r[i] == m[i - 1] && r[j] == m[j - 1];
      }
    }
  }

  /** The iteration order is in particular an ascending order of errors. */
  lemma IterationOrderIsSorted(m: seq<Candidate>)
    requires InIterationOrder(m)
    ensures SortedByMse(m)
  {
  }

  /** The tolerance band: every error up to the smallest one times 1 + tolerance. */
  function MaxAllowedMse(minMse: real, tolerance: real): real {
    minMse * (1.0 + tolerance)
  }

  /**
   * The accepting loop of selectSourceTile: walks the sorted list and keeps
   * origins while their error is inside the band of the first (smallest)
   * error, stopping at the first one outside.  Because the list is sorted,
   * the result is exactly the candidates inside the band, as a prefix of the
   * list; with a non-negative tolerance and error it holds the best one.
   */
  method AcceptWithinTolerance(m: seq<Candidate>, tolerance: real) returns (allowed: seq<(int, int)>)
    requires 0 < |m| && SortedByMse(m)
    ensures |allowed| <= |m|
    ensures forall i :: 0 <= i < |allowed| ==> allowed[i] == (m[i].srcX, m[i].srcY)
    ensures forall i :: 0 <= i < |m| ==> (i < |allowed| <==> m[i].mse <= MaxAllowedMse(m[0].mse, tolerance))
    ensures 0.0 <= tolerance && 0.0 <= m[0].mse ==> 0 < |allowed|
  {
    var maxAllowed := MaxAllowedMse(m[0].mse, tolerance);
    allowed := [];
    var i := 0;
    while i < |m|
      invariant 0 <= i <= |m| && |allowed| == i
      invariant forall j :: 0 <= j < i ==> allowed[j] == (m[j].srcX, m[j].srcY) && m[j].mse <= maxAllowed
    {
      if m[i].mse <= maxAllowed {
        allowed := allowed + [(m[i].srcX, m[i].srcY)];
      } else {
        break;
      }
      i := i + 1;
    }
    if 0.0 <= tolerance && 0.0 <= m[0].mse {
      assert m[0].mse * 1.0 <= m[0].mse * (1.0 + tolerance);
    }
  }
}
