/**
 * The texture quilter: the object that holds the tile, seam and selection
 * parameters and synthesises a larger texture by placing overlapping tiles
 * on a canvas row by row.  Each tile is either drawn at random from the
 * source or chosen among the source windows whose overlap error is within a
 * tolerance band of the best one, and is composited either whole or behind
 * the cheapest vertical and horizontal seams through the overlap.
 */
module Quilting {
  import opened Wrappers
  import opened Pixels
  import opened ErrorMetrics
  import opened SeamDp
  import opened SeamCarving
  import opened TileGrid
  import opened Candidates

  /**
   * The random engine, as a stream of draws fixed when it is created: each
   * uniform draw over [lo, hi] consumes the next value of the stream and
   * reduces it into the range.
   */
  class RandomSource {
    const draws: nat -> nat
    var next: nat

    constructor (draws: nat -> nat)
      ensures this.draws == draws && next == 0
    {
      this.draws := draws;
      next := 0;
    }

    /** A draw of uniform_int_distribution(lo, hi): always inside the closed range. */
    method UniformInt(lo: int, hi: int) returns (v: int)
      requires lo <= hi
      modifies this
      ensures lo <= v <= hi
      ensures v == lo + draws(old(next)) % (hi - lo + 1) && next == old(next) + 1
    {
      v := lo + draws(next) % (hi - lo + 1);
      next := next + 1;
    }
  }

  /** An entry of a non-empty list drawn uniformly: the list indexed by the next draw over [0, |s| - 1]. */
  method DrawEntry<T>(s: seq<T>, rng: RandomSource) returns (e: T)
    requires 0 < |s|
    modifies rng
    ensures e == s[rng.draws(old(rng.next)) % |s|] && rng.next == old(rng.next) + 1
  {
    var i := rng.UniformInt(0, |s| - 1);
    e := s[i];
  }

  /**
   * The seam a tile gets by default: a sixth of its side, at least one pixel.
   * C++ truncates the quotient and Dafny floors it; they differ only for a
   * negative side, where both quotients are below 1 and the maximum gives 1.
   */
  function DefaultSeam(tile: int): (seam: int)
    ensures 1 <= seam
    ensures 2 <= tile ==> seam < tile
    ensures tile < 12 ==> seam == 1
    ensures 6 <= tile ==> 6 * seam <= tile < 6 * seam + 6
  {
    if tile / 6 < 1 then 1 else tile / 6
  }

  /** Whether the pixel (xi, yi) of a tile is written: it must lie beyond both seams in use. */
  predicate TakesTilePixel(useV: bool, vseam: seq<int>, useH: bool, hseam: seq<int>, xi: int, yi: int) {
    (!useV || (0 <= yi < |vseam| && xi > vseam[yi])) &&
    (!useH || (0 <= xi < |hseam| && yi > hseam[xi]))
  }

  /**
   * With seams that stay inside their overlap strips, every tile pixel right
   * of the vertical strip and below the horizontal strip is taken from the
   * tile, and every pixel on or before a seam keeps the canvas.
   */
  lemma MaskOutsideOverlap(useV: bool, vseam: seq<int>, seamW: int, useH: bool, hseam: seq<int>, seamH: int,
                           w: nat, h: nat, xi: int, yi: int)
    requires useV ==> |vseam| == h && IsSeamPath(vseam, seamW - 1)
    requires useH ==> |hseam| == w && IsSeamPath(hseam, seamH - 1)
    requires 0 <= xi < w && 0 <= yi < h
    ensures (!useV || seamW - 1 <= xi) && (!useH || seamH - 1 <= yi) ==> TakesTilePixel(useV, vseam, useH, hseam, xi, yi)
    ensures useV && xi <= vseam[yi] ==> !TakesTilePixel(useV, vseam, useH, hseam, xi, yi)
    ensures useH && yi <= hseam[xi] ==> !TakesTilePixel(useV, vseam, useH, hseam, xi, yi)
  {
    if useV {
      assert vseam[yi] < seamW - 1;
    }
    if useH {
      assert hseam[xi] < seamH - 1;
    }
  }

  /**
   * The loops of placeTile: copies the w-by-h tile at (srcX, srcY) of the
   * source onto the canvas at (x, y), pixel by pixel, where the mask allows;
   * every other canvas pixel is left as it was.
   */
  method CopyMasked(source: array2<Rgb>, srcX: int, srcY: int, target: array2<Rgb>, x: int, y: int, w: nat, h: nat,
                    useV: bool, vseam: seq<int>, useH: bool, hseam: seq<int>)
    requires source != target
    requires Within(source, srcX, srcY, w, h) && Within(target, x, y, w, h)
    modifies target
    ensures forall r, c :: 0 <= r < target.Length0 && 0 <= c < target.Length1 ==>
      target[r, c] == if y <= r < y + h && x <= c < x + w && TakesTilePixel(useV, vseam, useH, hseam, c - x, r - y)
                      then source[srcY + (r - y), srcX + (c - x)] else old(target[r, c])
  {
    for yi := 0 to h
      invariant forall r, c :: 0 <= r < target.Length0 && 0 <= c < target.Length1 ==>
        target[r, c] == if y <= r < y + yi && x <= c < x + w && TakesTilePixel(useV, vseam, useH, hseam, c - x, r - y)
                        then source[srcY + (r - y), srcX + (c - x)] else old(target[r, c])
    {
      for xi := 0 to w
        invariant forall r, c :: 0 <= r < target.Length0 && 0 <= c < target.Length1 ==>
          target[r, c] == if ((y <= r < y + yi && x <= c < x + w) || (r == y + yi && x <= c < x + xi)) &&
                             TakesTilePixel(useV, vseam, useH, hseam, c - x, r - y)
                          then source[srcY + (r - y), srcX + (c - x)] else old(target[r, c])
      {
        if TakesTilePixel(useV, vseam, useH, hseam, xi, yi) {
          target[y + yi, x + xi] := source[srcY + yi, srcX + xi];
        }
      }
    }
  }

  /** subtex(0, height, 0, width): a fresh copy of the top-left height-by-width corner. */
  method Crop(canvas: array2<Rgb>, width: int, height: int) returns (out: array2<Rgb>)
    requires 0 <= width <= canvas.Length1 && 0 <= height <= canvas.Length0
    ensures fresh(out) && out.Length0 == height && out.Length1 == width
    ensures forall r, c :: 0 <= r < height && 0 <= c < width ==> out[r, c] == canvas[r, c]
  {
    out := new Rgb[height, width]((r, c) reads canvas requires 0 <= r < height && 0 <= c < width => canvas[r, c]);
  }

  /** The number of tiles a loop `for i := 0 while i < count` visits. */
  function Visits(count: int): nat {
    if count < 0 then 0 else count
  }

  class TextureQuilter {
    var tileWidth: int
    var tileHeight: int
    var seamWidth: int
    var seamHeight: int
    var tolerance: real
    var mseSelection: bool
    var minCut: bool

    /** The default parameters: 3 x 3 tiles, one-pixel seams, tolerance 0.1, both refinements on. */
    constructor ()
      ensures tileWidth == 3 && tileHeight == 3 && seamWidth == 1 && seamHeight == 1
      ensures tolerance == 0.1 && mseSelection && minCut
    {
      tileWidth := 3;
      tileHeight := 3;
      seamWidth := 1;
      seamHeight := 1;
      tolerance := 0.1;
      mseSelection := true;
      minCut := true;
    }

    /** setTileParams(w, h): the tile size with default seams and tolerance 0.1; the flags are kept. */
    method SetTileParams(tileW: int, tileH: int)
      modifies this
      ensures tileWidth == tileW && tileHeight == tileH
      ensures seamWidth == DefaultSeam(tileW) && seamHeight == DefaultSeam(tileH)
      ensures tolerance == 0.1
      ensures mseSelection == old(mseSelection) && minCut == old(minCut)
    {
      SetTileAndSeamParams(tileW, tileH, DefaultSeam(tileW), DefaultSeam(tileH), 0.1);
    }

    /** The five-argument setTileParams: sets its five fields and nothing else. */
    method SetTileAndSeamParams(tileW: int, tileH: int, seamW: int, seamH: int, tol: real)
      modifies this
      ensures tileWidth == tileW && tileHeight == tileH && seamWidth == seamW && seamHeight == seamH
      ensures tolerance == tol
      ensures mseSelection == old(mseSelection) && minCut == old(minCut)
    {
      tileWidth := tileW;
      tileHeight := tileH;
      seamWidth := seamW;
      seamHeight := seamH;
      tolerance := tol;
    }

    method EnableMSESelection(enable: bool)
      modifies this
      ensures mseSelection == enable && minCut == old(minCut)
      ensures tileWidth == old(tileWidth) && tileHeight == old(tileHeight)
      ensures seamWidth == old(seamWidth) && seamHeight == old(seamHeight) && tolerance == old(tolerance)
    {
      mseSelection := enable;
    }

    method EnableMinCut(enable: bool)
      modifies this
      ensures minCut == enable && mseSelection == old(mseSelection)
      ensures tileWidth == old(tileWidth) && tileHeight == old(tileHeight)
      ensures seamWidth == old(seamWidth) && seamHeight == old(seamHeight) && tolerance == old(tolerance)
    {
      minCut := enable;
    }

    /** The overlap error of a tile at (x, y) of the canvas can be measured. */
    ghost predicate MseReady(target: array2<Rgb>, x: int, y: int)
      reads this
    {
      0 < seamWidth <= tileWidth && 0 < seamHeight <= tileHeight &&
      (x > 0 ==> Within(target, x, y, seamWidth, tileHeight)) &&
      (y > 0 ==> Within(target, x, y, tileWidth, seamHeight))
    }

    /** A candidate origin of the error-biased scan: the tile window lies strictly inside the source. */
    ghost predicate InScan(source: array2<Rgb>, sx: int, sy: int)
      reads this
    {
      0 <= sy < source.Length0 - tileHeight && 0 <= sx < source.Length1 - tileWidth
    }

    /** The overlap error of the candidate at (sx, sy) for the tile at (x, y) (0 where it is not measured). */
    ghost function CandidateMse(source: array2<Rgb>, target: array2<Rgb>, x: int, y: int, sx: int, sy: int): real
      reads this, source, target
    {
      if MseReady(target, x, y) && InScan(source, sx, sy) then
        CalculateMSE(source, target, sx, sy, x, y, tileWidth, tileHeight, seamWidth, seamHeight)
      else 0.0
    }

    /** The candidate is kept: the first tile keeps every one, later tiles drop near-duplicates. */
    ghost predicate Kept(source: array2<Rgb>, target: array2<Rgb>, x: int, y: int, sx: int, sy: int)
      reads this, source, target
    {
      InScan(source, sx, sy) && ((x == 0 && y == 0) || CandidateMse(source, target, x, y, sx, sy) > 0.001)
    }

    /** Every entry of m is a kept candidate scanned before (srcX, srcY), with its error. */
    ghost predicate OnlyScannedKept(source: array2<Rgb>, target: array2<Rgb>, x: int, y: int, m: seq<Candidate>,
                                    srcX: int, srcY: int)
      reads this, source, target
    {
      forall c :: c in m ==>
        Kept(source, target, x, y, c.srcX, c.srcY) && c.mse == CandidateMse(source, target, x, y, c.srcX, c.srcY) &&
        ScannedBefore(c.srcX, c.srcY, srcX, srcY)
    }

    /** Every kept candidate scanned before (srcX, srcY) is an entry of m, with its error. */
    ghost predicate AllScannedKept(source: array2<Rgb>, target: array2<Rgb>, x: int, y: int, m: seq<Candidate>,
                                   srcX: int, srcY: int)
      reads this, source, target
    {
      forall sx, sy :: ScannedBefore(sx, sy, srcX, srcY) && Kept(source, target, x, y, sx, sy) ==>
        Candidate(CandidateMse(source, target, x, y, sx, sy), sx, sy) in m
    }

    /**
     * The multimap once the scan has reached (srcX, srcY): in iteration order,
     * holding every kept candidate scanned so far with its error, and nothing
     * else.
     */
    ghost predicate Collected(source: array2<Rgb>, target: array2<Rgb>, x: int, y: int, m: seq<Candidate>, srcX: int, srcY: int)
      reads this, source, target
    {
      InIterationOrder(m) &&
      OnlyScannedKept(source, target, x, y, m, srcX, srcY) &&
      AllScannedKept(source, target, x, y, m, srcX, srcY)
    }

    /** Inserting the kept candidate at (srcX, srcY) advances the scan by one. */
    lemma CollectKept(source: array2<Rgb>, target: array2<Rgb>, x: int, y: int, m: seq<Candidate>, srcX: int, srcY: int)
      requires MseReady(target, x, y) && Collected(source, target, x, y, m, srcX, srcY)
      requires Kept(source, target, x, y, srcX, srcY)
      ensures SortedByMse(m)
      ensures Collected(source, target, x, y, Insert(m, Candidate(CandidateMse(source, target, x, y, srcX, srcY), srcX, srcY)),
                        srcX + 1, srcY)
    {
      var c := Candidate(CandidateMse(source, target, x, y, srcX, srcY), srcX, srcY);
      InsertKeepsIterationOrder(m, c);
      var r := Insert(m, c);
      assert OnlyScannedKept(source, target, x, y, r, srcX + 1, srcY) by {
        forall e | e in r
          ensures Kept(source, target, x, y, e.srcX, e.srcY) && e.mse == CandidateMse(source, target, x, y, e.srcX, e.srcY)
          ensures ScannedBefore(e.srcX, e.srcY, srcX + 1, srcY)
        {
          assert e in m || e == c;
        }
      }
      assert AllScannedKept(source, target, x, y, r, srcX + 1, srcY) by {
        forall sx, sy | ScannedBefore(sx, sy, srcX + 1, srcY) && Kept(source, target, x, y, sx, sy)
          ensures Candidate(CandidateMse(source, target, x, y, sx, sy), sx, sy) in r
        {
          if !(sx == srcX && sy == srcY) {
            assert ScannedBefore(sx, sy, srcX, srcY);
          }
        }
      }
    }

    /** A step of the scan that inserts: the source's keep condition on the computed error is Kept. */
    lemma CollectInserted(source: array2<Rgb>, target: array2<Rgb>, x: int, y: int, m: seq<Candidate>, srcX: int, srcY: int,
                          mse: real)
      requires MseReady(target, x, y) && InScan(source, srcX, srcY) && Collected(source, target, x, y, m, srcX, srcY)
      requires mse == CalculateMSE(source, target, srcX, srcY, x, y, tileWidth, tileHeight, seamWidth, seamHeight)
      requires (x == 0 && y == 0) || mse > 0.001
      ensures SortedByMse(m)
      ensures Collected(source, target, x, y, Insert(m, Candidate(mse, srcX, srcY)), srcX + 1, srcY)
    {
      CollectKept(source, target, x, y, m, srcX, srcY);
    }

    /** A step of the scan that does not insert: the candidate is not kept. */
    lemma CollectPassed(source: array2<Rgb>, target: array2<Rgb>, x: int, y: int, m: seq<Candidate>, srcX: int, srcY: int,
                        mse: real)
      requires MseReady(target, x, y) && InScan(source, srcX, srcY) && Collected(source, target, x, y, m, srcX, srcY)
      requires mse == CalculateMSE(source, target, srcX, srcY, x, y, tileWidth, tileHeight, seamWidth, seamHeight)
      requires !((x == 0 && y == 0) || mse > 0.001)
      ensures Collected(source, target, x, y, m, srcX + 1, srcY)
    {
      assert !Kept(source, target, x, y, srcX, srcY);
    }

    /** The end of a row of the scan is the start of the next. */
    lemma CollectNextRow(source: array2<Rgb>, target: array2<Rgb>, x: int, y: int, m: seq<Candidate>, srcX: int, srcY: int)
      requires Collected(source, target, x, y, m, srcX, srcY)
      requires source.Length1 - tileWidth <= srcX
      ensures Collected(source, target, x, y, m, 0, srcY + 1)
    {
    }

    /** Once the scan is past the last row, the multimap holds exactly the kept candidates. */
    lemma CollectDone(source: array2<Rgb>, target: array2<Rgb>, x: int, y: int, m: seq<Candidate>, srcY: int)
      requires Collected(source, target, x, y, m, 0, srcY)
      requires source.Length0 - tileHeight <= srcY
      ensures forall sx, sy :: Kept(source, target, x, y, sx, sy) ==>
        Candidate(CandidateMse(source, target, x, y, sx, sy), sx, sy) in m
    {
      forall sx, sy | Kept(source, target, x, y, sx, sy)
        ensures Candidate(CandidateMse(source, target, x, y, sx, sy), sx, sy) in m
      {
        assert ScannedBefore(sx, sy, 0, srcY);
      }
    }

    /**
     * The scan of selectSourceTile: every kept candidate, with its error, is
     * inserted into the multimap and nothing else is; inserting in scan order
     * leaves equal errors in scan order.
     */
    method CollectCandidates(source: array2<Rgb>, target: array2<Rgb>, x: int, y: int) returns (m: seq<Candidate>)
      requires MseReady(target, x, y)
      ensures InIterationOrder(m)
      ensures forall c :: c in m ==>
        Kept(source, target, x, y, c.srcX, c.srcY) && c.mse == CandidateMse(source, target, x, y, c.srcX, c.srcY)
      ensures forall sx, sy :: Kept(source, target, x, y, sx, sy) ==>
        Candidate(CandidateMse(source, target, x, y, sx, sy), sx, sy) in m
    {
      m := [];
      var srcY := 0;
      while srcY < source.Length0 - tileHeight
        invariant 0 <= srcY && (srcY == 0 || srcY <= source.Length0 - tileHeight)
        invariant Collected(source, target, x, y, m, 0, srcY)
      {
        m := CollectRow(source, target, x, y, m, srcY);
        srcY := srcY + 1;
      }
      CollectDone(source, target, x, y, m, srcY);
    }

    /** The inner loop of the scan: row srcY, left to right. */
    method CollectRow(source: array2<Rgb>, target: array2<Rgb>, x: int, y: int, m0: seq<Candidate>, srcY: int)
      returns (m: seq<Candidate>)
      requires MseReady(target, x, y) && 0 <= srcY < source.Length0 - tileHeight
      requires Collected(source, target, x, y, m0, 0, srcY)
      ensures Collected(source, target, x, y, m, 0, srcY + 1)
    {
      m := m0;
      var srcX := 0;
      while srcX < source.Length1 - tileWidth
        invariant 0 <= srcX && (srcX == 0 || srcX <= source.Length1 - tileWidth)
        invariant Collected(source, target, x, y, m, srcX, srcY)
      {
        m := CollectOne(source, target, x, y, m, srcX, srcY);
        srcX := srcX + 1;
      }
      CollectNextRow(source, target, x, y, m, srcX, srcY);
    }

    /** The body of the scan: measure the candidate at (srcX, srcY) and insert it if it is kept. */
    method CollectOne(source: array2<Rgb>, target: array2<Rgb>, x: int, y: int, m0: seq<Candidate>, srcX: int, srcY: int)
      returns (m: seq<Candidate>)
      requires MseReady(target, x, y) && InScan(source, srcX, srcY)
      requires Collected(source, target, x, y, m0, srcX, srcY)
      ensures Collected(source, target, x, y, m, srcX + 1, srcY)
    {
      m := m0;
      var mse := CalculateMSE(source, target, srcX, srcY, x, y, tileWidth, tileHeight, seamWidth, seamHeight);
      if (x == 0 && y == 0) || mse > 0.001 {
        CollectInserted(source, target, x, y, m, srcX, srcY, mse);
        m := Insert(m, Candidate(mse, srcX, srcY));
      } else {
        CollectPassed(source, target, x, y, m, srcX, srcY, mse);
      }
    }

    /** (bestX, bestY) is a kept candidate of smallest error. */
    ghost predicate IsBestKept(source: array2<Rgb>, target: array2<Rgb>, x: int, y: int, bestX: int, bestY: int)
      reads this, source, target
    {
      Kept(source, target, x, y, bestX, bestY) &&
      forall sx, sy :: Kept(source, target, x, y, sx, sy) ==>
        CandidateMse(source, target, x, y, bestX, bestY) <= CandidateMse(source, target, x, y, sx, sy)
    }

    /** (sx, sy) is kept and its error is inside the tolerance band of the smallest kept error. */
    ghost predicate WithinBand(source: array2<Rgb>, target: array2<Rgb>, x: int, y: int, sx: int, sy: int)
      reads this, source, target
    {
      Kept(source, target, x, y, sx, sy) &&
      exists bestX, bestY :: IsBestKept(source, target, x, y, bestX, bestY) &&
        CandidateMse(source, target, x, y, sx, sy) <= MaxAllowedMse(CandidateMse(source, target, x, y, bestX, bestY), tolerance)
    }

    /** No candidate is kept: the multimap stays empty. */
    ghost predicate NoneKept(source: array2<Rgb>, target: array2<Rgb>, x: int, y: int)
      reads this, source, target
    {
      forall sx, sy :: !Kept(source, target, x, y, sx, sy)
    }

    /**
     * Every origin the accepting loop keeps lies inside the band of the best
     * kept candidate, which is the first entry of the multimap.
     */
    lemma AcceptedWithinBand(source: array2<Rgb>, target: array2<Rgb>, x: int, y: int, m: seq<Candidate>,
                             allowed: seq<(int, int)>)
      requires 0 < |m| && InIterationOrder(m)
      requires forall c :: c in m ==>
        Kept(source, target, x, y, c.srcX, c.srcY) && c.mse == CandidateMse(source, target, x, y, c.srcX, c.srcY)
      requires forall sx, sy :: Kept(source, target, x, y, sx, sy) ==>
        Candidate(CandidateMse(source, target, x, y, sx, sy), sx, sy) in m
      requires |allowed| <= |m|
      requires forall i :: 0 <= i < |allowed| ==>
        allowed[i] == (m[i].srcX, m[i].srcY) && m[i].mse <= MaxAllowedMse(m[0].mse, tolerance)
      ensures forall i :: 0 <= i < |allowed| ==> WithinBand(source, target, x, y, allowed[i].0, allowed[i].1)
    {
      var best := m[0];
      assert best in m;
      forall sx, sy | Kept(source, target, x, y, sx, sy)
        ensures best.mse <= CandidateMse(source, target, x, y, sx, sy)
      {
        var c := Candidate(CandidateMse(source, target, x, y, sx, sy), sx, sy);
        var j :| 0 <= j < |m| && m[j] == c;
      }
      assert IsBestKept(source, target, x, y, best.srcX, best.srcY);
      forall i | 0 <= i < |allowed|
        ensures WithinBand(source, target, x, y, allowed[i].0, allowed[i].1)
      {
        assert m[i] in m;
      }
    }

    /** Origin o listed with its error, as the multimap holds it. */
    ghost function Listed(source: array2<Rgb>, target: array2<Rgb>, x: int, y: int, o: (int, int)): Candidate
      reads this, source, target
    {
      Candidate(CandidateMse(source, target, x, y, o.0, o.1), o.0, o.1)
    }

    /**
     * The accepted list of the error-biased policy: exactly the origins
     * inside the tolerance band, in the order the multimap iterates them.
     */
    ghost predicate IsAcceptedList(source: array2<Rgb>, target: array2<Rgb>, x: int, y: int, allowed: seq<(int, int)>)
      reads this, source, target
    {
      (forall i :: 0 <= i < |allowed| ==> WithinBand(source, target, x, y, allowed[i].0, allowed[i].1)) &&
      (forall sx, sy :: WithinBand(source, target, x, y, sx, sy) ==> (sx, sy) in allowed) &&
      (forall i, j :: 0 <= i < j < |allowed| ==>
         IteratedBefore(Listed(source, target, x, y, allowed[i]), Listed(source, target, x, y, allowed[j])))
    }

    /**
     * Where selectSourceTile is undefined: the random policy hands an empty
     * range to the distribution, the error-biased one draws from an empty
     * accepted list.
     */
    ghost predicate SelectionUndefined(source: array2<Rgb>, target: array2<Rgb>, x: int, y: int)
      reads this, source, target
    {
      if mseSelection then forall sx, sy :: !WithinBand(source, target, x, y, sx, sy)
      else !(tileWidth < source.Length1 && tileHeight < source.Length0)
    }

    /**
     * The accepting loop over the collected multimap gives the accepted list:
     * every accepted origin is inside the band, every origin inside the band
     * is accepted, and they come in iteration order.
     */
    lemma BandIsAccepted(source: array2<Rgb>, target: array2<Rgb>, x: int, y: int, m: seq<Candidate>,
                         allowed: seq<(int, int)>)
      requires 0 < |m| && InIterationOrder(m)
      requires forall c :: c in m ==>
        Kept(source, target, x, y, c.srcX, c.srcY) && c.mse == CandidateMse(source, target, x, y, c.srcX, c.srcY)
      requires forall sx, sy :: Kept(source, target, x, y, sx, sy) ==>
        Candidate(CandidateMse(source, target, x, y, sx, sy), sx, sy) in m
      requires |allowed| <= |m|
      requires forall i :: 0 <= i < |allowed| ==> allowed[i] == (m[i].srcX, m[i].srcY)
      requires forall i :: 0 <= i < |m| ==> (i < |allowed| <==> m[i].mse <= MaxAllowedMse(m[0].mse, tolerance))
      ensures IsAcceptedList(source, target, x, y, allowed)
    {
      AcceptedWithinBand(source, target, x, y, m, allowed);
      BandInAccepted(source, target, x, y, m, allowed);
      AcceptedInOrder(source, target, x, y, m, allowed);
    }

    /** Every origin inside the band is among the accepted ones. */
    lemma BandInAccepted(source: array2<Rgb>, target: array2<Rgb>, x: int, y: int, m: seq<Candidate>,
                         allowed: seq<(int, int)>)
      requires 0 < |m| && InIterationOrder(m)
      requires forall c :: c in m ==>
        Kept(source, target, x, y, c.srcX, c.srcY) && c.mse == CandidateMse(source, target, x, y, c.srcX, c.srcY)
      requires forall sx, sy :: Kept(source, target, x, y, sx, sy) ==>
        Candidate(CandidateMse(source, target, x, y, sx, sy), sx, sy) in m
      requires |allowed| <= |m|
      requires forall i :: 0 <= i < |allowed| ==> allowed[i] == (m[i].srcX, m[i].srcY)
      requires forall i :: 0 <= i < |m| ==> (i < |allowed| <==> m[i].mse <= MaxAllowedMse(m[0].mse, tolerance))
      ensures forall sx, sy :: WithinBand(source, target, x, y, sx, sy) ==> (sx, sy) in allowed
    {
      forall sx, sy | WithinBand(source, target, x, y, sx, sy)
        ensures (sx, sy) in allowed
      {
        var j :| 0 <= j < |m| && m[j] == Candidate(CandidateMse(source, target, x, y, sx, sy), sx, sy);
        var bestX, bestY :| IsBestKept(source, target, x, y, bestX, bestY) &&
          CandidateMse(source, target, x, y, sx, sy) <= MaxAllowedMse(CandidateMse(source, target, x, y, bestX, bestY), tolerance);
        BestIsFirst(source, target, x, y, m, bestX, bestY);
        assert j < |allowed|;
      }
    }

    /** The smallest kept error is the error of the first entry of the multimap. */
    lemma BestIsFirst(source: array2<Rgb>, target: array2<Rgb>, x: int, y: int, m: seq<Candidate>, bestX: int, bestY: int)
      requires 0 < |m| && InIterationOrder(m)
      requires forall c :: c in m ==>
        Kept(source, target, x, y, c.srcX, c.srcY) && c.mse == CandidateMse(source, target, x, y, c.srcX, c.srcY)
      requires forall sx, sy :: Kept(source, target, x, y, sx, sy) ==>
        Candidate(CandidateMse(source, target, x, y, sx, sy), sx, sy) in m
      requires IsBestKept(source, target, x, y, bestX, bestY)
      ensures m[0].mse == CandidateMse(source, target, x, y, bestX, bestY)
    {
      IterationOrderIsSorted(m);
      var b :| 0 <= b < |m| && m[b] == Candidate(CandidateMse(source, target, x, y, bestX, bestY), bestX, bestY);
      assert m[0] in m;
      assert m[0].mse <= m[b].mse;
    }

    /** The accepted origins come in the order the multimap iterates them. */
    lemma AcceptedInOrder(source: array2<Rgb>, target: array2<Rgb>, x: int, y: int, m: seq<Candidate>,
                          allowed: seq<(int, int)>)
      requires InIterationOrder(m)
      requires forall c :: c in m ==> c.mse == CandidateMse(source, target, x, y, c.srcX, c.srcY)
      requires |allowed| <= |m|
      requires forall i :: 0 <= i < |allowed| ==> allowed[i] == (m[i].srcX, m[i].srcY)
      ensures forall i, j :: 0 <= i < j < |allowed| ==>
        IteratedBefore(Listed(source, target, x, y, allowed[i]), Listed(source, target, x, y, allowed[j]))
    {
      forall i, j | 0 <= i < j < |allowed|
        ensures IteratedBefore(Listed(source, target, x, y, allowed[i]), Listed(source, target, x, y, allowed[j]))
      {
        assert m[i] in m && m[j] in m;
        assert Listed(source, target, x, y, allowed[i]) == m[i];
        assert Listed(source, target, x, y, allowed[j]) == m[j];
      }
    }

    /** With nothing collected, nothing is kept and the accepted list is empty. */
    lemma NothingCollected(source: array2<Rgb>, target: array2<Rgb>, x: int, y: int, m: seq<Candidate>)
      requires |m| == 0
      requires forall sx, sy :: Kept(source, target, x, y, sx, sy) ==>
        Candidate(CandidateMse(source, target, x, y, sx, sy), sx, sy) in m
      ensures NoneKept(source, target, x, y)
      ensures IsAcceptedList(source, target, x, y, [])
    {
      forall sx, sy
        ensures !Kept(source, target, x, y, sx, sy)
      {
      }
    }

    /**
     * selectSourceTile.  Random policy: the next two draws, reduced into
     * [0, srcW - tileW - 1] and [0, srcH - tileH - 1], so that the tile lies
     * strictly inside the source.  Error-biased policy: the accepted list
     * (the kept candidates within the tolerance band of the smallest kept
     * error, in iteration order) indexed by the next draw.  None exactly
     * where the source would hand an empty range to a distribution; no draw
     * is consumed then.
     */
    method SelectSourceTile(source: array2<Rgb>, target: array2<Rgb>, x: int, y: int, rng: RandomSource)
      returns (tile: Option<(int, int)>, ghost allowed: seq<(int, int)>)
      requires mseSelection ==> MseReady(target, x, y)
      modifies rng
      ensures tile.None? <==> SelectionUndefined(source, target, x, y)
      ensures tile.None? ==> rng.next == old(rng.next)
      ensures tile.Some? ==> InScan(source, tile.value.0, tile.value.1)
      ensures !mseSelection && tile.Some? ==>
        tile.value == (rng.draws(old(rng.next)) % (source.Length1 - tileWidth),
                       rng.draws(old(rng.next) + 1) % (source.Length0 - tileHeight)) &&
        rng.next == old(rng.next) + 2
      ensures mseSelection ==> IsAcceptedList(source, target, x, y, allowed)
      ensures mseSelection && tile.Some? ==>
        0 < |allowed| && tile.value == allowed[rng.draws(old(rng.next)) % |allowed|] && rng.next == old(rng.next) + 1
      ensures mseSelection && 0.0 <= tolerance ==> (tile.None? <==> NoneKept(source, target, x, y))
    {
      if !mseSelection {
        allowed := [];
        if source.Length1 - tileWidth - 1 < 0 || source.Length0 - tileHeight - 1 < 0 {
          return None, allowed;
        }
        var srcX := rng.UniformInt(0, source.Length1 - tileWidth - 1);
        var srcY := rng.UniformInt(0, source.Length0 - tileHeight - 1);
        return Some((srcX, srcY)), allowed;
      }
      tile, allowed := SelectByError(source, target, x, y, rng);
      if tile.Some? {
        assert tile.value in allowed;
      }
    }

    /**
     * The error-biased branch of selectSourceTile: collects the kept
     * candidates, accepts those within the band, and indexes the accepted
     * list by the next draw.
     */
    method SelectByError(source: array2<Rgb>, target: array2<Rgb>, x: int, y: int, rng: RandomSource)
      returns (tile: Option<(int, int)>, ghost allowed: seq<(int, int)>)
      requires MseReady(target, x, y)
      modifies rng
      ensures IsAcceptedList(source, target, x, y, allowed)
      ensures tile.None? <==> |allowed| == 0
      ensures tile.None? ==> rng.next == old(rng.next)
      ensures tile.Some? ==>
        tile.value == allowed[rng.draws(old(rng.next)) % |allowed|] && rng.next == old(rng.next) + 1
      ensures 0.0 <= tolerance ==> (tile.None? <==> NoneKept(source, target, x, y))
    {
      var mseToXY := CollectCandidates(source, target, x, y);
      if |mseToXY| == 0 {
        NothingCollected(source, target, x, y, mseToXY);
        return None, [];
      }
      assert mseToXY[0] in mseToXY;
      IterationOrderIsSorted(mseToXY);
      var allowedXYs := AcceptWithinTolerance(mseToXY, tolerance);
      BandIsAccepted(source, target, x, y, mseToXY, allowedXYs);
      allowed := allowedXYs;
      if |allowedXYs| == 0 {
        return None, allowed;
      }
      var xy := DrawEntry(allowedXYs, rng);
      tile := Some(xy);
    }

    /** The vertical seam placeTile cuts for the tile at (x, y), or [] where none is cut. */
    ghost function VerticalCut(source: array2<Rgb>, srcX: int, srcY: int, target: array2<Rgb>, x: int, y: int): seq<int>
      reads this, source, target
      requires TileFits(source, srcX, srcY, target, x, y)
    {
      if minCut && 0 < x then
        var s := VerticalSeamOf(target, source, x, y, srcX, srcY, seamWidth, tileHeight);
        if s.Some? then s.value else []
      else []
    }

    /** The horizontal seam placeTile cuts for the tile at (x, y), or [] where none is cut. */
    ghost function HorizontalCut(source: array2<Rgb>, srcX: int, srcY: int, target: array2<Rgb>, x: int, y: int): seq<int>
      reads this, source, target
      requires TileFits(source, srcX, srcY, target, x, y)
    {
      if minCut && 0 < y then
        var s := HorizontalSeamOf(target, source, x, y, srcX, srcY, tileWidth, seamHeight);
        if s.Some? then s.value else []
      else []
    }

    /** What placeTile needs: the tile lies inside both textures and the seams it cuts have room. */
    ghost predicate TileFits(source: array2<Rgb>, srcX: int, srcY: int, target: array2<Rgb>, x: int, y: int)
      reads this
    {
      0 <= tileWidth && 0 <= tileHeight && 0 <= x && 0 <= y &&
      Within(source, srcX, srcY, tileWidth, tileHeight) && Within(target, x, y, tileWidth, tileHeight) &&
      (minCut && 0 < x ==> 1 <= seamWidth <= tileWidth && 1 <= tileHeight) &&
      (minCut && 0 < y ==> 1 <= seamHeight <= tileHeight && 1 <= tileWidth)
    }

    /**
     * placeTile: with min-cut off, or for the first tile, the whole tile is
     * copied; in the first row only pixels right of the vertical seam, in the
     * first column only pixels below the horizontal seam, elsewhere only
     * pixels beyond both.  Both seams are cut against the canvas as it was
     * before the copy.  ok is false exactly where a one-pixel seam of a tile
     * at least two pixels long would make the source read outside its cost
     * grid; the canvas is then untouched.
     */
    method PlaceTile(source: array2<Rgb>, srcX: int, srcY: int, target: array2<Rgb>, x: int, y: int) returns (ok: bool)
      requires source != target
      requires TileFits(source, srcX, srcY, target, x, y)
      modifies target
      ensures ok <==> !(minCut && 0 < x && seamWidth == 1 && 2 <= tileHeight) &&
                      !(minCut && 0 < y && seamHeight == 1 && 2 <= tileWidth)
      ensures !ok ==> unchanged(target)
      ensures ok ==> forall r, c :: 0 <= r < target.Length0 && 0 <= c < target.Length1 ==>
        target[r, c] == if y <= r < y + tileHeight && x <= c < x + tileWidth &&
                            TakesTilePixel(minCut && 0 < x, old(VerticalCut(source, srcX, srcY, target, x, y)),
                                           minCut && 0 < y, old(HorizontalCut(source, srcX, srcY, target, x, y)),
                                           c - x, r - y)
                        then source[srcY + (r - y), srcX + (c - x)] else old(target[r, c])
    {
      var verticalSeam, horizontalSeam;
      ok, verticalSeam, horizontalSeam := CutSeams(source, srcX, srcY, target, x, y);
      if !ok {
        return;
      }
      CopyMasked(source, srcX, srcY, target, x, y, tileWidth, tileHeight,
                 minCut && 0 < x, verticalSeam, minCut && 0 < y, horizontalSeam);
    }

    /**
     * The seams placeTile cuts before it writes: the vertical one for a tile
     * right of the first column, the horizontal one for a tile below the
     * first row, neither with min-cut off.
     */
    method CutSeams(source: array2<Rgb>, srcX: int, srcY: int, target: array2<Rgb>, x: int, y: int)
      returns (ok: bool, verticalSeam: seq<int>, horizontalSeam: seq<int>)
      requires TileFits(source, srcX, srcY, target, x, y)
      ensures ok <==> !(minCut && 0 < x && seamWidth == 1 && 2 <= tileHeight) &&
                      !(minCut && 0 < y && seamHeight == 1 && 2 <= tileWidth)
      ensures ok ==> verticalSeam == old(VerticalCut(source, srcX, srcY, target, x, y))
      ensures ok ==> horizontalSeam == old(HorizontalCut(source, srcX, srcY, target, x, y))
    {
      var vOk, hOk;
      vOk, verticalSeam := CutVertical(source, srcX, srcY, target, x, y);
      hOk, horizontalSeam := CutHorizontal(source, srcX, srcY, target, x, y);
      ok := vOk && hOk;
    }

    /** The vertical seam through the left overlap strip, when placeTile cuts one. */
    method CutVertical(source: array2<Rgb>, srcX: int, srcY: int, target: array2<Rgb>, x: int, y: int)
      returns (ok: bool, verticalSeam: seq<int>)
      requires TileFits(source, srcX, srcY, target, x, y)
      ensures ok <==> !(minCut && 0 < x && seamWidth == 1 && 2 <= tileHeight)
      ensures ok ==> verticalSeam == old(VerticalCut(source, srcX, srcY, target, x, y))
    {
      if !(minCut && 0 < x) {
        return true, [];
      }
      var s := FindVerticalMinCostSeam(target, source, x, y, srcX, srcY, seamWidth, tileHeight);
      if s.None? {
        return false, [];
      }
      return true, s.value;
    }

    /** The horizontal seam through the top overlap strip, when placeTile cuts one. */
    method CutHorizontal(source: array2<Rgb>, srcX: int, srcY: int, target: array2<Rgb>, x: int, y: int)
      returns (ok: bool, horizontalSeam: seq<int>)
      requires TileFits(source, srcX, srcY, target, x, y)
      ensures ok <==> !(minCut && 0 < y && seamHeight == 1 && 2 <= tileWidth)
      ensures ok ==> horizontalSeam == old(HorizontalCut(source, srcX, srcY, target, x, y))
    {
      if !(minCut && 0 < y) {
        return true, [];
      }
      var s := FindHorizontalMinCostSeam(target, source, x, y, srcX, srcY, tileWidth, seamHeight);
      if s.None? {
        return false, [];
      }
      return true, s.value;
    }

    /**
     * With seams of at least two pixels, the tile pixels outside the overlap
     * strips always come from the tile, whatever the seams are: the cut only
     * decides the overlap.
     */
    lemma PlacedOutsideOverlap(source: array2<Rgb>, srcX: int, srcY: int, target: array2<Rgb>, x: int, y: int,
                               xi: int, yi: int)
      requires TileFits(source, srcX, srcY, target, x, y)
      requires minCut && 0 < x ==> 2 <= seamWidth
      requires minCut && 0 < y ==> 2 <= seamHeight
      requires 0 <= xi < tileWidth && 0 <= yi < tileHeight
      requires !(minCut && 0 < x) || seamWidth - 1 <= xi
      requires !(minCut && 0 < y) || seamHeight - 1 <= yi
      ensures TakesTilePixel(minCut && 0 < x, VerticalCut(source, srcX, srcY, target, x, y),
                             minCut && 0 < y, HorizontalCut(source, srcX, srcY, target, x, y), xi, yi)
    {
      var vseam := VerticalCut(source, srcX, srcY, target, x, y);
      var hseam := HorizontalCut(source, srcX, srcY, target, x, y);
      if minCut && 0 < x {
        VerticalCutIsPath(source, srcX, srcY, target, x, y);
      }
      if minCut && 0 < y {
        HorizontalCutIsPath(source, srcX, srcY, target, x, y);
      }
      MaskOutsideOverlap(minCut && 0 < x, vseam, seamWidth, minCut && 0 < y, hseam, seamHeight, tileWidth, tileHeight, xi, yi);
    }

    /** A vertical cut through a strip at least two pixels wide has one column per row of the tile, each inside the strip. */
    lemma VerticalCutIsPath(source: array2<Rgb>, srcX: int, srcY: int, target: array2<Rgb>, x: int, y: int)
      requires TileFits(source, srcX, srcY, target, x, y) && minCut && 0 < x && 2 <= seamWidth
      ensures var s := VerticalCut(source, srcX, srcY, target, x, y);
        |s| == tileHeight && IsSeamPath(s, seamWidth - 1)
    {
      VerticalSeamIsCheapest(target, source, x, y, srcX, srcY, seamWidth, tileHeight);
    }

    /** A horizontal cut through a strip at least two pixels high has one row per column of the tile, each inside the strip. */
    lemma HorizontalCutIsPath(source: array2<Rgb>, srcX: int, srcY: int, target: array2<Rgb>, x: int, y: int)
      requires TileFits(source, srcX, srcY, target, x, y) && minCut && 0 < y && 2 <= seamHeight
      ensures var s := HorizontalCut(source, srcX, srcY, target, x, y);
        |s| == tileWidth && IsSeamPath(s, seamHeight - 1)
    {
      HorizontalSeamIsCheapest(target, source, x, y, srcX, srcY, tileWidth, seamHeight);
    }

    /**
     * Where placeTile is undefined: a one-pixel seam through a tile at least
     * two pixels long makes the seam search read outside its cost grid.
     */
    ghost predicate PlacementUndefined(x: int, y: int)
      reads this
    {
      minCut && ((0 < x && seamWidth == 1 && 2 <= tileHeight) || (0 < y && seamHeight == 1 && 2 <= tileWidth))
    }

    /**
     * One row of the tile loop of quiltTexture: selects and places the tiles
     * of row tileY from left to right, and stops at the first tile that can
     * be neither selected nor placed.  row holds the origins placed; on a
     * stop, failedAt is the next origin of the row, where the selection or
     * the placement is undefined on the canvas as it then is.
     */
    method QuiltRow(source: array2<Rgb>, target: array2<Rgb>, tileY: int, tileCountX: int, tileCountY: int,
                    rng: RandomSource)
      returns (ok: bool, ghost row: seq<(int, int)>, ghost failedAt: (int, int))
      requires source != target
      requires 0 <= seamWidth < tileWidth && 0 <= seamHeight < tileHeight
      requires mseSelection || minCut ==> 1 <= seamWidth && 1 <= seamHeight
      requires 0 <= tileY < tileCountY
      requires target.Length1 == CanvasExtent(tileCountX, tileWidth, seamWidth)
      requires target.Length0 == CanvasExtent(tileCountY, tileHeight, seamHeight)
      modifies rng, target
      ensures ok ==> row == RowOrigins(Visits(tileCountX), tileY, tileWidth, tileHeight, seamWidth, seamHeight)
      ensures !ok ==>
        |row| < tileCountX && row == RowOrigins(|row|, tileY, tileWidth, tileHeight, seamWidth, seamHeight) &&
        failedAt == (TileOrigin(|row|, tileWidth, seamWidth), TileOrigin(tileY, tileHeight, seamHeight)) &&
        (SelectionUndefined(source, target, failedAt.0, failedAt.1) || PlacementUndefined(failedAt.0, failedAt.1))
      ensures (!mseSelection && tileWidth < source.Length1 && tileHeight < source.Length0 &&
               (minCut ==> 2 <= seamWidth && 2 <= seamHeight)) ==> ok
    {
      var y := tileY * (tileHeight - seamHeight);
      TilesInsideCanvas(tileCountY, tileHeight, seamHeight, tileY);
      row := [];
      failedAt := (0, 0);
      var tileX := 0;
      while tileX < tileCountX
        invariant 0 <= tileX && (tileX == 0 || tileX <= tileCountX)
        invariant row == RowOrigins(tileX, tileY, tileWidth, tileHeight, seamWidth, seamHeight)
      {
        var x := tileX * (tileWidth - seamWidth);
        TilesInsideCanvas(tileCountX, tileWidth, seamWidth, tileX);
        var tile;
        ghost var allowed;
        tile, allowed := SelectSourceTile(source, target, x, y, rng);
        if tile.None? {
          return false, row, (x, y);
        }
        ok := PlaceTile(source, tile.value.0, tile.value.1, target, x, y);
        if !ok {
          return false, row, (x, y);
        }
        assert RowOrigins(tileX + 1, tileY, tileWidth, tileHeight, seamWidth, seamHeight) ==
               RowOrigins(tileX, tileY, tileWidth, tileHeight, seamWidth, seamHeight) + [(x, y)];
        row := row + [(x, y)];
        tileX := tileX + 1;
      }
      ok := true;
    }

    /**
     * quiltTexture: allocates a canvas of whole tiles that covers the
     * requested size, visits the tile origins row by row, selects and places
     * a tile at each, and returns the top-left targetWidth-by-targetHeight
     * crop.  None where a selection or a placement would be undefined.
     */
    method QuiltTexture(source: array2<Rgb>, targetWidth: int, targetHeight: int, rng: RandomSource)
      returns (result: Option<array2<Rgb>>, ghost canvas: array2<Rgb>, ghost visited: seq<(int, int)>,
               ghost failedAt: (int, int))
      requires 0 <= seamWidth < tileWidth && 0 <= seamHeight < tileHeight
      requires mseSelection || minCut ==> 1 <= seamWidth && 1 <= seamHeight
      requires 0 <= targetWidth && 0 <= targetHeight
      modifies rng
      ensures canvas.Length1 == CanvasExtent(TileCount(targetWidth, tileWidth, seamWidth), tileWidth, seamWidth)
      ensures canvas.Length0 == CanvasExtent(TileCount(targetHeight, tileHeight, seamHeight), tileHeight, seamHeight)
      ensures result.Some? ==>
        fresh(result.value) && result.value.Length0 == targetHeight && result.value.Length1 == targetWidth &&
        (forall r, c :: 0 <= r < targetHeight && 0 <= c < targetWidth ==> result.value[r, c] == canvas[r, c])
      ensures result.Some? ==>
        visited == GridOrigins(Visits(TileCount(targetWidth, tileWidth, seamWidth)),
                               Visits(TileCount(targetHeight, tileHeight, seamHeight)),
                               tileWidth, tileHeight, seamWidth, seamHeight)
      ensures result.None? ==>
        1 <= TileCount(targetWidth, tileWidth, seamWidth) && 1 <= TileCount(targetHeight, tileHeight, seamHeight)
      ensures result.None? ==>
        visited + [failedAt] <= GridOrigins(Visits(TileCount(targetWidth, tileWidth, seamWidth)),
                                            Visits(TileCount(targetHeight, tileHeight, seamHeight)),
                                            tileWidth, tileHeight, seamWidth, seamHeight) &&
        (SelectionUndefined(source, canvas, failedAt.0, failedAt.1) || PlacementUndefined(failedAt.0, failedAt.1))
      ensures (!mseSelection && tileWidth < source.Length1 && tileHeight < source.Length0 &&
               (minCut ==> 2 <= seamWidth && 2 <= seamHeight)) ==> result.Some?
    {
      var tileCountX := TileCount(targetWidth, tileWidth, seamWidth);
      var tileCountY := TileCount(targetHeight, tileHeight, seamHeight);
      var textureWidth := tileCountX * tileWidth - (tileCountX - 1) * seamWidth;
      var textureHeight := tileCountY * tileHeight - (tileCountY - 1) * seamHeight;
      CanvasCoversTarget(targetWidth, tileWidth, seamWidth);
      CanvasCoversTarget(targetHeight, tileHeight, seamHeight);
      var target := new Rgb[textureHeight, textureWidth]((_, _) => Black);
      canvas := target;
      visited := [];
      failedAt := (0, 0);
      ghost var countX := Visits(tileCountX);
      var tileY := 0;
      while tileY < tileCountY
        invariant 0 <= tileY && (tileY == 0 || tileY <= tileCountY)
        invariant visited == GridOrigins(countX, tileY, tileWidth, tileHeight, seamWidth, seamHeight)
      {
        var ok;
        ghost var row;
        ok, row, failedAt := QuiltRow(source, target, tileY, tileCountX, tileCountY, rng);
        if !ok {
          RowPrefixInGrid(countX, Visits(tileCountY), tileY, |row|, tileWidth, tileHeight, seamWidth, seamHeight);
          assert row + [failedAt] == RowOrigins(|row| + 1, tileY, tileWidth, tileHeight, seamWidth, seamHeight);
          assert visited + row + [failedAt] == visited + (row + [failedAt]);
          return None, canvas, visited + row, failedAt;
        }
        visited := visited + row;
        tileY := tileY + 1;
      }
      var cropped := Crop(target, targetWidth, targetHeight);
      return Some(cropped), canvas, visited, failedAt;
    }
  }
}
