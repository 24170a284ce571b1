/**
 * How one calculation is split into work: the sample coordinates of the pixel columns and
 * rows, the partition of the rows into horizontal bands, and the loop that classifies one
 * band by alternating the scan for a seed with the trace from that seed.
 */
module Bands {
  import opened Colors
  import opened Escape
  import opened Grid
  import opened Trace
  import Arith

  /**
   * The sample coordinates of `n` pixels spanning (lo, hi]: each step adds the interval
   * (hi - lo) / n, starting from lo, so the first pixel sits one interval past lo.
   */
  function SamplePoints(lo: real, hi: real, n: nat): (ps: seq<real>)
    requires n >= 1
    ensures |ps| == n
  {
    seq(n, (i: int) => lo + (i + 1) as real * ((hi - lo) / n as real))
  }

  /** The accumulating loop that builds the sample coordinates. */
  method Samples(lo: real, hi: real, n: nat) returns (ps: seq<real>)
    requires n >= 1
    ensures ps == SamplePoints(lo, hi, n)
  {
    var step := (hi - lo) / n as real;
    var p := lo;
    ps := [];
    var i := 0;
    while i < n
      invariant 0 <= i <= n && |ps| == i
      invariant p == lo + i as real * step
      invariant forall k :: 0 <= k < i ==> ps[k] == lo + (k + 1) as real * step
    {
      p := p + step;
      ps := ps + [p];
      i := i + 1;
    }
    assert forall k :: 0 <= k < n ==> ps[k] == SamplePoints(lo, hi, n)[k];
  }

  /** The last sample is the upper end, and on a proper interval the samples climb strictly inside (lo, hi]. */
  lemma SamplesSpan(lo: real, hi: real, n: nat)
    requires n >= 1
    ensures SamplePoints(lo, hi, n)[n - 1] == hi
    ensures lo < hi ==> forall k, l :: 0 <= k < l < n ==> SamplePoints(lo, hi, n)[k] < SamplePoints(lo, hi, n)[l]
    ensures lo < hi ==> forall k :: 0 <= k < n ==> lo < SamplePoints(lo, hi, n)[k] <= hi
  {
    var step := (hi - lo) / n as real;
    var ps := SamplePoints(lo, hi, n);
    assert n as real * step == hi - lo;
    if lo < hi {
      assert step > 0.0;
      forall k, l | 0 <= k < l < n
        ensures ps[k] < ps[l]
      {
        assert ps[l] - ps[k] == (l - k) as real * step;
      }
      forall k | 0 <= k < n
        ensures lo < ps[k] <= hi
      {
        assert hi - ps[k] == (n - 1 - k) as real * step;
      }
    }
  }

  /**
   * Entry t of the band bounds for n bands over h rows: 0 first, h last, and the row at
   * fraction t / n in between. When there are no bands the single entry is h.
   */
  function Bound(n: nat, h: nat, t: nat): (b: int)
    requires t <= n
    ensures 0 <= b <= h
  {
    if t == n then h
    else
      Arith.MulMonotone(t, n, h);
      Arith.DivMonotone(h * t, h * n, n);
      Arith.DivModUnique(h * n, n, h, 0);
      h * t / n
  }

  /** Fills the band bounds. */
  method ThreadBounds(n: nat, h: nat) returns (b: array<int>)
    ensures fresh(b) && b.Length == n + 1
    ensures forall t :: 0 <= t <= n ==> b[t] == Bound(n, h, t)
  {
    b := new int[n + 1];
    b[0] := 0;
    b[n] := h;
    var t := 1;
    while t < n
      invariant 1 <= t <= n + 1 && (n >= 1 ==> t <= n)
      invariant forall s :: 0 <= s <= n && (s < t || s == n) ==> b[s] == Bound(n, h, s)
    {
      b[t] := h * t / n;
      t := t + 1;
    }
  }

  /** Every bound lies in [0, h]; the first is 0 when there is a band and the last is h. */
  lemma BoundRange(n: nat, h: nat, t: nat)
    requires t <= n
    ensures 0 <= Bound(n, h, t) <= h
    ensures n >= 1 ==> Bound(n, h, 0) == 0
    ensures Bound(n, h, n) == h
  {
    if t < n {
      Arith.MulMonotone(t, n, h);
      assert t * h <= n * h;
      Arith.DivMonotone(h * t, h * n, n);
      Arith.DivModUnique(h * n, n, h, 0);
    }
  }

  /** The bounds never decrease. */
  lemma BoundMonotone(n: nat, h: nat, s: nat, t: nat)
    requires s <= t <= n
    ensures Bound(n, h, s) <= Bound(n, h, t)
  {
    if t == n {
      BoundRange(n, h, s);
    } else {
      Arith.MulMonotone(s, t, h);
      assert s * h <= t * h;
      Arith.DivMonotone(h * s, h * t, n);
    }
  }

  /** Each row of [0, h) lies in some band when there is at least one. */
  lemma RowInSomeBand(n: nat, h: nat, y: int)
    requires n >= 1 && 0 <= y < h
    ensures exists t :: 0 <= t < n && Bound(n, h, t) <= y < Bound(n, h, t + 1)
  {
    BoundRange(n, h, 0);
    RowInBandFrom(n, h, y, 0);
  }

  lemma {:induction false} RowInBandFrom(n: nat, h: nat, y: int, s: nat)
    requires s < n && Bound(n, h, s) <= y < h
    ensures exists t :: s <= t < n && Bound(n, h, t) <= y < Bound(n, h, t + 1)
    decreases n - s
  {
    if y >= Bound(n, h, s + 1) {
      BoundRange(n, h, n);
      RowInBandFrom(n, h, y, s + 1);
    }
  }

  /** No row lies in two bands. */
  lemma BandsDisjoint(n: nat, h: nat, s: nat, t: nat, y: int)
    requires s < t < n
    requires Bound(n, h, s) <= y < Bound(n, h, s + 1)
    ensures !(Bound(n, h, t) <= y < Bound(n, h, t + 1))
  {
    BoundMonotone(n, h, s + 1, t);
  }

  /**
   * A pixel is painted black, or it escapes and shows its own escape data. Black is all a
   * pixel inside the set can show; a pixel outside it may also be black when the fill
   * took it for interior.
   */
  ghost predicate Painted(ev: Evaluator, xs: seq<real>, ys: seq<real>, image: array2<Paint>, i: int, j: int)
    reads image
    requires 0 <= i < |xs| && 0 <= j < |ys| && image.Length0 == |xs| && image.Length1 == |ys|
  {
    image[i, j] == Solid(BLACK)
    || (PixelOutcome(ev, xs, ys, i, j).Escaped? && image[i, j] == Shade(PixelOutcome(ev, xs, ys, i, j)))
  }

  /**
   * One band task: scan for a seed from the last seed's column, trace from it, and repeat
   * until the scan finds none. Every pixel of the band ends classified and painted, and no
   * pixel outside the band changes.
   */
  method RunBand(ev: Evaluator, xs: seq<real>, ys: seq<real>, grid: array2<int>, image: array2<Paint>,
                 minY: int, maxY: int, fuel: nat)
    requires Shaped(xs, ys, grid, image) && Consistent(ev, xs, ys, grid, image)
    requires 0 <= minY <= maxY <= grid.Length1
    modifies grid, image
    ensures Consistent(ev, xs, ys, grid, image) && KnownKept(grid, image)
    ensures SameOutside(grid, image, 0, grid.Length0, minY, maxY)
    ensures forall i, j :: 0 <= i < grid.Length0 && minY <= j < maxY ==> IsCalculated(grid, i, j)
    ensures forall i, j :: 0 <= i < grid.Length0 && minY <= j < maxY ==> Painted(ev, xs, ys, image, i, j)
  {
    var w := grid.Length0;
    var pos: Option<(int, int)> := Some((0, minY));
    ghost var px, py := 0, minY - 1;
    while true
      invariant pos.Some? && pos.value.0 == px && 0 <= px <= w && minY - 1 <= py < maxY
      invariant Consistent(ev, xs, ys, grid, image) && KnownKept(grid, image)
      invariant SameOutside(grid, image, 0, w, minY, maxY)
      invariant forall i, j :: 0 <= i < w && minY <= j < maxY && (i < px || (i == px && j <= py)) ==> grid[i, j] != UNKNOWN
      decreases w - px, maxY - py
    {
      var seed := CalculateArea(ev, xs, ys, grid, image, minY, maxY, pos);
      TraceEdge(ev, xs, ys, grid, image, minY, maxY, seed, fuel);
      if seed.None? {
        assert forall i, j :: px <= i < w && minY <= j < maxY ==> Scanned(w, minY, maxY, px, seed, i, j);
        break;
      }
      px, py := seed.value.0, seed.value.1;
      pos := seed;
    }
    forall i, j | 0 <= i < w && minY <= j < maxY
      ensures IsCalculated(grid, i, j) && Painted(ev, xs, ys, image, i, j)
    {
      assert CellConsistent(ev, xs, ys, grid, image, i, j);
    }
  }
}
