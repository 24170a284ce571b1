/**
 * The classification grid of one snapshot and the two operations that fill it pixel by pixel:
 * the memoised per-pixel evaluation and the column-major scan for the next interior seed.
 *
 * The grid is indexed [x, y] like the source's `byte[width][height]`; its cells hold
 * 0 (unknown), 1 (exterior) or 2 (interior). The image has the same shape. The sample
 * coordinates of column x and row y are `xs[x]` and `ys[y]`.
 */
module Grid {
  import opened Colors
  import opened Escape

  const UNKNOWN: int := 0
  const EXTERIOR: int := 1
  const INTERIOR: int := 2

  /** What the evaluator says about pixel (x, y). */
  function PixelOutcome(ev: Evaluator, xs: seq<real>, ys: seq<real>, x: int, y: int): Outcome
    requires 0 <= x < |xs| && 0 <= y < |ys|
  {
    Classify(Point(xs[x], ys[y]), ev)
  }

  /** The paint a pixel gets once evaluated: black inside, the escape data outside. */
  function Shade(o: Outcome): (p: Paint)
    ensures o == Bounded <==> p == Solid(BLACK)
    ensures o.Escaped? ==> p == Shaded(o.iter, o.modulus2)
  {
    match o
    case Escaped(n, m2) => Shaded(n, m2)
    case Bounded => Solid(BLACK)
  }

  /** A pixel is calculated once it holds a verdict: never while unknown, always once exterior or interior. */
  predicate IsCalculated(grid: array2<int>, x: int, y: int)
    reads grid
    requires 0 <= x < grid.Length0 && 0 <= y < grid.Length1
    ensures grid[x, y] == UNKNOWN ==> !IsCalculated(grid, x, y)
    ensures grid[x, y] == EXTERIOR || grid[x, y] == INTERIOR ==> IsCalculated(grid, x, y)
  {
    grid[x, y] > 0
  }

  /** A pixel is in the set only once calculated, and never when exterior. */
  predicate IsInSet(grid: array2<int>, x: int, y: int)
    reads grid
    requires 0 <= x < grid.Length0 && 0 <= y < grid.Length1
    ensures IsInSet(grid, x, y) ==> IsCalculated(grid, x, y)
    ensures grid[x, y] == EXTERIOR ==> !IsInSet(grid, x, y)
  {
    grid[x, y] == INTERIOR
  }

  /** The sample coordinates cover the grid and the image has the grid's shape. */
  predicate Shaped(xs: seq<real>, ys: seq<real>, grid: array2<int>, image: array2<Paint>) {
    && grid.Length0 == image.Length0 == |xs|
    && grid.Length1 == image.Length1 == |ys|
  }

  predicate InGrid(grid: array2<int>, i: int, j: int) {
    0 <= i < grid.Length0 && 0 <= j < grid.Length1
  }

  /**
   * A cell is unknown, interior and painted black, or exterior, painted with its escape
   * data, and really outside according to the evaluator.
   */
  ghost predicate CellConsistent(ev: Evaluator, xs: seq<real>, ys: seq<real>, grid: array2<int>, image: array2<Paint>, i: int, j: int)
    reads grid, image
    requires Shaped(xs, ys, grid, image) && InGrid(grid, i, j)
  {
    var g := grid[i, j];
    && (g == UNKNOWN || g == EXTERIOR || g == INTERIOR)
    && (g == INTERIOR ==> image[i, j] == Solid(BLACK))
    && (g == EXTERIOR ==> PixelOutcome(ev, xs, ys, i, j).Escaped? && image[i, j] == Shade(PixelOutcome(ev, xs, ys, i, j)))
  }

  ghost predicate Consistent(ev: Evaluator, xs: seq<real>, ys: seq<real>, grid: array2<int>, image: array2<Paint>)
    reads grid, image
    requires Shaped(xs, ys, grid, image)
  {
    forall i, j :: InGrid(grid, i, j) ==> CellConsistent(ev, xs, ys, grid, image, i, j)
  }

  /** Known cells keep their value and their paint. */
  twostate predicate KnownKept(grid: array2<int>, image: array2<Paint>)
    reads grid, image
    requires grid.Length0 == image.Length0 && grid.Length1 == image.Length1
  {
    forall i, j :: InGrid(grid, i, j) && old(grid[i, j]) != UNKNOWN ==> grid[i, j] == old(grid[i, j]) && image[i, j] == old(image[i, j])
  }

  /** Cells outside columns [x0, x1) and rows [y0, y1) keep their value and their paint. */
  twostate predicate SameOutside(grid: array2<int>, image: array2<Paint>, x0: int, x1: int, y0: int, y1: int)
    reads grid, image
    requires grid.Length0 == image.Length0 && grid.Length1 == image.Length1
  {
    forall i, j :: InGrid(grid, i, j) && !(x0 <= i < x1 && y0 <= j < y1) ==> grid[i, j] == old(grid[i, j]) && image[i, j] == old(image[i, j])
  }

  /**
   * The memoised evaluation of one pixel. A known pixel answers from the grid; an unknown one
   * runs the evaluator's loop, records 1 or 2 and its paint, and answers whether it wrote 2.
   */
  method EvalPoint(ev: Evaluator, xs: seq<real>, ys: seq<real>, grid: array2<int>, image: array2<Paint>, x: int, y: int)
    returns (inSet: bool)
    requires Shaped(xs, ys, grid, image) && InGrid(grid, x, y)
    requires Consistent(ev, xs, ys, grid, image)
    modifies grid, image
    ensures Consistent(ev, xs, ys, grid, image)
    ensures old(grid[x, y]) != UNKNOWN ==> inSet == (old(grid[x, y]) == INTERIOR) && unchanged(grid) && unchanged(image)
    ensures old(grid[x, y]) == UNKNOWN ==>
      && inSet == (PixelOutcome(ev, xs, ys, x, y) == Bounded)
      && grid[x, y] == (if inSet then INTERIOR else EXTERIOR)
      && image[x, y] == Shade(PixelOutcome(ev, xs, ys, x, y))
    ensures inSet <==> grid[x, y] == INTERIOR
    ensures SameOutside(grid, image, x, x + 1, y, y + 1)
  {
    if IsCalculated(grid, x, y) {
      return IsInSet(grid, x, y);
    }
    var c := Point(xs[x], ys[y]);
    var out;
    if ev.policy == SeenSets {
      out := IterateSets(c, ev);
    } else {
      out := IterateReference(c, ev);
    }
    if out.Escaped? {
      image[x, y] := Shade(out);
      grid[x, y] := EXTERIOR;
      inSet := false;
    } else {
      image[x, y] := Solid(BLACK);
      grid[x, y] := INTERIOR;
      inSet := true;
    }
    assert CellConsistent(ev, xs, ys, grid, image, x, y);
  }

  /** (i, j) comes strictly before (x, y) in the column-major scan order. */
  predicate ScanBefore(i: int, j: int, x: int, y: int) {
    i < x || (i == x && j < y)
  }

  /** The cells a scan from column sx visits before it stops at `seed` (or all of them). */
  predicate Scanned(w: int, minY: int, maxY: int, sx: int, seed: Option<(int, int)>, i: int, j: int) {
    sx <= i < w && minY <= j < maxY && (seed.None? || ScanBefore(i, j, seed.value.0, seed.value.1))
  }

  datatype Option<T> = None | Some(value: T)

  /**
   * The scan of one band from column `start.0` onward: it evaluates the unknown pixels
   * column by column and stops at the first one that is interior, which it returns.
   * Every unknown pixel it passes becomes exterior; nothing else changes.
   */
  method CalculateArea(ev: Evaluator, xs: seq<real>, ys: seq<real>, grid: array2<int>, image: array2<Paint>,
                       minY: int, maxY: int, start: Option<(int, int)>)
    returns (seed: Option<(int, int)>)
    requires Shaped(xs, ys, grid, image) && Consistent(ev, xs, ys, grid, image)
    requires 0 <= minY <= maxY <= grid.Length1
    requires start.Some? ==> 0 <= start.value.0
    modifies grid, image
    ensures Consistent(ev, xs, ys, grid, image) && KnownKept(grid, image)
    ensures start.None? ==> seed.None? && unchanged(grid) && unchanged(image)
    ensures seed.Some? ==>
      var (x, y) := seed.value;
      && start.Some? && start.value.0 <= x < grid.Length0 && minY <= y < maxY
      && old(grid[x, y]) == UNKNOWN && grid[x, y] == INTERIOR
      && PixelOutcome(ev, xs, ys, x, y) == Bounded
    ensures start.Some? ==> forall i, j :: Scanned(grid.Length0, minY, maxY, start.value.0, seed, i, j) ==>
      grid[i, j] == (if old(grid[i, j]) == UNKNOWN then EXTERIOR else old(grid[i, j]))
    ensures forall i, j ::
      (InGrid(grid, i, j) && !(start.Some? && Scanned(grid.Length0, minY, maxY, start.value.0, seed, i, j))
       && !(seed.Some? && seed.value == (i, j)))
      ==> grid[i, j] == old(grid[i, j]) && image[i, j] == old(image[i, j])
  {
    if start.None? {
      return None;
    }
    var sx := start.value.0;
    var x := sx;
    while x < grid.Length0
      invariant sx <= x && (x <= grid.Length0 || x == sx)
      invariant Consistent(ev, xs, ys, grid, image) && KnownKept(grid, image)
      invariant forall i, j :: sx <= i < x && minY <= j < maxY ==>
        grid[i, j] == (if old(grid[i, j]) == UNKNOWN then EXTERIOR else old(grid[i, j]))
      invariant forall i, j :: InGrid(grid, i, j) && !(sx <= i < x && minY <= j < maxY) ==>
        grid[i, j] == old(grid[i, j]) && image[i, j] == old(image[i, j])
    {
      var y := minY;
      while y < maxY
        invariant minY <= y <= maxY
        invariant Consistent(ev, xs, ys, grid, image) && KnownKept(grid, image)
        invariant forall i, j :: ((sx <= i < x && minY <= j < maxY) || (i == x && minY <= j < y)) ==>
          grid[i, j] == (if old(grid[i, j]) == UNKNOWN then EXTERIOR else old(grid[i, j]))
        invariant forall i, j :: InGrid(grid, i, j) && !((sx <= i < x && minY <= j < maxY) || (i == x && minY <= j < y)) ==>
          grid[i, j] == old(grid[i, j]) && image[i, j] == old(image[i, j])
      {
        if !IsCalculated(grid, x, y) {
          var inSet := EvalPoint(ev, xs, ys, grid, image, x, y);
          if inSet {
            return Some((x, y));
          }
        }
        y := y + 1;
      }
      x := x + 1;
    }
    return None;
  }
}
