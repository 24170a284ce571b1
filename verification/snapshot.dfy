/**
 * One view of the plane: its rectangle, the image being painted for it, and the
 * classification grid of the band task currently working on it. The source keeps one grid
 * per worker thread; here the band tasks run one after another, and each obtains a fresh
 * zero grid because the previous task discarded its own.
 */
module Snapshots {
  import opened Colors

  class Snapshot {
    /** The current band task's grid, or null when no task holds one. */
    var calculated: array2?<int>
    const image: array2<Paint>
    const x0: real
    const y0: real
    const x1: real
    const y1: real

    /** A grid, when present, has the image's shape. */
    ghost predicate Valid()
      reads this
    {
      calculated != null ==> calculated.Length0 == image.Length0 && calculated.Length1 == image.Length1
    }

    /** A snapshot of the rectangle with corners (x0, y0) and (x1, y1). */
    constructor (image: array2<Paint>, x0: real, y0: real, x1: real, y1: real)
      ensures Valid() && calculated == null
      ensures this.image == image
      ensures this.x0 == x0 && this.y0 == y0 && this.x1 == x1 && this.y1 == y1
    {
      this.calculated := null;
      this.image := image;
      this.x0, this.y0, this.x1, this.y1 := x0, y0, x1, y1;
    }

    /** A snapshot of the same rectangle as `prev`, painted on a new image. */
    constructor Copy(image: array2<Paint>, prev: Snapshot)
      ensures Valid() && calculated == null
      ensures this.image == image
      ensures x0 == prev.x0 && y0 == prev.y0 && x1 == prev.x1 && y1 == prev.y1
    {
      this.calculated := null;
      this.image := image;
      this.x0, this.y0, this.x1, this.y1 := prev.x0, prev.y0, prev.x1, prev.y1;
    }

    /**
     * The current task's grid: the one it already holds, or else a new all-unknown grid of
     * the image's shape, which it then holds.
     */
    method GetCalculated() returns (grid: array2<int>)
      requires Valid()
      modifies this`calculated
      ensures Valid() && calculated == grid
      ensures grid.Length0 == image.Length0 && grid.Length1 == image.Length1
      ensures old(calculated) != null ==> grid == old(calculated) && unchanged(grid)
      ensures old(calculated) == null ==> fresh(grid) && forall i, j :: 0 <= i < grid.Length0 && 0 <= j < grid.Length1 ==> grid[i, j] == 0
    {
      if calculated == null {
        calculated := new int[image.Length0, image.Length1]((_, _) => 0);
      }
      grid := calculated;
    }

    /** The task is done with its grid; the next task starts from a new one. */
    method FinishCalculation()
      modifies this`calculated
      ensures Valid() && calculated == null
    {
      calculated := null;
    }
  }
}
