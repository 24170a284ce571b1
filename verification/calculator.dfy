/**
 * The calculation of one snapshot: sample coordinates for the columns and rows, the rows
 * split into bands, and each band classified and painted by its own task. The tasks run
 * one after another here; each takes a fresh grid and discards it when done.
 */
module Calculation {
  import opened Colors
  import opened Escape
  import opened Grid
  import opened Bands
  import opened Snapshots
  import opened Configuration

  /**
   * The band loop shared by both calculators: `calcThreads` bands over the image's rows,
   * each run on a fresh grid. With at least one band every pixel ends painted; with none
   * the image is left as it was.
   */
  method CalculateBands(ev: Evaluator, snapshot: Snapshot, xs: seq<real>, ys: seq<real>, calcThreads: nat, fuel: nat)
    requires snapshot.Valid() && snapshot.calculated == null
    requires |xs| == snapshot.image.Length0 && |ys| == snapshot.image.Length1
    modifies snapshot`calculated, snapshot.image
    ensures snapshot.Valid() && snapshot.calculated == null
    ensures calcThreads >= 1 ==>
      forall i, j :: 0 <= i < |xs| && 0 <= j < |ys| ==> Painted(ev, xs, ys, snapshot.image, i, j)
    ensures calcThreads == 0 ==> unchanged(snapshot.image)
  {
    var image := snapshot.image;
    var bounds := ThreadBounds(calcThreads, |ys|);
    BoundRange(calcThreads, |ys|, 0);
    var t := 0;
    while t < calcThreads
      invariant 0 <= t <= calcThreads
      invariant snapshot.Valid() && snapshot.calculated == null
      invariant forall k :: 0 <= k <= calcThreads ==> bounds[k] == Bound(calcThreads, |ys|, k)
      invariant 0 <= bounds[t] <= |ys|
      invariant calcThreads >= 1 ==> forall i, j :: 0 <= i < |xs| && 0 <= j < bounds[t] ==> Painted(ev, xs, ys, image, i, j)
      invariant calcThreads == 0 ==> unchanged(image)
    {
      var minY, maxY := bounds[t], bounds[t + 1];
      BoundMonotone(calcThreads, |ys|, t, t + 1);
      BoundRange(calcThreads, |ys|, t + 1);
      var grid := snapshot.GetCalculated();
      assert Consistent(ev, xs, ys, grid, image) by {
        forall i, j | InGrid(grid, i, j)
          ensures CellConsistent(ev, xs, ys, grid, image, i, j)
        {
          assert grid[i, j] == UNKNOWN;
        }
      }
      label BeforeBand:
      RunBand(ev, xs, ys, grid, image, minY, maxY, fuel);
      forall i, j | 0 <= i < |xs| && 0 <= j < minY
        ensures Painted(ev, xs, ys, image, i, j)
      {
        assert image[i, j] == old@BeforeBand(image[i, j]);
        assert old@BeforeBand(Painted(ev, xs, ys, image, i, j));
      }
      snapshot.FinishCalculation();
      t := t + 1;
    }
    BoundRange(calcThreads, |ys|, calcThreads);
  }

  /**
   * The evaluator the settings select: double precision compares the squared modulus with
   * `<=` against its own threshold, arbitrary precision with `<`. Both use the seen-sets
   * cycle check and the configured iteration limit (a negative limit runs no iteration,
   * like a limit of zero).
   */
  function MainEvaluator(settings: Settings): (ev: Evaluator)
    reads settings
    ensures ev.policy == SeenSets
    ensures ev.maxIter as int == if settings.maxIter < 0 then 0 else settings.maxIter
    ensures settings.doublePrecision ==> forall m2 :: Inside(ev, m2) <==> m2 <= settings.infThreshDouble
    ensures !settings.doublePrecision ==> forall m2 :: Inside(ev, m2) <==> m2 < settings.infThreshArbitrary
  {
    Evaluator(SeenSets, settings.doublePrecision,
              if settings.maxIter < 0 then 0 else settings.maxIter,
              if settings.doublePrecision then settings.infThreshDouble else settings.infThreshArbitrary)
  }

  class Calculator {
    const settings: Settings
    /** Snapshots handed over for calculation, oldest first. */
    var queue: seq<Snapshot>

    constructor (settings: Settings)
      ensures this.settings == settings && queue == []
    {
      this.settings := settings;
      queue := [];
    }

    /** Hands a snapshot over for calculation. */
    method Submit(snapshot: Snapshot)
      modifies this`queue
      ensures queue == old(queue) + [snapshot]
    {
      queue := queue + [snapshot];
    }

    /**
     * Calculates a snapshot with `calcThreads` band tasks. The sample coordinates step
     * across the snapshot's rectangle; with at least one task every pixel ends black or
     * painted with its own escape data.
     */
    method Calculate(snapshot: Snapshot, calcThreads: nat, fuel: nat)
      requires settings.Valid()
      requires snapshot.Valid() && snapshot.calculated == null
      requires snapshot.image.Length0 == settings.ScaledWidth() && snapshot.image.Length1 == settings.ScaledHeight()
      modifies snapshot`calculated, snapshot.image
      ensures snapshot.Valid() && snapshot.calculated == null
      ensures calcThreads >= 1 ==>
        var xs := SamplePoints(snapshot.x0, snapshot.x1, settings.ScaledWidth());
        var ys := SamplePoints(snapshot.y0, snapshot.y1, settings.ScaledHeight());
        forall i, j :: 0 <= i < |xs| && 0 <= j < |ys| ==> Painted(MainEvaluator(settings), xs, ys, snapshot.image, i, j)
      ensures calcThreads == 0 ==> unchanged(snapshot.image)
    {
      var xs := Samples(snapshot.x0, snapshot.x1, settings.ScaledWidth());
      var ys := Samples(snapshot.y0, snapshot.y1, settings.ScaledHeight());
      CalculateBands(MainEvaluator(settings), snapshot, xs, ys, calcThreads, fuel);
    }
  }
}
