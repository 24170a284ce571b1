/**
 * The older calculator. Its scan, trace and fill are those of the main one; it differs in
 * its fixed constants, its reference-point cycle check and its own static colour table.
 * The legacy settings record only supplies the scaled image size, passed here as numbers.
 */
module Legacy {
  import opened Colors
  import opened Escape
  import opened Grid
  import opened Bands
  import opened Snapshots
  import Palette
  import Calculation

  const INFINITY_THRESH: real := 65536.0
  const MAX_ITER: nat := 10000
  const COLOR_THICKNESS: nat := 12

  /** The three stop colours of the static table. */
  function Stops(): seq<Color> {
    [Blend(BLUE, BLACK, 0.75), ORANGE, RED]
  }

  /** The static colour table: MAX_ITER entries, twelve per stop, cycling through the three stops. */
  function ColorTable(): (t: seq<Color>)
    ensures |t| == MAX_ITER
    ensures forall x :: 0 <= x < MAX_ITER && x % 12 == 0 ==> t[x] == Stops()[(x % 36) / 12]
  {
    Palette.Table(Stops(), COLOR_THICKNESS, MAX_ITER)
  }

  /**
   * The table has one entry per iteration; an entry at a multiple of twelve within its
   * 36-entry cycle is exactly a stop, the first entry the first stop, and other entries
   * blend a stop with the next at a fraction strictly between 0 and 1.
   */
  lemma ColorTableShape(x: nat)
    requires x < MAX_ITER
    ensures |ColorTable()| == MAX_ITER
    ensures ColorTable()[0] == Stops()[0]
    ensures (x % 36) % 12 == 0 ==> (x % 36) / 12 < 3 && ColorTable()[x] == Stops()[(x % 36) / 12]
    ensures (x % 36) % 12 != 0 ==> ColorTable()[x].Blend? && 0.0 < ColorTable()[x].frac < 1.0
  {
    Palette.FirstEntryIsFirstStop(Stops(), COLOR_THICKNESS);
    if (x % 36) % 12 == 0 {
      Palette.EntryAtStop(Stops(), COLOR_THICKNESS, x);
    } else {
      Palette.EntryBetweenStops(Stops(), COLOR_THICKNESS, x);
    }
  }

  /** The table repeats every 36 entries. */
  lemma ColorTablePeriodic(x: nat)
    requires x + 36 < MAX_ITER
    ensures ColorTable()[x] == ColorTable()[x + 36]
  {
    Palette.TablePeriodic(Stops(), COLOR_THICKNESS, MAX_ITER, x);
  }

  /** `evalPoint`: the reference-point check, MAX_ITER iterations, continuing while the squared modulus is below 2^16. */
  function LegacyEvaluator(): (ev: Evaluator)
    ensures ev.policy == Reference && ev.maxIter == MAX_ITER
    ensures forall m2 :: Inside(ev, m2) <==> m2 < 65536.0
  {
    Evaluator(Reference, false, MAX_ITER, INFINITY_THRESH)
  }

  /** `evalPointFast`: the same check and limit, continuing while the squared modulus is at most 2^16. */
  function FastEvaluator(): (ev: Evaluator)
    ensures ev.policy == Reference && ev.maxIter == MAX_ITER
    ensures forall m2 :: Inside(ev, m2) <==> m2 <= 65536.0
  {
    Evaluator(Reference, true, MAX_ITER, INFINITY_THRESH)
  }

  /**
   * A point beyond radius 2 whose orbit reaches the threshold before MAX_ITER iterations is
   * exterior under `evalPoint`: the orbit moves strictly outward, so the reference check
   * never fires.
   */
  lemma LegacyExteriorBeyondTwo(c: Point, n: nat)
    requires Norm2(c) > 4.0 && n < MAX_ITER && Modulus2(Orbit(c, n)) >= INFINITY_THRESH
    ensures Classify(c, LegacyEvaluator()).Escaped? && Classify(c, LegacyEvaluator()).iter <= n
  {
    ExteriorBeyondTwo(c, LegacyEvaluator(), n);
  }

  /** The same for `evalPointFast`, whose loop goes on at the threshold itself. */
  lemma FastExteriorBeyondTwo(c: Point, n: nat)
    requires Norm2(c) > 4.0 && n < MAX_ITER && Modulus2(Orbit(c, n)) > INFINITY_THRESH
    ensures Classify(c, FastEvaluator()).Escaped? && Classify(c, FastEvaluator()).iter <= n
  {
    ExteriorBeyondTwo(c, FastEvaluator(), n);
  }

  /** An exterior verdict of `evalPoint` comes below the limit, with the squared modulus at or past the threshold. */
  lemma LegacyExteriorBelowLimit(c: Point)
    requires Classify(c, LegacyEvaluator()).Escaped?
    ensures Classify(c, LegacyEvaluator()).iter < MAX_ITER
    ensures Classify(c, LegacyEvaluator()).modulus2 >= INFINITY_THRESH
  {
    var o := Classify(c, LegacyEvaluator());
    EscapedIff(OrbitOf(c), LegacyEvaluator(), o.iter, o.modulus2);
  }

  /** An exterior verdict of `evalPointFast` comes below the limit, with the squared modulus past the threshold. */
  lemma FastExteriorBelowLimit(c: Point)
    requires Classify(c, FastEvaluator()).Escaped?
    ensures Classify(c, FastEvaluator()).iter < MAX_ITER
    ensures Classify(c, FastEvaluator()).modulus2 > INFINITY_THRESH
  {
    var o := Classify(c, FastEvaluator());
    EscapedIff(OrbitOf(c), FastEvaluator(), o.iter, o.modulus2);
  }

  /**
   * The legacy calculation: the same sampling and bands as the main one, every pixel
   * evaluated by `evalPoint`. With at least one band every pixel ends black or painted
   * with its own escape data.
   */
  method Calculate(snapshot: Snapshot, scaledWidth: int, scaledHeight: int, calcThreads: nat, fuel: nat)
    requires scaledWidth >= 1 && scaledHeight >= 1
    requires snapshot.Valid() && snapshot.calculated == null
    requires snapshot.image.Length0 == scaledWidth && snapshot.image.Length1 == scaledHeight
    modifies snapshot`calculated, snapshot.image
    ensures snapshot.Valid() && snapshot.calculated == null
    ensures calcThreads >= 1 ==>
      var xs := SamplePoints(snapshot.x0, snapshot.x1, scaledWidth);
      var ys := SamplePoints(snapshot.y0, snapshot.y1, scaledHeight);
      forall i, j :: 0 <= i < |xs| && 0 <= j < |ys| ==> Painted(LegacyEvaluator(), xs, ys, snapshot.image, i, j)
    ensures calcThreads == 0 ==> unchanged(snapshot.image)
  {
    var xs := Samples(snapshot.x0, snapshot.x1, scaledWidth);
    var ys := Samples(snapshot.y0, snapshot.y1, scaledHeight);
    Calculation.CalculateBands(LegacyEvaluator(), snapshot, xs, ys, calcThreads, fuel);
  }
}
