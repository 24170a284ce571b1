# Mandelbrot viewer calculation engine, in Dafny

This project models the calculation engine of a Java Mandelbrot viewer, with its snapshot and
zoom-history bookkeeping, and proves properties of the model.

- **Per-pixel classifier** (`escape.dfy`, `grid.dfy`). The escape-time loop z := z² + c runs
  over exact reals. There are two cycle checks. The main variant keeps a set of seen real
  parts and a set of seen imaginary parts. The legacy variant compares with a reference point
  that it replaces every 21 iterations. `Grid.EvalPoint` is the memoised per-pixel step: a
  known pixel answers from the grid; an unknown one is evaluated and gets 1 (exterior) or 2
  (interior, painted black).
- **Scan, trace and fill** (`grid.dfy`, `trace.dfy`). `Grid.CalculateArea` scans a band
  column by column for the next interior seed. `Trace.Walk` is the wall-following walker; it
  records SET and EXT markers in a grid padded by one pixel. `Trace.ParityFill` marks black
  every unknown pixel that is closed off by SET markers above it and to its left.
- **Bands** (`bands.dfy`, `calculator.dfy`). The sample coordinates, the band bounds, the
  scan-and-trace loop of one band, and the loop over bands. With at least one band, every
  pixel ends black or painted with its own escape data.
- **Palette** (`palette.dfy`, `settings.dfy`, `legacy.dfy`). The cyclic colour table built
  from the stop colours. `java.awt.Color` and `Util.blend` stay opaque: a colour is an RGB
  triple or an unevaluated blend.
- **Snapshot and SnapshotProvider** (`snapshot.dfy`, `provider.dfy`). A snapshot holds a view
  rectangle, an image and the grid of its current band task. The provider holds the current
  snapshot and a stack of earlier ones, and changes them on zoom in, zoom out and repaint.
- **Legacy calculator** (`legacy.dfy`). Its own constants, the `evalPoint` evaluator and its
  static colour table. It reuses the shared scan, trace, fill and band loop.

Some choices about how the source is represented:

- The grid is `array2<int>` indexed `[x, y]`, like the source's `byte[width][height]`. The
  image is `array2<Paint>`.
- Band tasks run one after another. Each takes a fresh all-zero grid from its snapshot and
  discards it when done; this stands in for the `ThreadLocal` grid of each worker thread.
- `Calculator.submit` appends to a queue field. It does not run anything.
- The mouse position, the CPU count (`CALC_THREADS`) and the walker's round budget are
  parameters.
- With `CALC_THREADS == 0` (a single core) there are no bands, and the image is left
  unchanged (`Calculation.CalculateBands`).
- The legacy `evalPointFast` is modelled (`Legacy.FastEvaluator`), but the legacy `calculate`
  never calls it, so `Legacy.Calculate` uses `Legacy.LegacyEvaluator` only.

## Model

Source paths are relative to the repository root.

| member | source | states |
|---|---|---|
| Escape.IterateSets | src/main/java/mandelbrot/Calculator.java:220-257 | the seen-sets loop, which runs at most maxIter times, returns exactly the outcome `Classify` defines (escape count and squared modulus, or interior), for either threshold test |
| Escape.IterateReference | src/mandelbrot/Calculator.java:221-267 | the reference-point loop (reference stored on the first iteration, replaced whenever `period` passes 20) returns exactly the outcome `Classify` defines |
| Escape.RunEscapes | src/main/java/mandelbrot/Calculator.java:230-244 | from iteration j, the loop reports escape at n with the squared modulus of z_n iff every iteration from j to n passed the guard without a cycle and z_n is outside the threshold |
| Escape.AdvanceIsSquarePlus | src/main/java/mandelbrot/Calculator.java:231-234 | one pass of the loop body, which computes the imaginary part from the old real part and keeps the squares alongside, computes z·z + c and again carries the squares of the new iterate |
| Escape.OrbitIsIteration | src/main/java/mandelbrot/Calculator.java:222-236 | the loop's iterates are z_0 = 0 and z_(k+1) = z_k·z_k + c, each carrying its own squares |
| Escape.Run | src/main/java/mandelbrot/Calculator.java:230-244 | an escape reported from iteration k comes at an iteration from k on and below `maxIter`, carries the squared modulus of that iterate, and that modulus fails the threshold test |
| Escape.Classify | src/main/java/mandelbrot/Calculator.java:230-257 | an exterior verdict for c comes below `maxIter` with the squared modulus of that iterate of c outside the threshold; a limit of 0 iterations gives interior |
| Escape.OrbitGrows | src/mandelbrot/Calculator.java:231-236 | for \|c\| > 2 the squared modulus of the iterates strictly increases, and from z_1 = c on it is at least \|c\|² |
| Escape.NoReferenceCycle | src/mandelbrot/Calculator.java:238-251 | for \|c\| > 2 the reference-point check never fires, because no iterate equals an earlier one |
| Escape.ExteriorBeyondTwo | src/mandelbrot/Calculator.java:231-254 | under the reference-point check, a point with \|c\| > 2 whose orbit fails the threshold test at some iteration below the limit is exterior, escaping at or before that iteration |
| Escape.EscapedIff | src/main/java/mandelbrot/Calculator.java:230-244 | a pixel is exterior with count n and modulus m iff n < maxIter, m is the squared modulus of z_n, z_n fails the threshold test (`≥` under `<`, `>` under `<=`), and no earlier iteration stopped or saw a cycle |
| Escape.BoundedIff | src/main/java/mandelbrot/Calculator.java:244-257 | a pixel is interior iff no iterate below the limit reached before a cycle leaves the threshold |
| Escape.StaysInsideIsBounded | src/main/java/mandelbrot/Calculator.java:230-257 | an orbit that stays inside the threshold for maxIter iterations is interior, cycle or no cycle |
| Escape.OriginFixed | src/main/java/mandelbrot/Calculator.java:231-235 | the orbit of c = 0 stays at 0 with both squares 0 |
| Escape.OriginIsInterior | src/main/java/mandelbrot/Calculator.java:230-257 | every evaluator whose threshold admits 0 classifies c = 0 as interior |
| Escape.TwoPlusTwoIOrbit | src/main/java/mandelbrot/Calculator.java:276-279 | the first three iterates of c = 2+2i, with the imaginary part computed from the old real part: 2+2i, 2+10i, -94+42i |
| Escape.TwoPlusTwoIEscapesAtThree | src/main/java/mandelbrot/Calculator.java:275-288 | with the default double settings (`<=` 1000, 10000 iterations), 2+2i is exterior at iteration 3 with squared modulus 10600 |
| Escape.XSeenIff | src/main/java/mandelbrot/Calculator.java:238 | a value is in `xSet` after n iterations iff it was the real part of some z_1..z_n |
| Escape.YSeenIff | src/main/java/mandelbrot/Calculator.java:238 | a value is in `ySet` iff it was the imaginary part of some z_i whose real part had already been seen: `ySet` only grows when x repeated, because `&&` short-circuits |
| Escape.SetsCycleMeaning | src/main/java/mandelbrot/Calculator.java:238-241 | the main cycle check fires only when the new real part and the new imaginary part each equal one of some earlier iterate, not necessarily the same one |
| Escape.RefIndexBounds | src/mandelbrot/Calculator.java:246-251 | the reference after iteration k is an earlier or equal iterate at most 20 steps back |
| Escape.RefIndexNext | src/mandelbrot/Calculator.java:246-251 | `period` counts iterations modulo 21, and the reference is replaced exactly when it wraps |
| Escape.SquaresTracked | src/main/java/mandelbrot/Calculator.java:233-234 | the squares the loop carries are the squares of the current iterate |
| Escape.RepeatsEarlier | src/mandelbrot/Calculator.java:241-243 | once z_k equals z_j (j < k), every later iterate equals one of z_0..z_(k-1), so the orbit is bounded |
| Escape.ReferenceCycleIsPeriodic | src/mandelbrot/Calculator.java:238-251 | when the legacy check fires at iteration k, z_k equals the reference iterate at most 21 steps back, and the whole orbit repeats with that period |
| Grid.IsCalculated | src/main/java/mandelbrot/Calculator.java:198-200 | an unknown pixel is not calculated, and an exterior or interior one is |
| Grid.IsInSet | src/main/java/mandelbrot/Calculator.java:202-204 | a pixel in the set is calculated, and an exterior pixel is never in the set |
| Grid.Shade | src/main/java/mandelbrot/Calculator.java:244-257 | an interior outcome gets black and nothing else does; an exterior one gets its escape count and squared modulus |
| Grid.EvalPoint | src/main/java/mandelbrot/Calculator.java:206-302 | a known pixel answers `grid == 2` and changes nothing; an unknown one gets 2 and black iff the evaluator says interior, else 1 and its escape paint; only that cell changes; the grid stays consistent with the evaluator |
| Grid.CalculateArea | src/main/java/mandelbrot/Calculator.java:85-103 | a seed lies in columns `[start.0, W)` and the band's rows, was unknown, is now 2 and is really interior; every unknown pixel scanned before it is now 1; no other pixel changes; known pixels keep their values; no start gives no seed and no change |
| Trace.External | src/main/java/mandelbrot/Calculator.java:132-136 | the outer side of a step is the step turned a quarter turn |
| Trace.Opposite | src/main/java/mandelbrot/Calculator.java:126-130 | the opposite direction negates both offsets |
| Trace.InBounds | src/main/java/mandelbrot/Calculator.java:189-196 | a choice is in bounds exactly when the neighbour in that direction lies in columns `[minX, maxX)` and rows `[minY, maxY)` |
| Trace.Decisions | src/main/java/mandelbrot/Calculator.java:120-124 | after a step in d the walker tries the outer side, d, and the inner side, and never turns straight back |
| Trace.InBoundsNeighbour | src/main/java/mandelbrot/Calculator.java:146-157 | an in-bounds neighbour of a region pixel is in the region, and every marker index the walker writes fits the padded `(W+2) × (maxY-minY+2)` array |
| Trace.TryChoice | src/main/java/mandelbrot/Calculator.java:145-158 | the walker moves iff the neighbour is in bounds and interior; a move writes SET on the neighbour and EXT on the neighbour's outer side, a failed in-bounds choice writes EXT on the neighbour, and no other marker changes; an out-of-bounds choice changes nothing; afterwards the neighbour, when in bounds, is calculated; only the neighbour's pixel can change; SET markers sit only on interior region pixels |
| Trace.RecordChoice | src/main/java/mandelbrot/Calculator.java:150-158 | after a move, SET on the neighbour and EXT on its outer side (the EXT write never lands on the SET cell); otherwise EXT on the neighbour; every other marker is unchanged and SET markers stay on interior region pixels |
| Trace.Attempt | src/main/java/mandelbrot/Calculator.java:145-158 | choice k of a round, as the round sees it: a move goes to an open, in-region neighbour with SET on it and EXT on its outer side; otherwise the choice is refused (blocked, with EXT on the neighbour when in bounds); choices refused before stay refused; only this choice's markers change |
| Trace.Step | src/main/java/mandelbrot/Calculator.java:144-159 | one round tries the three choices in order and stops at the first open one (`continue search`); with `tried` the number of choices tried, a move takes choice `tried - 1` into an interior region pixel, with SET on it and EXT on its outer side, and every earlier choice was refused (out of bounds, or calculated exterior with EXT on it); no move means all three were tried and refused; no other marker changes, so untried choices are untouched; the grid stays consistent, calculated pixels keep their value and paint, and nothing outside the region changes |
| Trace.Walk | src/main/java/mandelbrot/Calculator.java:142-166 | the walk keeps the grid consistent, changes only unknown pixels in columns `[seed.x, W)` of the band, and leaves SET markers only on interior region pixels |
| Trace.FillColumn | src/main/java/mandelbrot/Calculator.java:171-185 | one column of the fill: a pixel becomes 2 and black iff it was unknown and its nearest markers above and to the left are SET; the row flags are carried to the next column |
| Trace.ParityFill | src/main/java/mandelbrot/Calculator.java:168-186 | the fill changes only pixels that were unknown, only to 2 and black, only in columns `≥ seed.x` of the band; a pixel is filled iff its nearest marker at or above it (from `minY`) and its nearest marker at or left of it (from `seed.x`) are both SET |
| Trace.EnclosedLiesInsideTrace | src/main/java/mandelbrot/Calculator.java:168-186 | a pixel the fill marks has an interior pixel of the traced edge strictly above it in its column and strictly to its left in its row |
| Trace.TraceEdge | src/main/java/mandelbrot/Calculator.java:105-187 | a trace keeps the grid consistent, changes only unknown pixels in columns `[seed.x, W)` of the band, and does nothing without a seed |
| Bands.SamplePoints | src/main/java/mandelbrot/Calculator.java:35-49 | there is one sample per pixel |
| Bands.Samples | src/main/java/mandelbrot/Calculator.java:39-43 | the accumulating loop yields sample i = lo + (i+1)·(hi-lo)/n |
| Bands.SamplesSpan | src/main/java/mandelbrot/Calculator.java:35-49 | the last sample is the upper corner; on a proper interval the samples increase strictly and lie in (lo, hi] |
| Bands.Bound | src/main/java/mandelbrot/Calculator.java:51-56 | each band bound lies in [0, h] |
| Bands.ThreadBounds | src/main/java/mandelbrot/Calculator.java:51-56 | the bounds array has `CALC_THREADS + 1` entries: 0, then row `h·t/n`, then h (just h when there are no bands) |
| Bands.BoundRange | src/main/java/mandelbrot/Calculator.java:51-56 | every bound lies in [0, h], the first is 0 when there is a band, and the last is h |
| Bands.BoundMonotone | src/main/java/mandelbrot/Calculator.java:51-56 | the bounds never decrease |
| Bands.RowInSomeBand | src/main/java/mandelbrot/Calculator.java:51-61 | every row of the image lies in some band |
| Bands.BandsDisjoint | src/main/java/mandelbrot/Calculator.java:51-61 | no row lies in two bands |
| Bands.RunBand | src/main/java/mandelbrot/Calculator.java:64-68 | the scan-and-trace loop ends (each seed was unknown, so it lies past the previous seed in scan order) with every pixel of the band classified and painted, and nothing outside the band changed |
| Calculation.MainEvaluator | src/main/java/mandelbrot/Calculator.java:206-212 | the settings select the seen-sets check with the configured limit; double precision goes on while the squared modulus is at most its threshold, arbitrary precision while it is below its own |
| Calculation.CalculateBands | src/main/java/mandelbrot/Calculator.java:51-73 | with at least one band every pixel ends black or painted with its own escape data; with none the image is unchanged; afterwards the snapshot holds no grid |
| Calculation.Calculator.constructor | src/main/java/mandelbrot/Calculator.java:26-28 | the calculator keeps its settings, and nothing has been submitted yet |
| Calculation.Calculator.Submit | src/main/java/mandelbrot/Calculator.java:30-32 | submitting queues exactly that snapshot |
| Calculation.Calculator.Calculate | src/main/java/mandelbrot/Calculator.java:34-73 | calculating a snapshot with the settings' evaluator paints every pixel at the samples of its rectangle black or with its own escape data (when there is a band), and releases the grid |
| Palette.StopIndex | src/main/java/mandelbrot/Settings.java:41-46 | every index into `colors` lies in `[0, colors.length)` |
| Palette.Entry | src/main/java/mandelbrot/Settings.java:40-48 | every entry is a stop colour, or a blend of two stops at a fraction strictly between 0 and 1 |
| Palette.Table | src/main/java/mandelbrot/Settings.java:39-49 | the table has `maxIter` entries (none for a negative limit), entry x built from x |
| Palette.EntryAtStop | src/main/java/mandelbrot/Settings.java:41-43 | with n = x mod (thickness·len) and n a multiple of the thickness, entry x is exactly stop n / thickness |
| Palette.FirstEntryIsFirstStop | src/main/java/mandelbrot/Settings.java:41-43 | entry 0 is the first stop |
| Palette.EntryPeriodic | src/main/java/mandelbrot/Settings.java:41 | entries repeat every thickness·len |
| Palette.TablePeriodic | src/main/java/mandelbrot/Settings.java:40-41 | `iterColors[x] == iterColors[x + thickness·len]` when both are in range |
| Palette.EntryBetweenStops | src/main/java/mandelbrot/Settings.java:44-47 | other entries blend stop k with stop (k+1) mod len at the fraction `(x mod (thickness·len)) mod thickness / thickness`, which lies strictly between 0 and 1 |
| Configuration.Settings.constructor | src/main/java/mandelbrot/Settings.java:10-29 | the defaults (scale 2, zoom 8, 800×800, double precision, thresholds 1000, 10000 iterations, thickness 100, two stops), with the table built for 10000 entries and starting at the first stop |
| Configuration.Settings.ScaledWidth | src/main/java/mandelbrot/Settings.java:31-33 | the image width is at least the window width when the width and the scale factor are positive |
| Configuration.Settings.ScaledHeight | src/main/java/mandelbrot/Settings.java:35-37 | the image height is at least the window height when the height and the scale factor are positive |
| Configuration.Settings.RegenerateColors | src/main/java/mandelbrot/Settings.java:39-50 | the table is rebuilt from the current stops, thickness and limit, with `maxIter` entries |
| Snapshots.Snapshot.constructor | src/main/java/mandelbrot/Snapshot.java:14-21 | a snapshot of the given rectangle and image, holding no grid |
| Snapshots.Snapshot.Copy | src/main/java/mandelbrot/Snapshot.java:23-30 | a snapshot of the previous one's rectangle on a new image, holding no grid |
| Snapshots.Snapshot.GetCalculated | src/main/java/mandelbrot/Snapshot.java:32-34 | the task's grid has the image's shape; the first call gives a fresh all-zero grid and later calls give the same one, until it is released |
| Snapshots.Snapshot.FinishCalculation | src/main/java/mandelbrot/Snapshot.java:36-38 | the task's grid is released |
| Provider.ZoomedRect | src/main/java/mandelbrot/SnapshotProvider.java:45-56 | the new rectangle is the old one shrunk by the zoom factor on each side and centred at the click's position, x/W of the way across |
| Provider.ZoomCentresOnPixel | src/main/java/mandelbrot/SnapshotProvider.java:45-56 | a click on pixel x ≥ 1 centres the new view on the sample coordinate of pixel x-1, where pixel x begins |
| Provider.CentreZoomOfStart | src/main/java/mandelbrot/SnapshotProvider.java:11-14 | a click at the centre of the default 1600×1600 image, at zoom factor 8, gives (-0.75, -0.25)–(-0.25, 0.25): width 0.5, same centre (-0.5, 0) |
| Provider.SnapshotProvider.constructor | src/main/java/mandelbrot/SnapshotProvider.java:24-28 | a new provider shows the default rectangle (-2.5, -2)–(1.5, 2) with an empty history, and has submitted that snapshot |
| Provider.SnapshotProvider.NewImage | src/main/java/mandelbrot/SnapshotProvider.java:78-85 | a new image of the scaled size filled with the placeholder colour |
| Provider.SnapshotProvider.ZoomIn | src/main/java/mandelbrot/SnapshotProvider.java:37-66 | the current snapshot, if any, is pushed onto the history and the new one shows the zoomed rectangle (without one, the default rectangle); the new snapshot is on top of the stack, and it alone is submitted |
| Provider.SnapshotProvider.ZoomOut | src/main/java/mandelbrot/SnapshotProvider.java:68-72 | pops the most recent snapshot of the history into view, with nothing submitted; an empty history changes nothing; after a zoom in it restores the previous snapshot and history |
| Provider.SnapshotProvider.ZoomInThenOut | src/main/java/mandelbrot/SnapshotProvider.java:37-72 | a zoom out right after a zoom in restores the snapshot in view and the history; the zoomed snapshot stays submitted |
| Provider.SnapshotProvider.Repaint | src/main/java/mandelbrot/SnapshotProvider.java:30-35 | the current rectangle is recalculated on a fresh image and submitted; the history is untouched; without a current snapshot nothing happens |
| Provider.SnapshotProvider.GetSnapshot | src/main/java/mandelbrot/SnapshotProvider.java:74-76 | returns the snapshot in view |
| Legacy.ColorTable | src/mandelbrot/Calculator.java:24-34 | `COLORS` has `MAX_ITER` entries, and every twelfth entry is a stop |
| Legacy.LegacyEvaluator | src/mandelbrot/Calculator.java:231 | `evalPoint` uses the reference-point check and `MAX_ITER`, going on while the squared modulus is below 2^16 |
| Legacy.FastEvaluator | src/mandelbrot/Calculator.java:285 | `evalPointFast` uses the same check and limit, going on while the squared modulus is at most 2^16 |
| Legacy.LegacyExteriorBeyondTwo | src/mandelbrot/Calculator.java:231-262 | a point with \|c\| > 2 whose orbit reaches 2^16 before `MAX_ITER` iterations is exterior under `evalPoint`, escaping no later |
| Legacy.FastExteriorBeyondTwo | src/mandelbrot/Calculator.java:285-316 | a point with \|c\| > 2 whose orbit passes 2^16 before `MAX_ITER` iterations is exterior under `evalPointFast`, escaping no later |
| Legacy.ColorTableShape | src/mandelbrot/Calculator.java:22-34 | `COLORS` has `MAX_ITER` = 10000 entries; entries with (x mod 36) mod 12 == 0 are exactly one of the three stops; `COLORS[0]` is the first stop; other entries are blends at a fraction strictly between 0 and 1 |
| Legacy.ColorTablePeriodic | src/mandelbrot/Calculator.java:24-34 | `COLORS` repeats every 36 entries |
| Legacy.LegacyExteriorBelowLimit | src/mandelbrot/Calculator.java:231-262 | an exterior verdict of `evalPoint` has `iter < MAX_ITER` and a squared modulus at least 65536 |
| Legacy.FastExteriorBelowLimit | src/mandelbrot/Calculator.java:285-316 | an exterior verdict of `evalPointFast` has `iter < MAX_ITER` and a squared modulus above 65536 |
| Legacy.Calculate | src/mandelbrot/Calculator.java:46-93 | the legacy calculation paints every pixel black or with its own `evalPoint` escape data (when there is a band) and releases the grid |

## Left out

- Thread pool, `Future.get` and the `MAX_THREADS`/`CALC_THREADS` sizing: bands run in sequence, and the number of bands is a parameter.
- `ThreadLocal` mechanics: each band task takes a fresh zero grid and releases it.
- Changing the scale factor or the size in the settings pane while a snapshot is queued: `Calculation.Calculator.Calculate` requires the image to have the current scaled size. The source reads the settings again when it calculates, and a size that changed in between is outside the model.
- Floating point and `BigDecimal` rounding (`MathContext`): all arithmetic is exact `real`, so the `equals` scale sensitivity of `BigDecimal` and double rounding in the cycle checks are not reproduced.
- Bands.ThreadBounds: a middle bound is the exact floor of `h·t/n`, not `(int)(h * (t / (double) n))`. Bounds that round differently are not modelled.
- Grid.EvalPoint: an exterior pixel records its escape count and squared modulus. The log-smoothed count, the two table lookups and their blend are left out because they are floating-point logarithms. The colour lookup `iterColors[floor(iterAdjusted) - 1]` and `iterColors[floor(iterAdjusted)]` can index outside the table (for example, with a threshold of 1 from the settings pane and |z|² just above 1 at the escape, the double logarithm is far below zero and `iterAdjusted` lies beyond the table). The source then throws and the band task stops before it paints or marks that pixel. This exception path is not modelled: the model always paints.
- `Util.blend` and `java.awt.Color` are opaque constructors, and `BufferedImage` is a two-dimensional array of paints.
- Trace.Walk: the marker contents after the whole walk are not stated beyond soundness (every SET marker sits on an interior region pixel). Trace.Step states what each round writes, but the rounds are not composed into a statement about the walk's path.
- Trace.Walk: it stops after `fuel` rounds or back on the seed. Termination of the source's walker loop is not proved. With the budget exhausted, the model goes on to the fill from wherever the walk stopped.
- Trace.TraceEdge: it states the fill's frame and consistency, not the fill's exact result. `Trace.ParityFill` and `Trace.EnclosedLiesInsideTrace` state that result.
- The fill marks pixels interior without evaluating them. The model keeps this, so a filled pixel is black whatever its own orbit does (`Bands.Painted` allows it).
- Escape.SetsCycleMeaning: the main cycle check can fire when the real and the imaginary part repeat on different iterations. The model reproduces that check; it does not claim the orbit is periodic.
- Escape.ExteriorBeyondTwo: stated only for the reference-point check. For the main seen-sets check a point with |c| > 2 is not proved exterior: its orbit moves strictly outward, but the check can still fire when the new real part matches one earlier iterate and the new imaginary part another.
- Escape.ExteriorBeyondTwo: takes the escaping iteration as a hypothesis. That the orbit of a point with |c| > 2 reaches the threshold before the limit is not proved.
- The timing calls in the band tasks and the Swing UI (windows, panes, mouse handling).
- The legacy settings record: its scaled width and height are parameters of `Legacy.Calculate`.
- The legacy `Snapshot` class is not part of this model. The legacy calculator uses the main one.
- Configuration.Settings.ScaledWidth: the contract states only the lower bound; the product itself is the definition.
- Configuration.Settings.ScaledHeight: the contract states only the lower bound; the product itself is the definition.
- Provider.ZoomedRect: the ratios are exact reals; the `double` division and the `BigDecimal` rounding are not modelled.
