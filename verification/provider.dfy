/**
 * The view state: the snapshot on display and a stack of the snapshots zoomed in from.
 * Zooming in pushes the current snapshot and submits a new one for a smaller rectangle
 * centred on the clicked pixel; zooming out pops the stack and submits nothing; repainting
 * submits a fresh copy of the current rectangle and leaves the stack alone.
 */
module Provider {
  import opened Colors
  import opened Snapshots
  import opened Configuration
  import opened Calculation
  import Bands

  /** A view rectangle: corners (x0, y0) and (x1, y1). */
  datatype Rect = Rect(x0: real, y0: real, x1: real, y1: real)

  /** The rectangle shown before any zoom. */
  const START: Rect := Rect(-2.5, -2.0, 1.5, 2.0)

  function RectOf(s: Snapshot): Rect {
    Rect(s.x0, s.y0, s.x1, s.y1)
  }

  /**
   * The rectangle after a click at image pixel (x, y) of an image `w` by `h` pixels: the
   * zoom factor shrinks each side, and the new rectangle is centred on the click's position
   * within the old one.
   */
  function ZoomedRect(r: Rect, x: int, y: int, w: int, h: int, zoomFactor: int): (z: Rect)
    requires w >= 1 && h >= 1 && zoomFactor >= 1
    ensures z.x1 - z.x0 == (r.x1 - r.x0) / zoomFactor as real
    ensures z.y1 - z.y0 == (r.y1 - r.y0) / zoomFactor as real
    ensures (z.x0 + z.x1) / 2.0 == r.x0 + x as real * ((r.x1 - r.x0) / w as real)
    ensures (z.y0 + z.y1) / 2.0 == r.y0 + y as real * ((r.y1 - r.y0) / h as real)
  {
    var xRatio := x as real / w as real;
    var yRatio := y as real / h as real;
    var width := r.x1 - r.x0;
    var height := r.y1 - r.y0;
    var halfX := width / (zoomFactor * 2) as real;
    var halfY := height / (zoomFactor * 2) as real;
    Rect(r.x0 + width * xRatio - halfX, r.y0 + height * yRatio - halfY,
         r.x0 + width * xRatio + halfX, r.y0 + height * yRatio + halfY)
  }

  /**
   * A click on pixel x >= 1 centres the new rectangle on the sample coordinate of pixel
   * x - 1, which is where pixel x begins.
   */
  lemma ZoomCentresOnPixel(r: Rect, x: int, y: int, w: int, h: int, zoomFactor: int)
    requires w >= 1 && h >= 1 && zoomFactor >= 1
    requires 1 <= x <= w && 1 <= y <= h
    ensures (ZoomedRect(r, x, y, w, h, zoomFactor).x0 + ZoomedRect(r, x, y, w, h, zoomFactor).x1) / 2.0
            == Bands.SamplePoints(r.x0, r.x1, w)[x - 1]
    ensures (ZoomedRect(r, x, y, w, h, zoomFactor).y0 + ZoomedRect(r, x, y, w, h, zoomFactor).y1) / 2.0
            == Bands.SamplePoints(r.y0, r.y1, h)[y - 1]
  {
  }

  /** A click in the middle of the default 1600 by 1600 image at zoom factor 8. */
  lemma CentreZoomOfStart()
    ensures ZoomedRect(START, 800, 800, 1600, 1600, 8) == Rect(-0.75, -0.25, -0.25, 0.25)
  {
  }

  class SnapshotProvider {
    const settings: Settings
    const calculator: Calculator
    var currentSnapshot: Snapshot?
    /** The snapshots zoomed in from, most recent first. */
    var prevSnapshots: seq<Snapshot>

    /** Everything a run of zoom-outs can show, the current snapshot on top. */
    ghost function Stack(): seq<Snapshot>
      reads this
    {
      if currentSnapshot == null then prevSnapshots else [currentSnapshot] + prevSnapshots
    }

    /** A new view of the default rectangle with an empty history, already submitted. */
    constructor (settings: Settings, calculator: Calculator)
      requires settings.Valid()
      modifies calculator`queue
      ensures this.settings == settings && this.calculator == calculator
      ensures currentSnapshot != null && RectOf(currentSnapshot) == START && prevSnapshots == []
      ensures calculator.queue == old(calculator.queue) + [currentSnapshot]
    {
      this.settings := settings;
      this.calculator := calculator;
      currentSnapshot := null;
      prevSnapshots := [];
      new;
      ZoomIn(-1, -1);
    }

    /** An image of the scaled size filled with the placeholder colour. */
    method NewImage() returns (image: array2<Paint>)
      requires settings.Valid()
      ensures fresh(image)
      ensures image.Length0 == settings.ScaledWidth() && image.Length1 == settings.ScaledHeight()
      ensures forall i, j :: 0 <= i < image.Length0 && 0 <= j < image.Length1 ==> image[i, j] == Solid(settings.uncalculatedColor)
    {
      var placeholder := settings.uncalculatedColor;
      image := new Paint[settings.ScaledWidth(), settings.ScaledHeight()]((_, _) => Solid(placeholder));
    }

    /**
     * Zooms in on image pixel (x, y): the current snapshot, if any, goes on the history and
     * the new one shows the zoomed rectangle; without a current snapshot the new one shows
     * the default rectangle. The new snapshot, on a placeholder image, is submitted.
     */
    method ZoomIn(x: int, y: int)
      requires settings.Valid()
      modifies this`currentSnapshot, this`prevSnapshots, calculator`queue
      ensures currentSnapshot != null && fresh(currentSnapshot) && fresh(currentSnapshot.image)
      ensures currentSnapshot.Valid() && currentSnapshot.calculated == null
      ensures currentSnapshot.image.Length0 == settings.ScaledWidth() && currentSnapshot.image.Length1 == settings.ScaledHeight()
      ensures old(currentSnapshot) == null ==> RectOf(currentSnapshot) == START && prevSnapshots == old(prevSnapshots)
      ensures old(currentSnapshot) != null ==>
        && prevSnapshots == [old(currentSnapshot)] + old(prevSnapshots)
        && RectOf(currentSnapshot) == ZoomedRect(RectOf(old(currentSnapshot)), x, y,
                                                 settings.ScaledWidth(), settings.ScaledHeight(), settings.zoomFactor)
      ensures Stack() == [currentSnapshot] + old(Stack())
      ensures calculator.queue == old(calculator.queue) + [currentSnapshot]
    {
      var image := NewImage();
      var r: Rect;
      if currentSnapshot != null {
        prevSnapshots := [currentSnapshot] + prevSnapshots;
        r := ZoomedRect(RectOf(currentSnapshot), x, y, settings.ScaledWidth(), settings.ScaledHeight(), settings.zoomFactor);
      } else {
        r := START;
      }
      currentSnapshot := new Snapshot(image, r.x0, r.y0, r.x1, r.y1);
      calculator.Submit(currentSnapshot);
    }

    /** Returns to the most recent snapshot of the history; with an empty history nothing changes. */
    method ZoomOut()
      modifies this`currentSnapshot, this`prevSnapshots
      ensures old(prevSnapshots) != [] ==> currentSnapshot == old(prevSnapshots[0]) && prevSnapshots == old(prevSnapshots[1..])
      ensures old(prevSnapshots) == [] ==> currentSnapshot == old(currentSnapshot) && prevSnapshots == []
      ensures old(currentSnapshot) != null ==> Stack() == if |old(Stack())| >= 2 then old(Stack())[1..] else old(Stack())
    {
      if prevSnapshots != [] {
        currentSnapshot := prevSnapshots[0];
        prevSnapshots := prevSnapshots[1..];
      }
    }

    /**
     * Zooming out right after zooming in restores the snapshot on display and the history;
     * only the submitted snapshot remains in the calculator's queue.
     */
    method ZoomInThenOut(x: int, y: int)
      requires settings.Valid() && currentSnapshot != null
      modifies this`currentSnapshot, this`prevSnapshots, calculator`queue
      ensures currentSnapshot == old(currentSnapshot) && prevSnapshots == old(prevSnapshots)
      ensures Stack() == old(Stack())
      ensures |calculator.queue| == |old(calculator.queue)| + 1 && calculator.queue[..|old(calculator.queue)|] == old(calculator.queue)
    {
      ZoomIn(x, y);
      ZoomOut();
    }

    /**
     * Recalculates the current rectangle on a fresh placeholder image (after a settings
     * change) and submits it; the history is untouched. Without a current snapshot nothing
     * happens.
     */
    method Repaint()
      requires settings.Valid()
      modifies this`currentSnapshot, calculator`queue
      ensures old(currentSnapshot) == null ==> currentSnapshot == null && calculator.queue == old(calculator.queue)
      ensures old(currentSnapshot) != null ==>
        && currentSnapshot != null && fresh(currentSnapshot) && fresh(currentSnapshot.image)
        && currentSnapshot.Valid() && currentSnapshot.calculated == null
        && currentSnapshot.image.Length0 == settings.ScaledWidth() && currentSnapshot.image.Length1 == settings.ScaledHeight()
        && RectOf(currentSnapshot) == RectOf(old(currentSnapshot))
        && calculator.queue == old(calculator.queue) + [currentSnapshot]
    {
      if currentSnapshot != null {
        var image := NewImage();
        currentSnapshot := new Snapshot.Copy(image, currentSnapshot);
        calculator.Submit(currentSnapshot);
      }
    }

    method GetSnapshot() returns (s: Snapshot?)
      ensures s == currentSnapshot
    {
      return currentSnapshot;
    }
  }
}
