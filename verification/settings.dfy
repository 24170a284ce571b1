/**
 * The process-wide configuration record. Every field is public and mutable in the source;
 * only `RegenerateColors` (and the constructor) update one here.
 */
module Configuration {
  import opened Colors
  import Palette

  const DEFAULT_MAX_ITER: int := 10000
  const DEFAULT_COLOR_THICKNESS: int := 100

  /** The two default stop colours. */
  function DefaultStops(): seq<Color> {
    [Blend(BLUE, BLACK, 0.75), Blend(BLUE, WHITE, 0.75)]
  }

  class Settings {
    var scaleFactor: int
    var zoomFactor: int
    var width: int
    var height: int
    var doublePrecision: bool
    var uncalculatedColor: Color
    var infThreshDouble: real
    var infThreshArbitrary: real
    var maxIter: int
    var colorThickness: int
    var iterColors: seq<Color>
    var colors: seq<Color>

    /** What the settings controls guarantee: positive sizes, thickness and factors, and at least one stop. */
    ghost predicate Valid()
      reads this
    {
      && scaleFactor >= 1 && zoomFactor >= 1 && width >= 1 && height >= 1
      && colorThickness >= 1 && |colors| >= 1
    }

    /** The colour table matches the current stops, thickness and iteration limit. */
    ghost predicate ColorsCurrent()
      reads this
      requires Valid()
    {
      iterColors == Palette.Table(colors, colorThickness, maxIter)
    }

    constructor ()
      ensures Valid() && ColorsCurrent()
      ensures scaleFactor == 2 && zoomFactor == 8 && width == 800 && height == 800
      ensures doublePrecision && uncalculatedColor == GRAY
      ensures infThreshDouble == 1000.0 && infThreshArbitrary == 1000.0
      ensures maxIter == DEFAULT_MAX_ITER && colorThickness == DEFAULT_COLOR_THICKNESS
      ensures colors == DefaultStops()
      ensures |iterColors| == DEFAULT_MAX_ITER && iterColors[0] == colors[0]
    {
      scaleFactor, zoomFactor, width, height := 2, 8, 800, 800;
      doublePrecision := true;
      uncalculatedColor := GRAY;
      infThreshDouble := 1000.0;
      infThreshArbitrary := 1000.0;
      maxIter := DEFAULT_MAX_ITER;
      colorThickness := DEFAULT_COLOR_THICKNESS;
      colors := DefaultStops();
      iterColors := [];
      new;
      RegenerateColors();
      Palette.FirstEntryIsFirstStop(colors, colorThickness);
    }

    /** The image width: the window width times the scale factor, never below the window width. */
    function ScaledWidth(): (w: int)
      reads this
      ensures width >= 1 && scaleFactor >= 1 ==> w >= width
    {
      width * scaleFactor
    }

    /** The image height: the window height times the scale factor, never below the window height. */
    function ScaledHeight(): (h: int)
      reads this
      ensures height >= 1 && scaleFactor >= 1 ==> h >= height
    {
      height * scaleFactor
    }

    /**
     * Rebuilds the colour table from the current stops, thickness and iteration limit.
     * The source divides by the thickness and by the number of stops, so both must be positive.
     */
    method RegenerateColors()
      requires colorThickness >= 1 && |colors| >= 1
      modifies this`iterColors
      ensures iterColors == Palette.Table(colors, colorThickness, maxIter)
      ensures |iterColors| == if maxIter < 0 then 0 else maxIter
    {
      iterColors := Palette.Table(colors, colorThickness, maxIter);
    }
  }
}
