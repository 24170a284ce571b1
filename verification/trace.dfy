/**
 * Boundary tracing from an interior seed, and the fill of the traced region.
 *
 * The walker moves from interior pixel to interior pixel of the band, trying at each step a
 * quarter turn, straight on and the other quarter turn, and backing up one step when all
 * three fail. It records its path in a marker grid that has a one-pixel border around the
 * band: SET on every pixel it steps onto, EXT on every neighbour it found outside and on the
 * neighbour on the outer side of each step. The fill then sweeps the band and marks black
 * every still-unknown pixel whose nearest marker above it in its column and whose nearest
 * marker to its left in its row are both SET.
 */
module Trace {
  import opened Colors
  import opened Escape
  import opened Grid

  datatype Dir = Down | Right | Up | Left

  function DX(d: Dir): int {
    match d
    case Down => 0
    case Right => 1
    case Up => 0
    case Left => -1
  }

  function DY(d: Dir): int {
    match d
    case Down => 1
    case Right => 0
    case Up => -1
    case Left => 0
  }

  /** The neighbour on the outer side of a step: the step turned a quarter turn. */
  function External(d: Dir): (e: Dir)
    ensures DX(e) == -DY(d) && DY(e) == DX(d)
  {
    match d
    case Down => Left
    case Right => Down
    case Up => Right
    case Left => Up
  }

  function Opposite(d: Dir): (o: Dir)
    ensures DX(o) == -DX(d) && DY(o) == -DY(d)
  {
    match d
    case Down => Up
    case Right => Left
    case Up => Down
    case Left => Right
  }

  /** The three directions tried after a step in direction d, in order. */
  function Decisions(d: Dir): (r: seq<Dir>)
    ensures r == [External(d), d, Opposite(External(d))]
    ensures Opposite(d) !in r
  {
    match d
    case Down => [Left, Down, Right]
    case Right => [Down, Right, Up]
    case Up => [Right, Up, Left]
    case Left => [Up, Left, Down]
  }

  const SET: int := 1
  const EXT: int := 2

  /** The neighbour of (x, y) in direction d lies in columns [minX, maxX) and rows [minY, maxY). */
  predicate InBounds(minX: int, maxX: int, minY: int, maxY: int, x: int, y: int, d: Dir)
    ensures InBounds(minX, maxX, minY, maxY, x, y, d) <==> InRegion(minX, maxX, minY, maxY, x + DX(d), y + DY(d))
  {
    var nx, ny := x + DX(d), y + DY(d);
    !(nx < minX || nx >= maxX || ny < minY || ny >= maxY)
  }

  /** The pixels a trace started in column sx may visit. */
  predicate InRegion(sx: int, w: int, minY: int, maxY: int, x: int, y: int) {
    sx <= x < w && minY <= y < maxY
  }

  /**
   * An in-bounds neighbour of a region pixel is itself a region pixel, and both the neighbour
   * and every pixel next to it have a place in the marker grid.
   */
  lemma InBoundsNeighbour(sx: int, w: int, minY: int, maxY: int, x: int, y: int, d: Dir)
    requires 0 <= sx && InRegion(sx, w, minY, maxY, x, y) && InBounds(sx, w, minY, maxY, x, y, d)
    ensures InRegion(sx, w, minY, maxY, x + DX(d), y + DY(d))
    ensures 0 <= x + DX(d) + DX(External(d)) + 1 < w + 2
    ensures 0 <= y + DY(d) + DY(External(d)) - minY + 1 < maxY - minY + 2
  {
  }

  /** The marker grid matches the band: one column and one row of border on every side. */
  predicate MappingShaped(grid: array2<int>, mapping: array2<int>, minY: int, maxY: int) {
    mapping.Length0 == grid.Length0 + 2 && mapping.Length1 == maxY - minY + 2
  }

  /** The marker recorded for pixel (i, j) of a band starting at row minY. */
  function Marker(mapping: array2<int>, minY: int, i: int, j: int): int
    reads mapping
    requires 0 <= i + 1 < mapping.Length0 && 0 <= j - minY + 1 < mapping.Length1
  {
    mapping[i + 1, j - minY + 1]
  }

  /** Every marker is 0, SET or EXT, and every SET marker sits on an interior pixel of the region. */
  ghost predicate MarksSound(grid: array2<int>, mapping: array2<int>, sx: int, minY: int, maxY: int)
    reads grid, mapping
    requires 0 <= minY <= maxY <= grid.Length1 && 0 <= sx && MappingShaped(grid, mapping, minY, maxY)
  {
    forall i, j :: 0 <= i < mapping.Length0 && 0 <= j < mapping.Length1 ==>
      && (mapping[i, j] == 0 || mapping[i, j] == SET || mapping[i, j] == EXT)
      && (mapping[i, j] == SET ==>
            InRegion(sx, grid.Length0, minY, maxY, i - 1, j - 1 + minY) && grid[i - 1, j - 1 + minY] == INTERIOR)
  }

  /** The pixels whose markers one choice in direction d may write: the neighbour, and after a move its outer side. */
  predicate Written(x: int, y: int, d: Dir, moved: bool, i: int, j: int) {
    || (i == x + DX(d) && j == y + DY(d))
    || (moved && i == x + DX(d) + DX(External(d)) && j == y + DY(d) + DY(External(d)))
  }

  /** The walker can step from (x, y) in direction d: the neighbour is in bounds and interior. */
  predicate Open(grid: array2<int>, sx: int, minY: int, maxY: int, x: int, y: int, d: Dir)
    reads grid
    requires 0 <= sx && 0 <= minY <= maxY <= grid.Length1
  {
    InBounds(sx, grid.Length0, minY, maxY, x, y, d) && grid[x + DX(d), y + DY(d)] == INTERIOR
  }

  /** The neighbour in direction d, when in bounds, has been calculated. */
  predicate Settled(grid: array2<int>, sx: int, minY: int, maxY: int, x: int, y: int, d: Dir)
    reads grid
    requires 0 <= sx && 0 <= minY <= maxY <= grid.Length1
  {
    InBounds(sx, grid.Length0, minY, maxY, x, y, d) ==> grid[x + DX(d), y + DY(d)] != UNKNOWN
  }

  /** The walker cannot step in direction d, and will not be able to later: the neighbour, when in bounds, is exterior. */
  predicate Blocked(grid: array2<int>, sx: int, minY: int, maxY: int, x: int, y: int, d: Dir)
    reads grid
    requires 0 <= sx && 0 <= minY <= maxY <= grid.Length1
  {
    !Open(grid, sx, minY, maxY, x, y, d) && Settled(grid, sx, minY, maxY, x, y, d)
  }

  /**
   * A tried choice that did not move: blocked, and when in bounds its neighbour carries EXT.
   */
  predicate Refused(grid: array2<int>, mapping: array2<int>, sx: int, minY: int, maxY: int, x: int, y: int, d: Dir)
    reads grid, mapping
    requires 0 <= sx && 0 <= minY <= maxY <= grid.Length1 && MappingShaped(grid, mapping, minY, maxY)
  {
    && Blocked(grid, sx, minY, maxY, x, y, d)
    && (InBounds(sx, grid.Length0, minY, maxY, x, y, d) ==> Marker(mapping, minY, x + DX(d), y + DY(d)) == EXT)
  }

  /**
   * The markers the first `tried` choices of a round from (x, y) may write, the last of them
   * a move when `moved`.
   */
  predicate TriedWritten(x: int, y: int, heading: Dir, tried: nat, moved: bool, i: int, j: int) {
    || (0 < tried && Written(x, y, Decisions(heading)[0], moved && tried == 1, i, j))
    || (1 < tried && Written(x, y, Decisions(heading)[1], moved && tried == 2, i, j))
    || (2 < tried && Written(x, y, Decisions(heading)[2], moved && tried == 3, i, j))
  }

  /** Trying one more choice adds that choice's writes to those of the choices before it. */
  lemma TriedWrittenNext(x: int, y: int, heading: Dir, k: nat, moved: bool)
    requires k < 3
    ensures forall i, j :: TriedWritten(x, y, heading, k, false, i, j) || Written(x, y, Decisions(heading)[k], moved, i, j) ==>
      TriedWritten(x, y, heading, k + 1, moved, i, j)
  {
  }

  /** One choice never writes the marker of another choice's neighbour. */
  lemma OtherNeighbourNotWritten(x: int, y: int, heading: Dir, k: int, k': int, moved: bool)
    requires 0 <= k < 3 && 0 <= k' < 3 && k != k'
    ensures !Written(x, y, Decisions(heading)[k], moved, x + DX(Decisions(heading)[k']), y + DY(Decisions(heading)[k']))
  {
  }

  /** Between the two states, only markers that the first `tried` choices of a round may write have changed. */
  twostate predicate TriedFrame(mapping: array2<int>, minY: int, x: int, y: int, heading: Dir, tried: nat, moved: bool)
    reads mapping
  {
    forall i, j :: 0 <= i < mapping.Length0 && 0 <= j < mapping.Length1 && !TriedWritten(x, y, heading, tried, moved, i - 1, j - 1 + minY) ==>
      mapping[i, j] == old(mapping[i, j])
  }

  /**
   * One choice of the walker at (x, y): when the neighbour in direction d is in bounds it is
   * evaluated; an interior neighbour is stepped onto (SET there, EXT on its outer side),
   * an exterior one is marked EXT.
   */
  method TryChoice(ev: Evaluator, xs: seq<real>, ys: seq<real>, grid: array2<int>, image: array2<Paint>,
                   mapping: array2<int>, minY: int, maxY: int, sx: int, x: int, y: int, d: Dir)
    returns (moved: bool)
    requires Shaped(xs, ys, grid, image) && Consistent(ev, xs, ys, grid, image)
    requires 0 <= minY <= maxY <= grid.Length1 && 0 <= sx && MappingShaped(grid, mapping, minY, maxY)
    requires mapping != grid
    requires InRegion(sx, grid.Length0, minY, maxY, x, y)
    requires MarksSound(grid, mapping, sx, minY, maxY)
    modifies grid, image, mapping
    ensures Consistent(ev, xs, ys, grid, image) && KnownKept(grid, image)
    ensures SameOutside(grid, image, sx, grid.Length0, minY, maxY)
    ensures MarksSound(grid, mapping, sx, minY, maxY)
    ensures moved <==> InBounds(sx, grid.Length0, minY, maxY, x, y, d) && grid[x + DX(d), y + DY(d)] == INTERIOR
    ensures Settled(grid, sx, minY, maxY, x, y, d)
    ensures !InBounds(sx, grid.Length0, minY, maxY, x, y, d) ==> unchanged(grid) && unchanged(image) && unchanged(mapping)
    ensures InBounds(sx, grid.Length0, minY, maxY, x, y, d) ==>
      SameOutside(grid, image, x + DX(d), x + DX(d) + 1, y + DY(d), y + DY(d) + 1)
    ensures moved ==>
      && Marker(mapping, minY, x + DX(d), y + DY(d)) == SET
      && Marker(mapping, minY, x + DX(d) + DX(External(d)), y + DY(d) + DY(External(d))) == EXT
    ensures InBounds(sx, grid.Length0, minY, maxY, x, y, d) && !moved ==> Marker(mapping, minY, x + DX(d), y + DY(d)) == EXT
    ensures forall i, j :: 0 <= i < mapping.Length0 && 0 <= j < mapping.Length1 && !Written(x, y, d, moved, i - 1, j - 1 + minY) ==>
      mapping[i, j] == old(mapping[i, j])
  {
    if !InBounds(sx, grid.Length0, minY, maxY, x, y, d) {
      return false;
    }
    InBoundsNeighbour(sx, grid.Length0, minY, maxY, x, y, d);
    moved := EvalPoint(ev, xs, ys, grid, image, x + DX(d), y + DY(d));
    RecordChoice(grid, mapping, minY, maxY, sx, x, y, d, moved);
  }

  /**
   * The markers of one evaluated choice: after a move SET on the neighbour and EXT on its
   * outer side, otherwise EXT on the neighbour; no other marker changes.
   */
  method RecordChoice(grid: array2<int>, mapping: array2<int>, minY: int, maxY: int, sx: int, x: int, y: int, d: Dir, moved: bool)
    requires 0 <= minY <= maxY <= grid.Length1 && 0 <= sx && MappingShaped(grid, mapping, minY, maxY)
    requires mapping != grid
    requires InRegion(sx, grid.Length0, minY, maxY, x, y) && InBounds(sx, grid.Length0, minY, maxY, x, y, d)
    requires moved ==> grid[x + DX(d), y + DY(d)] == INTERIOR
    requires MarksSound(grid, mapping, sx, minY, maxY)
    modifies mapping
    ensures MarksSound(grid, mapping, sx, minY, maxY)
    ensures moved ==>
      && Marker(mapping, minY, x + DX(d), y + DY(d)) == SET
      && Marker(mapping, minY, x + DX(d) + DX(External(d)), y + DY(d) + DY(External(d))) == EXT
    ensures !moved ==> Marker(mapping, minY, x + DX(d), y + DY(d)) == EXT
    ensures forall i, j :: 0 <= i < mapping.Length0 && 0 <= j < mapping.Length1 && !Written(x, y, d, moved, i - 1, j - 1 + minY) ==>
      mapping[i, j] == old(mapping[i, j])
  {
    InBoundsNeighbour(sx, grid.Length0, minY, maxY, x, y, d);
    var nx, ny := x + DX(d), y + DY(d);
    var e := External(d);
    if moved {
      mapping[nx + 1, ny - minY + 1] := SET;
      mapping[nx + DX(e) + 1, ny + DY(e) - minY + 1] := EXT;
    } else {
      mapping[nx + 1, ny - minY + 1] := EXT;
    }
  }

  /**
   * Choice k of a round from (x, y) after a step in direction `heading`, as seen by the round:
   * either a move with its two markers, or one more refused choice; the choices refused before
   * stay refused, and only the markers of this choice change.
   */
  method Attempt(ev: Evaluator, xs: seq<real>, ys: seq<real>, grid: array2<int>, image: array2<Paint>,
                 mapping: array2<int>, minY: int, maxY: int, sx: int, x: int, y: int, heading: Dir, k: nat)
    returns (moved: bool)
    requires Shaped(xs, ys, grid, image) && Consistent(ev, xs, ys, grid, image)
    requires 0 <= minY <= maxY <= grid.Length1 && 0 <= sx && MappingShaped(grid, mapping, minY, maxY)
    requires mapping != grid
    requires InRegion(sx, grid.Length0, minY, maxY, x, y)
    requires MarksSound(grid, mapping, sx, minY, maxY)
    requires k < 3
    modifies grid, image, mapping
    ensures Consistent(ev, xs, ys, grid, image) && KnownKept(grid, image)
    ensures SameOutside(grid, image, sx, grid.Length0, minY, maxY)
    ensures MarksSound(grid, mapping, sx, minY, maxY)
    ensures var d := Decisions(heading)[k];
      moved ==>
        && InRegion(sx, grid.Length0, minY, maxY, x + DX(d), y + DY(d)) && Open(grid, sx, minY, maxY, x, y, d)
        && Marker(mapping, minY, x + DX(d), y + DY(d)) == SET
        && Marker(mapping, minY, x + DX(d) + DX(External(d)), y + DY(d) + DY(External(d))) == EXT
    ensures !moved ==> Refused(grid, mapping, sx, minY, maxY, x, y, Decisions(heading)[k])
    ensures forall k' :: 0 <= k' < k && old(Refused(grid, mapping, sx, minY, maxY, x, y, Decisions(heading)[k'])) ==>
      Refused(grid, mapping, sx, minY, maxY, x, y, Decisions(heading)[k'])
    ensures forall i, j :: 0 <= i < mapping.Length0 && 0 <= j < mapping.Length1 && !Written(x, y, Decisions(heading)[k], moved, i - 1, j - 1 + minY) ==>
      mapping[i, j] == old(mapping[i, j])
  {
    var d := Decisions(heading)[k];
    moved := TryChoice(ev, xs, ys, grid, image, mapping, minY, maxY, sx, x, y, d);
    if moved {
      InBoundsNeighbour(sx, grid.Length0, minY, maxY, x, y, d);
    }
    forall k' | 0 <= k' < k && old(Refused(grid, mapping, sx, minY, maxY, x, y, Decisions(heading)[k']))
      ensures Refused(grid, mapping, sx, minY, maxY, x, y, Decisions(heading)[k'])
    {
      var e := Decisions(heading)[k'];
      if InBounds(sx, grid.Length0, minY, maxY, x, y, e) {
        OtherNeighbourNotWritten(x, y, heading, k, k', moved);
        assert mapping[x + DX(e) + 1, y + DY(e) - minY + 1] == old(mapping[x + DX(e) + 1, y + DY(e) - minY + 1]);
      }
    }
  }

  /**
   * What one round from (x, y) leaves behind after trying `tried` choices: a move takes the
   * last of them, with SET on the pixel entered and EXT on its outer side; every other tried
   * choice was refused; no move means all three were tried; no other marker changed.
   */
  twostate predicate RoundMarked(grid: array2<int>, mapping: array2<int>, sx: int, minY: int, maxY: int, x: int, y: int,
                                 heading: Dir, moved: bool, d: Dir, tried: nat)
    reads grid, mapping
    requires 0 <= sx && 0 <= minY <= maxY <= grid.Length1 && MappingShaped(grid, mapping, minY, maxY)
    requires InRegion(sx, grid.Length0, minY, maxY, x, y)
  {
    && 1 <= tried <= 3 && (!moved ==> tried == 3)
    && (moved ==>
          && d == Decisions(heading)[tried - 1]
          && InBounds(sx, grid.Length0, minY, maxY, x, y, d)
          && Marker(mapping, minY, x + DX(d), y + DY(d)) == SET
          && Marker(mapping, minY, x + DX(d) + DX(External(d)), y + DY(d) + DY(External(d))) == EXT)
    && (forall k :: 0 <= k < tried && !(moved && k == tried - 1) ==>
          Refused(grid, mapping, sx, minY, maxY, x, y, Decisions(heading)[k]))
    && TriedFrame(mapping, minY, x, y, heading, tried, moved)
  }

  /**
   * One round of the walker standing on (x, y) after a step in direction `heading`: the
   * three choices in order, stopping at the first that is open. `tried` counts the choices
   * tried. A move takes the last of them, writes SET on the pixel entered and EXT on its outer
   * side; every choice tried before it was refused and marked EXT when in bounds. No move means
   * all three were refused. No other marker changes.
   */
  method Step(ev: Evaluator, xs: seq<real>, ys: seq<real>, grid: array2<int>, image: array2<Paint>,
              mapping: array2<int>, minY: int, maxY: int, sx: int, x: int, y: int, heading: Dir)
    returns (moved: bool, d: Dir, ghost tried: nat)
    requires Shaped(xs, ys, grid, image) && Consistent(ev, xs, ys, grid, image)
    requires 0 <= minY <= maxY <= grid.Length1 && 0 <= sx && MappingShaped(grid, mapping, minY, maxY)
    requires mapping != grid
    requires InRegion(sx, grid.Length0, minY, maxY, x, y)
    requires MarksSound(grid, mapping, sx, minY, maxY)
    modifies grid, image, mapping
    ensures Consistent(ev, xs, ys, grid, image) && KnownKept(grid, image)
    ensures SameOutside(grid, image, sx, grid.Length0, minY, maxY)
    ensures MarksSound(grid, mapping, sx, minY, maxY)
    ensures moved ==> InRegion(sx, grid.Length0, minY, maxY, x + DX(d), y + DY(d)) && Open(grid, sx, minY, maxY, x, y, d)
    ensures RoundMarked(grid, mapping, sx, minY, maxY, x, y, heading, moved, d, tried)
  {
    var choices := Decisions(heading);
    moved, d := false, heading;
    var k := 0;
    while k < 3
      invariant 0 <= k <= 3 && !moved
      invariant Consistent(ev, xs, ys, grid, image) && KnownKept(grid, image)
      invariant SameOutside(grid, image, sx, grid.Length0, minY, maxY)
      invariant MarksSound(grid, mapping, sx, minY, maxY)
      invariant forall k' :: 0 <= k' < k ==> Refused(grid, mapping, sx, minY, maxY, x, y, choices[k'])
      invariant TriedFrame(mapping, minY, x, y, heading, k, false)
    {
      d := choices[k];
      label Before:
      moved := Attempt(ev, xs, ys, grid, image, mapping, minY, maxY, sx, x, y, heading, k);
      forall i, j | InGrid(grid, i, j) && old(grid[i, j]) != UNKNOWN
        ensures grid[i, j] == old(grid[i, j]) && image[i, j] == old(image[i, j])
      {
        assert old@Before(grid[i, j]) == old(grid[i, j]);
      }
      TriedWrittenNext(x, y, heading, k, moved);
      if moved {
        tried := k + 1;
        return;
      }
      k := k + 1;
    }
    tried := 3;
  }

  /**
   * The walker. It starts on the interior seed (sx, sy) heading down, and stops when it is back
   * on the seed or after `fuel` rounds. It only ever stands on interior pixels of the region,
   * can always step back the way it came, evaluates only region pixels, and leaves SET markers
   * only on interior region pixels.
   */
  method Walk(ev: Evaluator, xs: seq<real>, ys: seq<real>, grid: array2<int>, image: array2<Paint>,
              mapping: array2<int>, minY: int, maxY: int, sx: int, sy: int, fuel: nat)
    requires Shaped(xs, ys, grid, image) && Consistent(ev, xs, ys, grid, image)
    requires 0 <= minY <= maxY <= grid.Length1 && 0 <= sx && MappingShaped(grid, mapping, minY, maxY)
    requires mapping != grid
    requires InRegion(sx, grid.Length0, minY, maxY, sx, sy) && grid[sx, sy] == INTERIOR
    requires MarksSound(grid, mapping, sx, minY, maxY)
    modifies grid, image, mapping
    ensures Consistent(ev, xs, ys, grid, image) && KnownKept(grid, image)
    ensures SameOutside(grid, image, sx, grid.Length0, minY, maxY)
    ensures MarksSound(grid, mapping, sx, minY, maxY)
  {
    var x, y := sx, sy;
    var prev: Option<Dir> := None;
    var rounds := fuel;
    while rounds > 0
      invariant Consistent(ev, xs, ys, grid, image) && KnownKept(grid, image)
      invariant SameOutside(grid, image, sx, grid.Length0, minY, maxY)
      invariant MarksSound(grid, mapping, sx, minY, maxY)
      invariant InRegion(sx, grid.Length0, minY, maxY, x, y) && grid[x, y] == INTERIOR
      invariant prev.Some? ==>
        var (px, py) := (x - DX(prev.value), y - DY(prev.value));
        InRegion(sx, grid.Length0, minY, maxY, px, py) && grid[px, py] == INTERIOR
      decreases rounds
    {
      rounds := rounds - 1;
      label BeforeRound:
      var moved, d, tried := Step(ev, xs, ys, grid, image, mapping, minY, maxY, sx, x, y, if prev.None? then Down else prev.value);
      assert grid[x, y] == old@BeforeRound(grid[x, y]);
      if prev.Some? {
        var (px, py) := (x - DX(prev.value), y - DY(prev.value));
        assert grid[px, py] == old@BeforeRound(grid[px, py]);
      }
      if moved {
        ghost var ox, oy := x, y;
        prev := Some(d);
        x, y := x + DX(d), y + DY(d);
        assert (x - DX(d), y - DY(d)) == (ox, oy);
      } else if prev.Some? {
        var back := prev.value;
        x, y := x - DX(back), y - DY(back);
        prev := Some(Opposite(back));
      }
      if x == sx && y == sy {
        break;
      }
    }
  }

  /**
   * After the fill has swept column i down to row j: whether the nearest marker at or above
   * (i, j) in column i is EXT, or there is none. The fill's per-column flag.
   */
  ghost predicate ExtAbove(mapping: array2<int>, minY: int, i: int, j: int)
    reads mapping
    requires 0 <= i + 1 < mapping.Length0 && j - minY + 1 < mapping.Length1
    decreases j - minY
  {
    if j < minY then true
    else
      var v := Marker(mapping, minY, i, j);
      if v == EXT then true else if v == SET then false else ExtAbove(mapping, minY, i, j - 1)
  }

  /**
   * After the fill has swept column i: whether the nearest marker at or left of (i, j) in row
   * j, from column sx on, is EXT, or there is none. The fill's per-row flag.
   */
  ghost predicate ExtLeft(mapping: array2<int>, sx: int, minY: int, i: int, j: int)
    reads mapping
    requires i + 1 < mapping.Length0 && 0 <= j - minY + 1 < mapping.Length1 && 0 <= sx
    decreases i - sx
  {
    if i < sx then true
    else
      var v := Marker(mapping, minY, i, j);
      if v == EXT then true else if v == SET then false else ExtLeft(mapping, sx, minY, i - 1, j)
  }

  /** The fill decision for (i, j): unknown, and closed off by SET markers above and to the left. */
  ghost predicate Enclosed(mapping: array2<int>, sx: int, minY: int, i: int, j: int)
    reads mapping
    requires 0 <= sx <= i && i + 1 < mapping.Length0 && 0 <= j - minY + 1 < mapping.Length1
  {
    !ExtAbove(mapping, minY, i, j) && !ExtLeft(mapping, sx, minY, i, j)
  }

  /**
   * One column of the fill. On entry `sawYExt` holds the per-row flags of the columns before
   * i; on exit those flags include column i, and the pixels of column i in the band that were
   * not yet calculated and are Enclosed are interior and black.
   */
  method FillColumn(grid: array2<int>, image: array2<Paint>, mapping: array2<int>, sawYExt: array<bool>,
                    minY: int, maxY: int, sx: int, i: int)
    requires grid.Length0 == image.Length0 && grid.Length1 == image.Length1
    requires 0 <= minY <= maxY <= grid.Length1 && 0 <= sx <= i < grid.Length0 && MappingShaped(grid, mapping, minY, maxY)
    requires mapping != grid && sawYExt.Length == maxY - minY
    requires forall k :: 0 <= k < sawYExt.Length ==> sawYExt[k] == ExtLeft(mapping, sx, minY, i - 1, k + minY)
    modifies grid, image, sawYExt
    ensures forall k :: 0 <= k < sawYExt.Length ==> sawYExt[k] == ExtLeft(mapping, sx, minY, i, k + minY)
    ensures forall b :: minY <= b < maxY ==>
      if !old(IsCalculated(grid, i, b)) && Enclosed(mapping, sx, minY, i, b)
      then grid[i, b] == INTERIOR && image[i, b] == Solid(BLACK)
      else grid[i, b] == old(grid[i, b]) && image[i, b] == old(image[i, b])
    ensures SameOutside(grid, image, i, i + 1, minY, maxY)
  {
    var sawXExt := true;
    var j := minY;
    while j < maxY
      invariant minY <= j <= maxY
      invariant sawXExt == ExtAbove(mapping, minY, i, j - 1)
      invariant forall k :: 0 <= k < j - minY ==> sawYExt[k] == ExtLeft(mapping, sx, minY, i, k + minY)
      invariant forall k :: j - minY <= k < sawYExt.Length ==> sawYExt[k] == ExtLeft(mapping, sx, minY, i - 1, k + minY)
      invariant forall b :: minY <= b < j ==>
        if !old(IsCalculated(grid, i, b)) && Enclosed(mapping, sx, minY, i, b)
        then grid[i, b] == INTERIOR && image[i, b] == Solid(BLACK)
        else grid[i, b] == old(grid[i, b]) && image[i, b] == old(image[i, b])
      invariant forall a, b :: InGrid(grid, a, b) && !(a == i && minY <= b < j) ==>
        grid[a, b] == old(grid[a, b]) && image[a, b] == old(image[a, b])
    {
      var value := mapping[i + 1, j - minY + 1];
      if value == EXT {
        sawXExt := true;
        sawYExt[j - minY] := true;
      } else if value == SET {
        sawXExt := false;
        sawYExt[j - minY] := false;
      }
      assert sawXExt == ExtAbove(mapping, minY, i, j);
      assert sawYExt[j - minY] == ExtLeft(mapping, sx, minY, i, j);
      if !IsCalculated(grid, i, j) && !sawXExt && !sawYExt[j - minY] {
        grid[i, j] := INTERIOR;
        image[i, j] := Solid(BLACK);
      }
      j := j + 1;
    }
  }

  /**
   * The fill of a traced region: every pixel in columns [sx, width) of the band that was not
   * yet calculated and is Enclosed becomes interior and black; every other pixel is left as it was.
   */
  method ParityFill(grid: array2<int>, image: array2<Paint>, mapping: array2<int>, minY: int, maxY: int, sx: int)
    requires grid.Length0 == image.Length0 && grid.Length1 == image.Length1
    requires 0 <= minY <= maxY <= grid.Length1 && 0 <= sx <= grid.Length0 && MappingShaped(grid, mapping, minY, maxY)
    requires mapping != grid
    modifies grid, image
    ensures forall i, j :: InRegion(sx, grid.Length0, minY, maxY, i, j) ==>
      if !old(IsCalculated(grid, i, j)) && Enclosed(mapping, sx, minY, i, j)
      then grid[i, j] == INTERIOR && image[i, j] == Solid(BLACK)
      else grid[i, j] == old(grid[i, j]) && image[i, j] == old(image[i, j])
    ensures SameOutside(grid, image, sx, grid.Length0, minY, maxY)
  {
    var sawYExt := new bool[maxY - minY](_ => true);
    var i := sx;
    while i < grid.Length0
      invariant sx <= i <= grid.Length0
      invariant forall k :: 0 <= k < sawYExt.Length ==> sawYExt[k] == ExtLeft(mapping, sx, minY, i - 1, k + minY)
      invariant forall a, b :: InRegion(sx, i, minY, maxY, a, b) ==>
        if !old(IsCalculated(grid, a, b)) && Enclosed(mapping, sx, minY, a, b)
        then grid[a, b] == INTERIOR && image[a, b] == Solid(BLACK)
        else grid[a, b] == old(grid[a, b]) && image[a, b] == old(image[a, b])
      invariant SameOutside(grid, image, sx, i, minY, maxY)
    {
      FillColumn(grid, image, mapping, sawYExt, minY, maxY, sx, i);
      i := i + 1;
    }
  }

  lemma {:induction false} ExtAboveWitness(mapping: array2<int>, minY: int, i: int, j: int)
    requires 0 <= i + 1 < mapping.Length0 && j - minY + 1 < mapping.Length1
    requires !ExtAbove(mapping, minY, i, j)
    ensures exists b :: minY <= b <= j && Marker(mapping, minY, i, b) == SET
    decreases j - minY
  {
    if Marker(mapping, minY, i, j) != SET {
      ExtAboveWitness(mapping, minY, i, j - 1);
    }
  }

  lemma {:induction false} ExtLeftWitness(mapping: array2<int>, sx: int, minY: int, i: int, j: int)
    requires i + 1 < mapping.Length0 && 0 <= j - minY + 1 < mapping.Length1 && 0 <= sx
    requires !ExtLeft(mapping, sx, minY, i, j)
    ensures exists a :: sx <= a <= i && Marker(mapping, minY, a, j) == SET
    decreases i - sx
  {
    if Marker(mapping, minY, i, j) != SET {
      ExtLeftWitness(mapping, sx, minY, i - 1, j);
    }
  }

  /**
   * What the fill relies on: a pixel it fills has a pixel of the traced edge, already known to
   * be interior, above it in its column and another to its left in its row.
   */
  lemma EnclosedLiesInsideTrace(grid: array2<int>, mapping: array2<int>, sx: int, minY: int, maxY: int, i: int, j: int)
    requires 0 <= minY <= maxY <= grid.Length1 && 0 <= sx && MappingShaped(grid, mapping, minY, maxY)
    requires MarksSound(grid, mapping, sx, minY, maxY)
    requires InRegion(sx, grid.Length0, minY, maxY, i, j) && !IsCalculated(grid, i, j)
    requires Enclosed(mapping, sx, minY, i, j)
    ensures exists b :: minY <= b < j && grid[i, b] == INTERIOR
    ensures exists a :: sx <= a < i && grid[a, j] == INTERIOR
  {
    ExtAboveWitness(mapping, minY, i, j);
    var b :| minY <= b <= j && Marker(mapping, minY, i, b) == SET;
    assert grid[i, b] == INTERIOR;
    ExtLeftWitness(mapping, sx, minY, i, j);
    var a :| sx <= a <= i && Marker(mapping, minY, a, j) == SET;
    assert grid[a, j] == INTERIOR;
  }

  /**
   * Tracing from a seed: a fresh marker grid, the walk, then the fill. A missing seed does
   * nothing. Only pixels in columns [seed column, width) of the band change, and only pixels
   * that were not yet calculated.
   */
  method TraceEdge(ev: Evaluator, xs: seq<real>, ys: seq<real>, grid: array2<int>, image: array2<Paint>,
                   minY: int, maxY: int, start: Option<(int, int)>, fuel: nat)
    requires Shaped(xs, ys, grid, image) && Consistent(ev, xs, ys, grid, image)
    requires 0 <= minY <= maxY <= grid.Length1
    requires start.Some? ==>
      InRegion(0, grid.Length0, minY, maxY, start.value.0, start.value.1) && grid[start.value.0, start.value.1] == INTERIOR
    modifies grid, image
    ensures Consistent(ev, xs, ys, grid, image) && KnownKept(grid, image)
    ensures start.None? ==> unchanged(grid) && unchanged(image)
    ensures start.Some? ==> SameOutside(grid, image, start.value.0, grid.Length0, minY, maxY)
  {
    if start.None? {
      return;
    }
    var (sx, sy) := start.value;
    var mapping := new int[grid.Length0 + 2, maxY - minY + 2]((_, _) => 0);
    Walk(ev, xs, ys, grid, image, mapping, minY, maxY, sx, sy, fuel);
    ParityFill(grid, image, mapping, minY, maxY, sx);
  }
}
