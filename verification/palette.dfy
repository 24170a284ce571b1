/**
 * The iteration-colour table: `maxIter` entries built cyclically from the stop colours,
 * `thickness` entries per stop, blending linearly from one stop to the next.
 */
module Palette {
  import opened Colors
  import Arith

  /** The stop that entry `x` starts from; it always indexes the stop list. */
  function StopIndex(x: nat, thickness: nat, count: nat): (k: nat)
    requires thickness >= 1 && count >= 1
    ensures k < count
  {
    Arith.MulPositive(thickness, count);
    var n := x % (thickness * count);
    Arith.DivBelow(n, thickness, count);
    n / thickness
  }

  /** Entry `x` of the table: a stop colour, or a blend of two stops at a fraction strictly between 0 and 1. */
  function Entry(colors: seq<Color>, thickness: nat, x: nat): (c: Color)
    requires thickness >= 1 && |colors| >= 1
    ensures c in colors || (c.Blend? && c.from in colors && c.to in colors && 0.0 < c.frac < 1.0)
  {
    var n := x % (thickness * |colors|);
    var k := StopIndex(x, thickness, |colors|);
    if n % thickness == 0 then colors[k]
    else
      assert ((n % thickness) as real) < (thickness as real);
      Blend(colors[k], colors[(k + 1) % |colors|], (n % thickness) as real / thickness as real)
  }

  /** The whole table; a negative length gives the empty table, as an empty range does. */
  function Table(colors: seq<Color>, thickness: nat, maxIter: int): (t: seq<Color>)
    requires thickness >= 1 && |colors| >= 1
    ensures |t| == if maxIter < 0 then 0 else maxIter
    ensures forall x :: 0 <= x < |t| ==> t[x] == Entry(colors, thickness, x)
  {
    seq(if maxIter < 0 then 0 else maxIter, (x: int) requires 0 <= x => Entry(colors, thickness, x))
  }

  /** An entry at a multiple of the thickness (within one cycle) is exactly a stop colour. */
  lemma EntryAtStop(colors: seq<Color>, thickness: nat, x: nat)
    requires thickness >= 1 && |colors| >= 1
    requires (x % (thickness * |colors|)) % thickness == 0
    ensures (x % (thickness * |colors|)) / thickness < |colors|
    ensures Entry(colors, thickness, x) == colors[(x % (thickness * |colors|)) / thickness]
  {
  }

  /** The first entry is the first stop. */
  lemma FirstEntryIsFirstStop(colors: seq<Color>, thickness: nat)
    requires thickness >= 1 && |colors| >= 1
    ensures Entry(colors, thickness, 0) == colors[0]
  {
  }

  /** The table repeats after one full cycle through the stops. */
  lemma {:induction false} EntryPeriodic(colors: seq<Color>, thickness: nat, x: nat)
    requires thickness >= 1 && |colors| >= 1
    ensures Entry(colors, thickness, x + thickness * |colors|) == Entry(colors, thickness, x)
  {
    Arith.MulPositive(thickness, |colors|);
    Arith.ModShift(x, thickness * |colors|);
  }

  /** Every entry of the table equals the entry one full cycle later, where both exist. */
  lemma {:induction false} TablePeriodic(colors: seq<Color>, thickness: nat, maxIter: int, x: nat)
    requires thickness >= 1 && |colors| >= 1
    requires x + thickness * |colors| < maxIter
    ensures Table(colors, thickness, maxIter)[x] == Table(colors, thickness, maxIter)[x + thickness * |colors|]
  {
    EntryPeriodic(colors, thickness, x);
  }

  /**
   * An entry off a stop blends the stop it starts from with the next stop (cyclically),
   * at the fraction of the band already covered, which lies strictly between 0 and 1.
   */
  lemma EntryBetweenStops(colors: seq<Color>, thickness: nat, x: nat)
    requires thickness >= 1 && |colors| >= 1
    requires (x % (thickness * |colors|)) % thickness != 0
    ensures var k := StopIndex(x, thickness, |colors|);
      var e := Entry(colors, thickness, x);
      && e.Blend?
      && e.from == colors[k]
      && e.to == colors[(k + 1) % |colors|]
      && e.frac == ((x % (thickness * |colors|)) % thickness) as real / thickness as real
      && 0.0 < e.frac < 1.0
  {
    var n := x % (thickness * |colors|);
    var r := n % thickness;
    assert 0 < r < thickness;
    assert (r as real) / (thickness as real) < 1.0 by {
      assert (r as real) < (thickness as real);
    }
  }
}
