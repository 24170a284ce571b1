/**
 * The escape-time classifier for one point of the complex plane, over exact reals.
 *
 * The iteration is z := z*z + c from z = 0. It stops when the squared modulus reaches the
 * escape threshold (exterior), when the iteration limit is reached (interior), or when the
 * cycle check sees a repeat (interior). The four evaluators of the two calculator variants
 * differ in the cycle policy, in whether the threshold test is `<` or `<=`, and in their
 * limit and threshold; `Evaluator` carries exactly these choices.
 *
 * The stopping rules are stated over an arbitrary trajectory (the state after each
 * iteration); `Classify` applies them to the orbit of c.
 */
module Escape {
  import Arith

  datatype Point = Point(x: real, y: real)

  /** The squares of the two parts of an iterate. */
  datatype Squares = Squares(x2: real, y2: real)

  /** The loop state: the current iterate and its two squares, kept alongside as the loop does. */
  datatype State = State(z: Point, sq: Squares)

  /** z * z + c, in complex arithmetic. */
  function SquarePlus(z: Point, c: Point): Point {
    Point(z.x * z.x - z.y * z.y + c.x, 2.0 * z.x * z.y + c.y)
  }

  /** The state carries the squares of its own iterate. */
  predicate Tracked(s: State) {
    s.sq.x2 == s.z.x * s.z.x && s.sq.y2 == s.z.y * s.z.y
  }

  /** One iteration; the imaginary part is computed from the old real part first. */
  function Advance(c: Point, s: State): State {
    var y := (s.z.x + s.z.x) * s.z.y + c.y;
    var x := s.sq.x2 - s.sq.y2 + c.x;
    State(Point(x, y), Squares(x * x, y * y))
  }

  /**
   * From a state that carries the squares of its iterate, one iteration computes z * z + c
   * and again carries its squares.
   */
  lemma AdvanceIsSquarePlus(c: Point, s: State)
    requires Tracked(s)
    ensures Tracked(Advance(c, s)) && Advance(c, s).z == SquarePlus(s.z, c)
  {
  }

  /** The state after k iterations from z = 0. */
  function Orbit(c: Point, k: nat): State {
    if k == 0 then State(Point(0.0, 0.0), Squares(0.0, 0.0)) else Advance(c, Orbit(c, k - 1))
  }

  /** The orbit is the Mandelbrot iteration: z_0 = 0 and z_(k+1) = z_k * z_k + c. */
  lemma OrbitIsIteration(c: Point, k: nat)
    ensures Orbit(c, 0).z == Point(0.0, 0.0)
    ensures Tracked(Orbit(c, k)) && Orbit(c, k + 1).z == SquarePlus(Orbit(c, k).z, c)
  {
    SquaresTracked(c, k);
    AdvanceIsSquarePlus(c, Orbit(c, k));
  }

  /** The state after each iteration. */
  type Trajectory = nat -> State

  function OrbitOf(c: Point): Trajectory {
    (k: nat) => Orbit(c, k)
  }

  function Modulus2(s: State): real {
    s.sq.x2 + s.sq.y2
  }

  /**
   * SeenSets: every real part goes into one set and, only when the real part was already
   * there, the imaginary part goes into a second set; a repeat in both declares a cycle.
   * Reference: one remembered point, compared on every iteration and replaced every 21.
   */
  datatype Policy = SeenSets | Reference

  datatype Evaluator = Evaluator(policy: Policy, inclusive: bool, maxIter: nat, thresh: real)

  datatype Outcome = Escaped(iter: nat, modulus2: real) | Bounded

  /** The loop keeps going at this squared modulus. */
  predicate Inside(ev: Evaluator, m2: real) {
    if ev.inclusive then m2 <= ev.thresh else m2 < ev.thresh
  }

  /** The real parts seen after n iterations. */
  function XSeen(zs: Trajectory, n: nat): set<real> {
    if n == 0 then {} else XSeen(zs, n - 1) + {zs(n).z.x}
  }

  /** The imaginary parts recorded after n iterations: only those of iterations whose real part repeated. */
  function YSeen(zs: Trajectory, n: nat): set<real> {
    if n == 0 then {}
    else if zs(n).z.x in XSeen(zs, n - 1) then YSeen(zs, n - 1) + {zs(n).z.y}
    else YSeen(zs, n - 1)
  }

  /** The iteration whose point is the reference after iteration k (k >= 1). */
  function RefIndex(k: nat): nat
    requires k >= 1
  {
    if k < 21 then 1 else 21 * (k / 21)
  }

  /** The cycle check fires on iteration k (k >= 1), right after z_k is computed. */
  predicate CycleAt(zs: Trajectory, ev: Evaluator, k: nat)
    requires k >= 1
  {
    match ev.policy
    case SeenSets => zs(k).z.x in XSeen(zs, k - 1) && zs(k).z.y in YSeen(zs, k - 1)
    case Reference => k >= 2 && zs(k).z.x == zs(RefIndex(k - 1)).z.x && zs(k).z.y == zs(RefIndex(k - 1)).z.y
  }

  /**
   * The outcome of the loop when it is about to test its guard with `iter == k`. An escape
   * is reported at an iteration from k on and below the limit, with the squared modulus of
   * that iterate, which is outside the threshold.
   */
  function Run(zs: Trajectory, ev: Evaluator, k: nat): (r: Outcome)
    requires k <= ev.maxIter
    ensures r.Escaped? ==> k <= r.iter < ev.maxIter && r.modulus2 == Modulus2(zs(r.iter)) && !Inside(ev, r.modulus2)
    decreases ev.maxIter - k
  {
    var m2 := Modulus2(zs(k));
    if !Inside(ev, m2) then (if k < ev.maxIter then Escaped(k, m2) else Bounded)
    else if k == ev.maxIter then Bounded
    else if CycleAt(zs, ev, k + 1) then Bounded
    else Run(zs, ev, k + 1)
  }

  /** The verdict for c: an escape comes below the limit, with the squared modulus of that iterate of c outside the threshold. */
  function Classify(c: Point, ev: Evaluator): (r: Outcome)
    ensures r.Escaped? ==> r.iter < ev.maxIter && r.modulus2 == Modulus2(Orbit(c, r.iter)) && !Inside(ev, r.modulus2)
    ensures ev.maxIter == 0 ==> r == Bounded
  {
    Run(OrbitOf(c), ev, 0)
  }

  // ---------------------------------------------------------------------------------------
  // The two loops

  /** The main variant's loop: a set of real parts and a set of imaginary parts. */
  method IterateSets(c: Point, ev: Evaluator) returns (out: Outcome)
    requires ev.policy == SeenSets
    ensures out == Classify(c, ev)
  {
    ghost var zs := OrbitOf(c);
    var s := State(Point(0.0, 0.0), Squares(0.0, 0.0));
    var iter: nat := 0;
    var xSet: set<real> := {};
    var ySet: set<real> := {};
    while Inside(ev, s.sq.x2 + s.sq.y2) && iter < ev.maxIter
      invariant iter <= ev.maxIter
      invariant s == zs(iter)
      invariant xSet == XSeen(zs, iter) && ySet == YSeen(zs, iter)
      invariant Run(zs, ev, iter) == Classify(c, ev)
      decreases ev.maxIter - iter
    {
      s := Advance(c, s);
      iter := iter + 1;
      var xAdded := s.z.x !in xSet;
      xSet := xSet + {s.z.x};
      if !xAdded {
        var yAdded := s.z.y !in ySet;
        ySet := ySet + {s.z.y};
        if !yAdded {
          iter := ev.maxIter;
          break;
        }
      }
    }
    if iter < ev.maxIter {
      out := Escaped(iter, s.sq.x2 + s.sq.y2);
    } else {
      out := Bounded;
    }
  }

  /** The legacy variant's loop: one reference point, replaced whenever `period` passes 20. */
  method IterateReference(c: Point, ev: Evaluator) returns (out: Outcome)
    requires ev.policy == Reference
    ensures out == Classify(c, ev)
  {
    ghost var zs := OrbitOf(c);
    var s := State(Point(0.0, 0.0), Squares(0.0, 0.0));
    var hasRef := false;
    var xOld, yOld := 0.0, 0.0;
    var period: nat := 0;
    var iter: nat := 0;
    while Inside(ev, s.sq.x2 + s.sq.y2) && iter < ev.maxIter
      invariant iter <= ev.maxIter
      invariant s == zs(iter)
      invariant hasRef <==> iter >= 1
      invariant iter >= 1 ==> xOld == zs(RefIndex(iter)).z.x && yOld == zs(RefIndex(iter)).z.y
      invariant period == iter % 21
      invariant Run(zs, ev, iter) == Classify(c, ev)
      decreases ev.maxIter - iter
    {
      RefIndexNext(iter);
      s := Advance(c, s);
      iter := iter + 1;
      if !hasRef {
        xOld, yOld := s.z.x, s.z.y;
        hasRef := true;
      } else if s.z.x == xOld && s.z.y == yOld {
        iter := ev.maxIter;
        break;
      }
      period := period + 1;
      if period > 20 {
        period := 0;
        xOld, yOld := s.z.x, s.z.y;
      }
    }
    if iter < ev.maxIter {
      out := Escaped(iter, s.sq.x2 + s.sq.y2);
    } else {
      out := Bounded;
    }
  }

  // ---------------------------------------------------------------------------------------
  // What the outcome means

  /** z_n is outside the threshold. */
  ghost predicate LeavesAt(zs: Trajectory, ev: Evaluator, n: nat) {
    !Inside(ev, Modulus2(zs(n)))
  }

  /** With iter == k the guard holds and the cycle check of the next iteration does not fire. */
  ghost predicate Proceeds(zs: Trajectory, ev: Evaluator, k: nat) {
    !LeavesAt(zs, ev, k) && !CycleAt(zs, ev, k + 1)
  }

  /** From iteration j up to (not including) n, the loop neither met the threshold nor saw a cycle. */
  ghost predicate Continues(zs: Trajectory, ev: Evaluator, j: nat, n: nat)
    decreases n - j
  {
    j < n ==> Proceeds(zs, ev, j) && Continues(zs, ev, j + 1, n)
  }

  lemma {:induction false} RunEscapes(zs: Trajectory, ev: Evaluator, j: nat, n: nat)
    requires j <= n < ev.maxIter
    ensures Run(zs, ev, j) == Escaped(n, Modulus2(zs(n))) <==> Continues(zs, ev, j, n) && LeavesAt(zs, ev, n)
    decreases n - j
  {
    if j < n {
      if Proceeds(zs, ev, j) {
        RunEscapes(zs, ev, j + 1, n);
      }
    }
  }

  /**
   * The loop stops with "escaped at iteration n with squared modulus m" exactly when n is
   * below the limit, m is the squared modulus of z_n, z_n is outside the threshold, and on
   * every earlier iteration the guard held and the cycle check stayed silent.
   */
  lemma EscapedIff(zs: Trajectory, ev: Evaluator, n: nat, m: real)
    ensures Run(zs, ev, 0) == Escaped(n, m)
        <==> n < ev.maxIter && m == Modulus2(zs(n)) && LeavesAt(zs, ev, n) && Continues(zs, ev, 0, n)
  {
    if n < ev.maxIter {
      RunEscapes(zs, ev, 0, n);
    }
  }

  /** The loop reports an interior point exactly when no iterate below the limit leaves the threshold before a cycle is seen. */
  lemma BoundedIff(zs: Trajectory, ev: Evaluator)
    ensures Run(zs, ev, 0) == Bounded
        <==> forall n: nat :: n < ev.maxIter && Continues(zs, ev, 0, n) ==> !LeavesAt(zs, ev, n)
  {
    if Run(zs, ev, 0) == Bounded {
      forall n: nat | n < ev.maxIter && Continues(zs, ev, 0, n)
        ensures !LeavesAt(zs, ev, n)
      {
        EscapedIff(zs, ev, n, Modulus2(zs(n)));
      }
    } else {
      var o := Run(zs, ev, 0);
      EscapedIff(zs, ev, o.iter, o.modulus2);
    }
  }

  /** A trajectory that stays within the threshold below the limit is reported as interior, cycle or no cycle. */
  lemma StaysInsideIsBounded(zs: Trajectory, ev: Evaluator)
    requires forall k: nat :: k < ev.maxIter ==> !LeavesAt(zs, ev, k)
    ensures Run(zs, ev, 0) == Bounded
  {
    BoundedIff(zs, ev);
  }

  lemma {:induction false} OriginFixed(k: nat)
    ensures Orbit(Point(0.0, 0.0), k) == State(Point(0.0, 0.0), Squares(0.0, 0.0))
  {
    if k > 0 {
      OriginFixed(k - 1);
    }
  }

  /** The origin never leaves 0, so every evaluator whose threshold admits 0 classifies it as interior. */
  lemma OriginIsInterior(ev: Evaluator)
    requires Inside(ev, 0.0)
    ensures Classify(Point(0.0, 0.0), ev) == Bounded
  {
    var zs := OrbitOf(Point(0.0, 0.0));
    forall k: nat | k < ev.maxIter
      ensures !LeavesAt(zs, ev, k)
    {
      OriginFixed(k);
    }
    StaysInsideIsBounded(zs, ev);
  }

  lemma TwoPlusTwoIOrbit(c: Point)
    requires c == Point(2.0, 2.0)
    ensures Orbit(c, 1) == State(Point(2.0, 2.0), Squares(4.0, 4.0))
    ensures Orbit(c, 2) == State(Point(2.0, 10.0), Squares(4.0, 100.0))
    ensures Orbit(c, 3) == State(Point(-94.0, 42.0), Squares(8836.0, 1764.0))
  {
    assert Orbit(c, 1) == Advance(c, Orbit(c, 0));
    assert Orbit(c, 2) == Advance(c, State(Point(2.0, 2.0), Squares(4.0, 4.0)));
    assert Orbit(c, 3) == Advance(c, State(Point(2.0, 10.0), Squares(4.0, 100.0)));
  }

  /** With the main variant's default double evaluator, c = 2+2i leaves the threshold on the third iteration. */
  lemma TwoPlusTwoIEscapesAtThree(c: Point, ev: Evaluator)
    requires c == Point(2.0, 2.0) && ev == Evaluator(SeenSets, true, 10000, 1000.0)
    ensures Classify(c, ev) == Escaped(3, 10600.0)
  {
    var zs := OrbitOf(c);
    TwoPlusTwoIOrbit(c);
    assert zs(0) == State(Point(0.0, 0.0), Squares(0.0, 0.0));
    assert zs(1) == Orbit(c, 1) && zs(2) == Orbit(c, 2) && zs(3) == Orbit(c, 3);
    assert XSeen(zs, 1) == {2.0} && YSeen(zs, 1) == {};
    assert XSeen(zs, 2) == {2.0} && YSeen(zs, 2) == {10.0};
    assert Proceeds(zs, ev, 0) && Proceeds(zs, ev, 1) && Proceeds(zs, ev, 2);
    assert Continues(zs, ev, 2, 3) && Continues(zs, ev, 1, 3) && Continues(zs, ev, 0, 3);
    EscapedIff(zs, ev, 3, 10600.0);
  }

  // ---------------------------------------------------------------------------------------
  // What the cycle checks mean

  lemma {:induction false} XSeenIff(zs: Trajectory, n: nat, v: real)
    ensures v in XSeen(zs, n) <==> exists i :: 1 <= i <= n && zs(i).z.x == v
  {
    if n > 0 {
      XSeenIff(zs, n - 1, v);
      if zs(n).z.x == v {
        assert 1 <= n <= n && zs(n).z.x == v;
      }
    }
  }

  lemma {:induction false} YSeenIff(zs: Trajectory, n: nat, v: real)
    ensures v in YSeen(zs, n) <==> exists i :: 1 <= i <= n && zs(i).z.y == v && zs(i).z.x in XSeen(zs, i - 1)
  {
    if n > 0 {
      YSeenIff(zs, n - 1, v);
      if zs(n).z.y == v && zs(n).z.x in XSeen(zs, n - 1) {
        assert 1 <= n <= n && zs(n).z.y == v && zs(n).z.x in XSeen(zs, n - 1);
      }
    }
  }

  /**
   * The main variant's check fires when the real part and the imaginary part of z_k were
   * both seen before, each on some earlier iteration, not necessarily the same one.
   */
  lemma SetsCycleMeaning(zs: Trajectory, ev: Evaluator, k: nat)
    requires ev.policy == SeenSets && k >= 1 && CycleAt(zs, ev, k)
    ensures exists i :: 1 <= i < k && zs(i).z.x == zs(k).z.x
    ensures exists j :: 1 <= j < k && zs(j).z.y == zs(k).z.y
  {
    XSeenIff(zs, k - 1, zs(k).z.x);
    YSeenIff(zs, k - 1, zs(k).z.y);
  }

  lemma RefIndexBounds(k: nat)
    requires k >= 1
    ensures 1 <= RefIndex(k) <= k && k - RefIndex(k) <= 20
  {
    if k >= 21 {
      var q, r := k / 21, k % 21;
      assert k == 21 * q + r;
    }
  }

  /** How the reference moves on one iteration: it is replaced exactly when the count reaches a multiple of 21. */
  lemma RefIndexNext(k: nat)
    ensures (k + 1) % 21 == if k % 21 == 20 then 0 else k % 21 + 1
    ensures k >= 1 ==> RefIndex(k + 1) == if k % 21 == 20 then k + 1 else RefIndex(k)
    ensures RefIndex(1) == 1
  {
    Arith.ModNext(k, 21);
  }

  /** The squares the state carries are the squares of its coordinates. */
  lemma SquaresTracked(c: Point, k: nat)
    ensures Orbit(c, k).sq.x2 == Orbit(c, k).z.x * Orbit(c, k).z.x
    ensures Orbit(c, k).sq.y2 == Orbit(c, k).z.y * Orbit(c, k).z.y
  {
  }

  lemma {:induction false} OrbitShift(c: Point, i: nat, j: nat, t: nat)
    requires Orbit(c, i) == Orbit(c, j)
    ensures Orbit(c, i + t) == Orbit(c, j + t)
  {
    if t > 0 {
      OrbitShift(c, i, j, t - 1);
    }
  }

  /** Where iterate n falls back to once z_k has repeated z_j. */
  function Wrap(n: nat, j: nat, k: nat): (m: nat)
    requires j < k
    ensures m < k
  {
    if n < k then n else j + (n - j) % (k - j)
  }

  lemma {:induction false} RepeatsEarlier(c: Point, j: nat, k: nat, n: nat)
    requires j < k && Orbit(c, j) == Orbit(c, k)
    ensures Orbit(c, n) == Orbit(c, Wrap(n, j, k))
    decreases n
  {
    if n >= k {
      var p := k - j;
      OrbitShift(c, k, j, n - k);
      RepeatsEarlier(c, j, k, n - p);
      Arith.ModShift(n - k, p);
      if n - p < k {
        Arith.DivModUnique(n - k, p, 0, n - k);
      }
    }
  }

  /**
   * The legacy variant's check is sound: when it fires on iteration k, z_k equals the
   * reference iterate, at most 21 steps back, so every iterate repeats one of z_0..z_(k-1)
   * and the orbit is bounded.
   */
  lemma ReferenceCycleIsPeriodic(c: Point, ev: Evaluator, k: nat, n: nat)
    requires ev.policy == Reference && k >= 1 && CycleAt(OrbitOf(c), ev, k)
    ensures k >= 2 && 1 <= RefIndex(k - 1) < k && k - RefIndex(k - 1) <= 21
    ensures Orbit(c, RefIndex(k - 1)) == Orbit(c, k)
    ensures Orbit(c, n) == Orbit(c, Wrap(n, RefIndex(k - 1), k))
  {
    var j := RefIndex(k - 1);
    RefIndexBounds(k - 1);
    assert OrbitOf(c)(j) == Orbit(c, j) && OrbitOf(c)(k) == Orbit(c, k);
    SquaresTracked(c, j);
    SquaresTracked(c, k);
    RepeatsEarlier(c, j, k, n);
  }

  // ---------------------------------------------------------------------------------------
  // Points beyond radius 2

  /** The squared modulus of a point. */
  function Norm2(p: Point): real {
    p.x * p.x + p.y * p.y
  }

  /** Cauchy-Schwarz in the plane: the product of a point with another is bounded by their moduli. */
  lemma DotBound(a: real, b: real, u: real, v: real)
    ensures (a * u + b * v) * (a * u + b * v) <= (a * a + b * b) * (u * u + v * v)
  {
    assert (a * a + b * b) * (u * u + v * v) - (a * u + b * v) * (a * u + b * v) == (a * v - b * u) * (a * v - b * u);
  }

  lemma ProductNonnegative(p: real, q: real)
    requires p >= 0.0 && q >= 0.0
    ensures p * q >= 0.0
  {
  }

  /**
   * The polynomial core of the growth bound: with m the squared modulus of z and k that of c,
   * m >= k > 4 gives (m*m + k - m)^2 > 4*m*m*k.
   */
  lemma GrowthPolynomial(m: real, k: real)
    requires m >= k > 4.0
    ensures m * m + k - m > 0.0
    ensures (m * m + k - m) * (m * m + k - m) > 4.0 * m * m * k
  {
    ProductNonnegative(m, m - 1.0);
    var q := m * m + k - m;
    var g := q * q - 4.0 * m * m * k;
    var d := m * (m + 1.0);
    assert g == k * k - 2.0 * d * k + (m * m - m) * (m * m - m);
    assert g - (m * m - m) * (m * m - m) + 2.0 * d * m - m * m == (m - k) * (2.0 * d - k - m);
    ProductNonnegative(m - k, 2.0 * d - k - m);
    assert g >= (m * m - m) * (m * m - m) - 2.0 * d * m + m * m;
    var t := m * m;
    assert (m * m - m) * (m * m - m) - 2.0 * d * m + m * m == t * (t - 4.0 * m);
    ProductNonnegative(m, m - 4.0);
    assert t - 4.0 * m > 0.0;
    assert t > 0.0;
    assert t * (t - 4.0 * m) > 0.0;
  }

  /**
   * Beyond radius 2, an iterate at least as far out as c is followed by one strictly
   * further out: |z*z + c|^2 > |z|^2 when |z|^2 >= |c|^2 > 4.
   */
  lemma GrowsBeyondTwo(z: Point, c: Point)
    requires Norm2(c) > 4.0 && Norm2(z) >= Norm2(c)
    ensures Norm2(SquarePlus(z, c)) > Norm2(z)
  {
    var wx, wy := z.x * z.x - z.y * z.y, 2.0 * z.x * z.y;
    SquareModulus(z.x, z.y);
    SumModulus(wx, wy, c.x, c.y);
    DotBound(wx, wy, c.x, c.y);
    GrowthStep(Norm2(z), Norm2(c), wx * c.x + wy * c.y, Norm2(SquarePlus(z, c)));
  }

  /** |z * z|^2 == (|z|^2)^2. */
  lemma SquareModulus(x: real, y: real)
    ensures (x * x - y * y) * (x * x - y * y) + (2.0 * x * y) * (2.0 * x * y) == (x * x + y * y) * (x * x + y * y)
  {
  }

  /** |w + c|^2 == |w|^2 + 2 (w . c) + |c|^2. */
  lemma SumModulus(u: real, v: real, a: real, b: real)
    ensures (u + a) * (u + a) + (v + b) * (v + b) == (u * u + v * v) + 2.0 * (u * a + v * b) + (a * a + b * b)
  {
  }

  /** With n == m*m + 2p + k and p^2 <= m*m*k, m >= k > 4 gives n > m. */
  lemma GrowthStep(m: real, k: real, p: real, n: real)
    requires m >= k > 4.0 && p * p <= (m * m) * k && n == m * m + 2.0 * p + k
    ensures n > m
  {
    GrowthPolynomial(m, k);
    var q := m * m + k - m;
    assert (2.0 * p) * (2.0 * p) < q * q;
    BelowSquare(2.0 * p, q);
  }

  /** a^2 < b^2 with b > 0 gives a > -b. */
  lemma BelowSquare(a: real, b: real)
    requires b > 0.0 && a * a < b * b
    ensures a > -b
  {
    if a <= -b {
      ProductNonnegative(-a - b, b - a);
    }
  }

  lemma OrbitModulus(c: Point, k: nat)
    ensures Modulus2(Orbit(c, k)) == Norm2(Orbit(c, k).z)
  {
    SquaresTracked(c, k);
  }

  /** z_0 = 0 and z_1 = c. */
  lemma OrbitFirst(c: Point)
    ensures Modulus2(Orbit(c, 0)) == 0.0 && Modulus2(Orbit(c, 1)) == Norm2(c)
  {
    assert Orbit(c, 1) == Advance(c, State(Point(0.0, 0.0), Squares(0.0, 0.0)));
  }

  /** One step of the orbit in terms of squared moduli of points. */
  lemma OrbitStep(c: Point, k: nat)
    ensures Modulus2(Orbit(c, k)) == Norm2(Orbit(c, k).z)
    ensures Modulus2(Orbit(c, k + 1)) == Norm2(SquarePlus(Orbit(c, k).z, c))
  {
    OrbitIsIteration(c, k);
    OrbitModulus(c, k);
    OrbitModulus(c, k + 1);
  }

  /** Beyond radius 2 the squared modulus of the orbit strictly increases: z_1 = c, and each iterate moves further out. */
  lemma {:induction false} OrbitGrows(c: Point, k: nat)
    requires Norm2(c) > 4.0
    ensures Modulus2(Orbit(c, k)) < Modulus2(Orbit(c, k + 1))
    ensures Modulus2(Orbit(c, k + 1)) >= Norm2(c)
  {
    if k == 0 {
      OrbitFirst(c);
    } else {
      OrbitStep(c, k);
      OrbitGrows(c, k - 1);
      GrowsBeyondTwo(Orbit(c, k).z, c);
    }
  }

  lemma {:induction false} OrbitGrowsBetween(c: Point, j: nat, k: nat)
    requires Norm2(c) > 4.0 && j < k
    ensures Modulus2(Orbit(c, j)) < Modulus2(Orbit(c, k))
    decreases k - j
  {
    OrbitGrows(c, j);
    if j + 1 < k {
      OrbitGrowsBetween(c, j + 1, k);
    }
  }

  /** Beyond radius 2 the orbit never returns to an earlier iterate, so the reference-point check never fires. */
  lemma NoReferenceCycle(c: Point, ev: Evaluator, k: nat)
    requires Norm2(c) > 4.0 && ev.policy == Reference && k >= 1
    ensures !CycleAt(OrbitOf(c), ev, k)
  {
    if k >= 2 {
      var j := RefIndex(k - 1);
      RefIndexBounds(k - 1);
      OrbitGrowsBetween(c, j, k);
      OrbitModulus(c, j);
      OrbitModulus(c, k);
      assert Orbit(c, j).z != Orbit(c, k).z;
      assert OrbitOf(c)(j) == Orbit(c, j) && OrbitOf(c)(k) == Orbit(c, k);
    }
  }

  lemma {:induction false} RunReachesEscape(c: Point, ev: Evaluator, j: nat, n: nat)
    requires Norm2(c) > 4.0 && ev.policy == Reference
    requires j <= n < ev.maxIter && LeavesAt(OrbitOf(c), ev, n)
    ensures Run(OrbitOf(c), ev, j).Escaped? && Run(OrbitOf(c), ev, j).iter <= n
    decreases n - j
  {
    if !LeavesAt(OrbitOf(c), ev, j) {
      NoReferenceCycle(c, ev, j + 1);
      RunReachesEscape(c, ev, j + 1, n);
    }
  }

  /**
   * Under the reference-point check, a point beyond radius 2 whose orbit leaves the threshold
   * below the limit is exterior, at or before that iterate.
   */
  lemma ExteriorBeyondTwo(c: Point, ev: Evaluator, n: nat)
    requires Norm2(c) > 4.0 && ev.policy == Reference
    requires n < ev.maxIter && !Inside(ev, Modulus2(Orbit(c, n)))
    ensures Classify(c, ev).Escaped? && Classify(c, ev).iter <= n
  {
    assert OrbitOf(c)(n) == Orbit(c, n);
    RunReachesEscape(c, ev, 0, n);
  }
}
