/** Facts about integer multiplication, division and remainder that the solver does not find alone. */
module Arith {

  lemma {:induction false} MulMonotone(a: nat, b: nat, d: nat)
    requires a <= b
    ensures a * d <= b * d
  {
    if d > 0 {
      MulMonotone(a, b, d - 1);
      assert a * d == a * (d - 1) + a;
      assert b * d == b * (d - 1) + b;
    }
  }

  lemma {:induction false} MulPositive(a: nat, b: nat)
    requires a >= 1 && b >= 1
    ensures a * b >= 1
  {
    MulMonotone(1, a, b);
  }

  /** The quotient of a number below `d * count` is below `count`. */
  lemma {:induction false} DivBelow(n: nat, d: nat, count: nat)
    requires d >= 1 && n < d * count
    ensures n / d < count
  {
    var q, r := n / d, n % d;
    assert n == d * q + r;
    if q >= count {
      MulMonotone(count, q, d);
    }
  }

  /** Quotient and remainder are unique. */
  lemma {:induction false} DivModUnique(n: nat, p: nat, q: nat, r: nat)
    requires p >= 1 && r < p && n == p * q + r
    ensures n % p == r && n / p == q
  {
    var q', r' := n / p, n % p;
    assert n == p * q' + r';
    if q' < q {
      MulMonotone(q' + 1, q, p);
    } else if q' > q {
      MulMonotone(q + 1, q', p);
    }
  }

  /** Division by a positive number keeps order. */
  lemma {:induction false} DivMonotone(a: nat, b: nat, d: nat)
    requires a <= b && d >= 1
    ensures a / d <= b / d
  {
    var qa, qb := a / d, b / d;
    assert a == d * qa + a % d;
    assert b == d * qb + b % d;
    if qa > qb {
      MulMonotone(qb + 1, qa, d);
    }
  }

  /** Adding the modulus does not change the remainder. */
  lemma {:induction false} ModShift(x: nat, p: nat)
    requires p >= 1
    ensures (x + p) % p == x % p
  {
    var q, r := x / p, x % p;
    assert x == p * q + r;
    assert x + p == p * (q + 1) + r;
    DivModUnique(x + p, p, q + 1, r);
  }

  /** Counting up by one: the remainder wraps to 0 exactly when the quotient steps. */
  lemma ModNext(x: nat, p: nat)
    requires p >= 1
    ensures (x + 1) % p == if x % p == p - 1 then 0 else x % p + 1
    ensures (x + 1) / p == if x % p == p - 1 then x / p + 1 else x / p
  {
    var q, r := x / p, x % p;
    assert x == p * q + r;
    if r == p - 1 {
      DivModUnique(x + 1, p, q + 1, 0);
    } else {
      DivModUnique(x + 1, p, q, r + 1);
    }
  }
}
