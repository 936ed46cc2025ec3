/** Products and quotients of natural numbers. */
module Division {
  lemma Larger(a: nat, b: nat, v: nat)
    requires a <= b
    ensures a * v <= b * v
  {
    assert (b - a) * v >= 0;
  }

  lemma Order(a: nat, b: nat, d: nat)
    ensures a < b || b * d <= a * d
  {
    if b <= a { Larger(b, a, d); }
  }

  lemma Bounds(x: nat, d: nat)
    requires d > 0
    ensures x / d * d <= x < (x / d + 1) * d
  {
    var q, r := x / d, x % d;
    assert x == d * q + r;
    Commute(q, d);
    assert (q + 1) * d == q * d + d;
  }

  lemma Commute(a: nat, b: nat)
    ensures a * b == b * a
  {
  }

  /** What fits `q` times has a quotient of at least `q`. */
  lemma AtLeast(x: nat, d: nat, q: nat)
    requires d > 0 && q * d <= x
    ensures q <= x / d
  {
    var y := x / d;
    Bounds(x, d);
    Order(q, y + 1, d);
  }

  lemma Grows(a: nat, b: nat, d: nat)
    requires a <= b && d > 0
    ensures a / d <= b / d
  {
    var q := Fits(a, d);
    AtLeast(b, d, q);
  }

  lemma Fits(a: nat, d: nat) returns (q: nat)
    requires d > 0
    ensures q == a / d && q * d <= a
  {
    q := a / d;
    Bounds(a, d);
  }

  lemma Shrinks(x: nat, less: nat, more: nat)
    requires 1 <= less <= more
    ensures x / more <= x / less
  {
    var q := x / more;
    Bounds(x, more);
    Larger(less, more, q);
    Commute(less, q);
    Commute(more, q);
    AtLeast(x, less, q);
  }

  lemma Exact(v: nat, d: nat)
    requires d > 0
    ensures v * d / d == v
  {
    var x := v * d;
    AtLeast(x, d, v);
    Bounds(x, d);
    Order(v, x / d, d);
    Strict(v, x / d, d);
  }

  lemma Strict(v: nat, q: nat, d: nat)
    requires d > 0 && q * d <= v * d
    ensures q <= v
  {
    Order(v, q, d);
    if v < q { Larger(v + 1, q, d); }
  }
}
