/** The Wilson score interval in exact reals. The square root enters as a
    nonnegative real whose square is given. */
module Wilson {
  import opened Outcomes

  /** The two-sided 95 % quantile used by the study metrics. */
  const Z := 1.959963984540054

  /** Success share, and the squared quantile per observation. */
  function Share(success: nat, total: nat): real
    requires total > 0
  {
    success as real / total as real
  }

  function Weight(z: real, total: nat): real
    requires total > 0
  {
    z * z / total as real
  }

  /** What the radius takes the square root of. */
  function Radicand(z: real, success: nat, total: nat): real
    requires total > 0
  {
    var p := Share(success, total);
    p * (1.0 - p) / total as real + z * z / (4.0 * total as real * total as real)
  }

  /** `root` is the square root in the radius. */
  predicate IsRoot(root: real, z: real, success: nat, total: nat)
    requires total > 0
  {
    root >= 0.0 && root * root == Radicand(z, success, total)
  }

  function Den(z: real, total: nat): real
    requires total > 0
  {
    1.0 + z * z / total as real
  }

  function Mid(z: real, success: nat, total: nat): real
    requires total > 0 && Den(z, total) != 0.0
  {
    (Share(success, total) + z * z / (2.0 * total as real)) / Den(z, total)
  }

  function Rad(z: real, root: real, total: nat): real
    requires total > 0 && Den(z, total) != 0.0
  {
    z * root / Den(z, total)
  }

  datatype Interval = Interval(lower: real, upper: real)

  /** Before clamping. */
  function Unclamped(z: real, root: real, success: nat, total: nat): Interval
    requires total > 0 && Den(z, total) != 0.0
  {
    Interval(Mid(z, success, total) - Rad(z, root, total), Mid(z, success, total) + Rad(z, root, total))
  }

  /** After clamping to the unit interval. */
  function Bounds(z: real, root: real, success: nat, total: nat): Interval
    requires total > 0 && Den(z, total) != 0.0
  {
    var i := Unclamped(z, root, success, total);
    Interval(if i.lower > 0.0 then i.lower else 0.0, if i.upper < 1.0 then i.upper else 1.0)
  }

  // ------------------------------------------------------------------
  // Algebra over the share p, the weight a = z*z/total and w = z*root
  // ------------------------------------------------------------------

  function Sq(x: real): real {
    x * x
  }

  lemma PositiveProduct(x: real, y: real) returns (m: real)
    requires x > 0.0 && y > 0.0
    ensures m == x * y && m > 0.0
  {
    m := x * y;
  }

  lemma Product(x: real, y: real) returns (m: real)
    requires x >= 0.0 && y >= 0.0
    ensures m == x * y && m >= 0.0
  {
    m := x * y;
  }

  lemma SameFactor(x: real, y: real, n: real)
    requires n > 0.0
    ensures x * n == y * n ==> x == y
    ensures x * n >= y * n ==> x >= y
  {
    if x > y { var m := PositiveProduct(x - y, n); }
    if x < y { var m := PositiveProduct(y - x, n); }
  }

  lemma StrictSquares(x: real, y: real)
    requires 0.0 <= x < y
    ensures Sq(x) < Sq(y)
  {
    var m := PositiveProduct(y - x, x + y);
    assert Sq(y) - Sq(x) == m;
  }

  lemma SquareOrder(x: real, y: real)
    requires y >= 0.0
    ensures Sq(x) <= Sq(y) ==> x <= y
    ensures Sq(x) < Sq(y) ==> x < y
    ensures Sq(x) == Sq(y) && x >= 0.0 ==> x == y
  {
    hide Sq;
    if x > y {
      StrictSquares(y, x);
    } else if 0.0 <= x < y {
      StrictSquares(x, y);
    }
  }

  /** How far the squared reach to zero exceeds the squared radius. */
  function Gap0(p: real, a: real): real {
    p * p * (1.0 + a)
  }

  lemma Gap0Sign(p: real, a: real)
    requires p >= 0.0 && a >= 0.0
    ensures p == 0.0 ==> Gap0(p, a) == 0.0
    ensures p > 0.0 ==> Gap0(p, a) > 0.0
  {
    if p > 0.0 {
      var q := PositiveProduct(p, 1.0 + a);
      var m := PositiveProduct(p, q);
      assert Gap0(p, a) == m;
    }
  }

  predicate Radius(p: real, a: real, w: real) {
    0.0 <= p <= 1.0 && a >= 0.0 && w >= 0.0 && Sq(w) == a * (p * (1.0 - p)) + a * a / 4.0
  }

  lemma RadiusGap(p: real, a: real, w: real)
    requires Radius(p, a, w)
    ensures Sq(p + a / 2.0) == Sq(w) + Gap0(p, a)
  {
    assert a * (p * (1.0 - p)) == a * p - a * (p * p);
  }

  /** The radius never reaches below zero, and reaches it only for share zero. */
  lemma RadiusBelow(p: real, a: real, w: real)
    requires Radius(p, a, w)
    ensures w <= p + a / 2.0
    ensures w == p + a / 2.0 <==> p == 0.0
  {
    RadiusGap(p, a, w);
    Gap0Sign(p, a);
    SquareOrder(w, p + a / 2.0);
    hide Sq, Gap0;
  }

  lemma RadiusMirrors(p: real, a: real, w: real)
    requires Radius(p, a, w)
    ensures Radius(1.0 - p, a, w)
  {
    assert (1.0 - p) * (1.0 - (1.0 - p)) == p * (1.0 - p);
  }

  lemma CentreGap(p: real, a: real)
    requires 0.0 <= p <= 1.0 && a >= 0.0
    ensures Sq(a * (0.5 - p)) <= a * a / 4.0
    ensures a * (p * (1.0 - p)) >= 0.0
  {
    var v := Product(p, 1.0 - p);
    assert Sq(0.5 - p) == 0.25 - v;
    var b := Product(a, a);
    var m := Product(b, v);
    var k := Product(a, v);
    assert Sq(a * (0.5 - p)) == b * Sq(0.5 - p);
    assert b * (0.25 - v) == b * 0.25 - m;
  }

  /** The radius reaches the share itself from the centre of the interval. */
  lemma RadiusCovers(p: real, a: real, w: real)
    requires Radius(p, a, w)
    ensures a * (0.5 - p) <= w
  {
    CentreGap(p, a);
    SquareOrder(a * (0.5 - p), w);
    hide Sq;
  }

  // ------------------------------------------------------------------
  // From counts to the algebra
  // ------------------------------------------------------------------

  lemma QuotientRange(s: real, n: real)
    requires n > 0.0 && 0.0 <= s <= n
    ensures 0.0 <= s / n <= 1.0
    ensures s / n == 0.0 <==> s == 0.0
  {
  }

  lemma WholeQuotient(s: real, n: real)
    requires n > 0.0
    ensures s / n == 1.0 <==> s == n
  {
    assert s == n ==> s / n == 1.0;
    if s / n == 1.0 {
      assert s == 1.0 * n;
    }
  }

  lemma RestQuotient(s: real, n: real)
    requires n > 0.0
    ensures (n - s) / n == 1.0 - s / n
  {
    var p, q := s / n, (n - s) / n;
    assert p * n == s;
    assert (1.0 - p) * n == n - s;
    assert q * n == n - s;
    SameFactor(1.0 - p, q, n);
  }

  lemma ShareRange(success: nat, total: nat)
    requires total > 0 && success <= total
    ensures 0.0 <= Share(success, total) <= 1.0
    ensures Share(success, total) == 0.0 <==> success == 0
    ensures Share(success, total) == 1.0 <==> success == total
    ensures Share(total - success, total) == 1.0 - Share(success, total)
  {
    var n, s := total as real, success as real;
    assert (total - success) as real == n - s;
    QuotientRange(s, n);
    WholeQuotient(s, n);
    RestQuotient(s, n);
  }

  lemma WeightScales(z: real, total: nat, x: real)
    requires total > 0
    ensures Weight(z, total) >= 0.0
    ensures z * z * (x / total as real) == Weight(z, total) * x
    ensures z * z / (2.0 * total as real) == Weight(z, total) / 2.0
    ensures z * z * (z * z / (4.0 * total as real * total as real)) == Weight(z, total) * Weight(z, total) / 4.0
  {
    var n := total as real;
    var k := z * z;
    var a := k / n;
    assert a * n == k;
    assert k >= 0.0;
    var y := x / n;
    assert y * n == x;
    assert k * y == a * (n * y);
    assert k / (2.0 * n) == a / 2.0;
    var u := k / (4.0 * n * n);
    assert 4.0 * n * n > 0.0;
    assert u * (4.0 * n * n) == k;
    assert (u * 4.0 * n) * n == a * n;
    assert u * 4.0 * n == a;
    assert k * u == a * n * u;
  }

  lemma RootIsRadius(z: real, root: real, success: nat, total: nat)
    requires total > 0 && success <= total && z >= 0.0 && IsRoot(root, z, success, total)
    ensures Radius(Share(success, total), Weight(z, total), z * root)
  {
    var p, a := Share(success, total), Weight(z, total);
    var t1 := p * (1.0 - p) / total as real;
    var t2 := z * z / (4.0 * total as real * total as real);
    ShareRange(success, total);
    WeightScales(z, total, p * (1.0 - p));
    var w := Product(z, root);
    SquareOfProduct(z, root, t1, t2);
    hide Share, Weight, Sq;
  }

  lemma SquareOfProduct(z: real, root: real, s: real, t: real)
    requires root * root == s + t
    ensures Sq(z * root) == z * z * s + z * z * t
  {
    assert Sq(z * root) == z * z * (root * root);
    assert z * z * (s + t) == z * z * s + z * z * t;
  }

  lemma Divide(x: real, d: real)
    requires d > 0.0
    ensures x >= 0.0 ==> x / d >= 0.0
    ensures x / d == 0.0 <==> x == 0.0
  {
    var q := x / d;
    assert q * d == x;
  }

  lemma Combine(x: real, y: real, d: real)
    requires d > 0.0
    ensures x / d - y / d == (x - y) / d && x / d + y / d == (x + y) / d
  {
  }

  /** For every count and every quantile the unclamped interval lies inside [0, 1]
      and contains the observed share, so neither clamp ever changes a bound; a
      bound touches the end exactly when there is no success, or no failure. */
  lemma WilsonInterval(z: real, root: real, success: nat, total: nat)
    requires total > 0 && success <= total && z >= 0.0 && IsRoot(root, z, success, total)
    ensures Den(z, total) >= 1.0
    ensures Bounds(z, root, success, total) == Unclamped(z, root, success, total)
    ensures var i := Unclamped(z, root, success, total);
            && 0.0 <= i.lower <= Share(success, total) <= i.upper <= 1.0
            && (i.lower == 0.0 <==> success == 0)
            && (i.upper == 1.0 <==> success == total)
  {
    ShareRange(success, total);
    RootIsRadius(z, root, success, total);
    Shape(z, root, success, total);
    var p, a, w := Share(success, total), Weight(z, total), z * root;
    IntervalFacts(p, a, w);
    RadiusMirrors(p, a, w);
    IntervalFacts(1.0 - p, a, w);
    hide Share, Weight, Den, Mid, Rad, Radius, IsRoot;
    Complement(p + a / 2.0, w, 1.0 + a);
  }

  /** Both ends over the common denominator. */
  lemma Shape(z: real, root: real, success: nat, total: nat)
    requires total > 0
    ensures Den(z, total) == 1.0 + Weight(z, total) >= 1.0
    ensures Unclamped(z, root, success, total)
         == Interval((Share(success, total) + Weight(z, total) / 2.0 - z * root) / (1.0 + Weight(z, total)),
                     (Share(success, total) + Weight(z, total) / 2.0 + z * root) / (1.0 + Weight(z, total)))
  {
    WeightScales(z, total, 0.0);
    Combine(Share(success, total) + Weight(z, total) / 2.0, z * root, 1.0 + Weight(z, total));
  }

  /** The lower end; the upper end follows by mirroring. */
  lemma IntervalFacts(p: real, a: real, w: real)
    requires Radius(p, a, w)
    ensures var lower := (p + a / 2.0 - w) / (1.0 + a);
            0.0 <= lower <= p && (lower == 0.0 <==> p == 0.0)
  {
    RadiusBelow(p, a, w);
    RadiusCovers(p, a, w);
    var y, d := p + a / 2.0 - w, 1.0 + a;
    Divide(y, d);
    assert p * d - y == w - a * (0.5 - p);
    hide Radius;
    Gap(p, y, d);
  }

  lemma Complement(m: real, w: real, d: real)
    requires d > 0.0
    ensures (m + w) / d == 1.0 - (d - m - w) / d
  {
    Combine(d, d - m - w, d);
    assert d / d == 1.0;
  }

  /** Comparing a quotient with a value by comparing with the value times `d`. */
  lemma Gap(x: real, y: real, d: real)
    requires d > 0.0
    ensures x * d >= y ==> x >= y / d
  {
    var q := y / d;
    assert q * d == y;
    SameFactor(x, q, d);
  }

  lemma MirrorRoot(z: real, root: real, success: nat, total: nat)
    requires total > 0 && success <= total && IsRoot(root, z, success, total)
    ensures IsRoot(root, z, total - success, total)
  {
    ShareRange(success, total);
    var p := Share(success, total);
    hide Share;
    assert (1.0 - p) * (1.0 - (1.0 - p)) == p * (1.0 - p);
  }

  /** Exchanging successes and failures mirrors the interval about one half. */
  lemma WilsonMirror(z: real, root: real, success: nat, total: nat)
    requires total > 0 && success <= total && z >= 0.0 && IsRoot(root, z, success, total)
    ensures IsRoot(root, z, total - success, total) && Den(z, total) >= 1.0
    ensures var i, j := Bounds(z, root, success, total), Bounds(z, root, total - success, total);
            j.lower == 1.0 - i.upper && j.upper == 1.0 - i.lower
  {
    MirrorRoot(z, root, success, total);
    ShareRange(success, total);
    var p, a, w := Share(success, total), Weight(z, total), z * root;
    WilsonInterval(z, root, success, total);
    WilsonInterval(z, root, total - success, total);
    Shape(z, root, success, total);
    Shape(z, root, total - success, total);
    hide Share, Weight, Den, Mid, Rad, Unclamped, Bounds, IsRoot, Radicand;
    Complement(p + a / 2.0, w, 1.0 + a);
    Complement(p + a / 2.0, -w, 1.0 + a);
  }

  /** The published interval: none without observations, else the clamped bounds at
      the two-sided 95 % quantile. */
  function StudyInterval(root: real, success: nat, total: nat): Option<Interval> {
    if total == 0 then None
    else
      Shape(Z, root, success, total);
      Some(Bounds(Z, root, success, total))
  }

  // ------------------------------------------------------------------
  // The ends as solutions of the score equation
  // ------------------------------------------------------------------

  /** Seen from `x`, the observed share is exactly the 95 % quantile away. */
  ghost predicate ScoreEnd(x: real, success: nat, total: nat)
    requires total > 0
  {
    total as real * Sq(x - success as real / total as real) == Sq(1.959963984540054) * (x * (1.0 - x))
  }

  /** Both roots of the quadratic, whatever the sign of `s`. */
  lemma EndSolves(p: real, a: real, s: real, x: real)
    requires a >= 0.0 && x * (1.0 + a) == p + a / 2.0 + s && Sq(s) == a * (p * (1.0 - p)) + a * a / 4.0
    ensures Sq(x - p) == a * (x * (1.0 - x))
  {
    var d, m := 1.0 + a, p + a / 2.0;
    var excess := Sq(x - p) - a * (x * (1.0 - x));
    assert excess == x * (x * d) - 2.0 * (x * m) + p * p;
    assert x * (x * d) == x * m + x * s;
    assert excess == x * s - x * m + p * p;
    assert excess * d == (x * d) * s - (x * d) * m + p * p * d;
    SquareDifference(s, m);
    assert excess * d == Sq(s) - Sq(m) + p * p * d;
    assert Sq(m) == p * p + p * a + a * a / 4.0;
    assert a * (p * (1.0 - p)) == a * p - a * (p * p);
    assert excess * d == 0.0;
    SameFactor(excess, 0.0, d);
  }

  lemma SquareDifference(s: real, m: real)
    ensures (m + s) * s - (m + s) * m == Sq(s) - Sq(m)
  {
  }

  lemma ScaledEnd(x: real, success: nat, total: nat)
    requires total > 0 && Sq(x - Share(success, total)) == Weight(Z, total) * (x * (1.0 - x))
    ensures ScoreEnd(x, success, total)
  {
    var n, a, v := total as real, Weight(Z, total), x * (1.0 - x);
    assert n * a == Z * Z;
    assert n * (a * v) == (n * a) * v;
  }

  lemma RadiusIsPositive(p: real, a: real, w: real)
    requires Radius(p, a, w) && a > 0.0
    ensures w > 0.0
  {
    CentreGap(p, a);
    var m := PositiveProduct(a, a);
    assert Sq(w) > 0.0;
  }

  lemma QuotientTimes(m: real, d: real)
    requires d > 0.0
    ensures m / d * d == m
  {
  }

  lemma QuotientLess(x: real, y: real, d: real)
    requires d > 0.0 && x < y
    ensures x / d < y / d
  {
    QuotientTimes(x, d);
    QuotientTimes(y, d);
    SameFactor(x / d, y / d, d);
  }

  lemma EndOf(success: nat, total: nat, s: real, x: real)
    requires total > 0 && Weight(Z, total) >= 0.0
    requires x == (Share(success, total) + Weight(Z, total) / 2.0 + s) / (1.0 + Weight(Z, total))
    requires var p, a := Share(success, total), Weight(Z, total); Sq(s) == a * (p * (1.0 - p)) + a * a / 4.0
    ensures ScoreEnd(x, success, total)
  {
    hide *;
    var p, a := Share(success, total), Weight(Z, total);
    QuotientTimes(p + a / 2.0 + s, 1.0 + a);
    EndSolves(p, a, s, x);
    ScaledEnd(x, success, total);
  }

  /** The published ends are the two roots of the score equation. */
  lemma EndsSolve(root: real, success: nat, total: nat)
    requires total > 0 && success <= total && IsRoot(root, Z, success, total)
    ensures Den(Z, total) >= 1.0
    ensures var i := Unclamped(Z, root, success, total);
            i.lower < i.upper && ScoreEnd(i.lower, success, total) && ScoreEnd(i.upper, success, total)
  {
    RootIsRadius(Z, root, success, total);
    Shape(Z, root, success, total);
    WeightIsPositive(total);
    var p, a, w := Share(success, total), Weight(Z, total), Z * root;
    hide *;
    RadiusIsPositive(p, a, w);
    RadiusSquare(p, a, w);
    SquareOfNegative(w);
    var i := Unclamped(Z, root, success, total);
    EndOf(success, total, -w, i.lower);
    EndOf(success, total, w, i.upper);
    QuotientLess(p + a / 2.0 - w, p + a / 2.0 + w, 1.0 + a);
  }

  lemma RadiusSquare(p: real, a: real, w: real)
    requires Radius(p, a, w)
    ensures a >= 0.0 && Sq(w) == a * (p * (1.0 - p)) + a * a / 4.0
  {
  }

  lemma SquareOfNegative(w: real)
    ensures Sq(-w) == Sq(w)
  {
  }

  lemma WeightIsPositive(total: nat)
    requires total > 0
    ensures Weight(Z, total) > 0.0
  {
    var n, a := total as real, Weight(Z, total);
    assert a * n == Z * Z;
    SameFactor(0.0, a, n);
  }

  /** It exists exactly with observations; its ends are the two solutions of the
      score equation, and it contains the observed share. */
  lemma StudyIntervalCovers(root: real, success: nat, total: nat)
    requires success <= total && (total > 0 ==> IsRoot(root, Z, success, total))
    ensures StudyInterval(root, success, total).Some? <==> total > 0
    ensures total > 0 ==> var i := StudyInterval(root, success, total).value;
                          && 0.0 <= i.lower <= Share(success, total) <= i.upper <= 1.0
                          && (i.lower == 0.0 <==> success == 0) && (i.upper == 1.0 <==> success == total)
                          && i.lower < i.upper
                          && ScoreEnd(i.lower, success, total) && ScoreEnd(i.upper, success, total)
  {
    if total > 0 {
      WilsonInterval(Z, root, success, total);
      EndsSolve(root, success, total);
    }
    hide Share, Bounds, ScoreEnd;
  }

  lemma RadicandIsNonNegative(z: real, success: nat, total: nat)
    requires total > 0 && success <= total
    ensures Radicand(z, success, total) >= 0.0
  {
    var p, n := Share(success, total), total as real;
    ShareRange(success, total);
    hide Share;
    var q := Product(p, 1.0 - p);
    Divide(q, n);
    var nn := PositiveProduct(4.0 * n, n);
    SquareIsNonNegative(z);
    Divide(z * z, nn);
  }

  lemma SquareIsNonNegative(x: real)
    ensures x * x >= 0.0
  {
  }
}
