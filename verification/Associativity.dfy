/** The chord-and-tangent sum is associative on every nonsingular curve.

    Seen from the middle point Q = (q, w), a line of slope l through Q meets the curve at two more points whose
    abscissas q + d and q + u satisfy d + u = l^2 - 3*q and d * u = 3*q^2 + a - 2*w*l; tangents are the case
    d = 0.  With l and m the slopes from Q to P and to R, and n the slope from P + Q to R, this gives
    (l + n) * (l - m) = d - r, which is symmetric in P and R up to its sign. */
module Associativity {
  import opened PrimeField
  import opened GroupLaw
  import opened SumLaws

  // ----- combinations of vanishing terms

  lemma Vanishing(p: Prime, c: int, h: int, t: int)
    requires Cong(p, h, 0) && t == c * h
    ensures Cong(p, t, 0)
  {
    CongScale(p, h, 0, c);
  }

  lemma VanishingSum(p: Prime, x: int, y: int, t: int)
    requires Cong(p, x, 0) && Cong(p, y, 0) && t == x + y
    ensures Cong(p, t, 0)
  {
    CongAdd(p, x, 0, y, 0);
  }

  lemma StaysNonzero(p: Prime, t: int, y: int, whole: int)
    requires Cong(p, t, 0) && !Cong(p, whole, 0) && whole == t + y
    ensures !Cong(p, y, 0)
  {
    if Cong(p, y, 0) {
      CongAdd(p, t, 0, y, 0);
    }
  }

  lemma CancelFactor(p: Prime, c: int, x: int, t: int)
    requires !Cong(p, c, 0) && Cong(p, t, 0) && t == c * x
    ensures Cong(p, x, 0)
  {
    NoZeroDivisors(p, c, x);
  }

  // ----- lines through a point

  /** The line of slope l through (q, w) meets the curve again over q + d, and over q + (l^2 - 3*q - d). */
  ghost predicate Secant(p: Prime, a: int, q: int, w: int, d: int, l: int) {
    Cong(p, SecantTerm(a, q, w, d, l), 0)
  }

  function SecantTerm(a: int, q: int, w: int, d: int, l: int): int {
    d * (l * l - 3 * q - d) - (3 * (q * q) + a - 2 * (w * l))
  }

  /** y1^2 - w^2 and the cubic's increment, in terms of e = y1 - w and d = x1 - q. */
  lemma Increments(a: int, b: int, q: int, w: int, d: int, e: int)
    ensures (w + e) * (w + e) - w * w == e * e + 2 * (w * e)
    ensures Cubic(a, b, q + d) - Cubic(a, b, q) == d * (d * d + 3 * (q * d) + 3 * (q * q) + a)
  {
    assert (q + d) * (q + d) == q * q + 2 * (q * d) + d * d;
    assert (q + d) * (q + d) * (q + d) == (q * q + 2 * (q * d) + d * d) * (q + d);
    CubeOfSum(q, d);
  }

  lemma CubeOfSum(q: int, d: int)
    ensures (q * q + 2 * (q * d) + d * d) * (q + d) == q * q * q + d * (d * d + 3 * (q * d) + 3 * (q * q))
  {
  }

  /** d times the secant term, for a chord: k = l * d - e vanishes, and so does the difference g of the
      curve equations. */
  lemma ChordTerm(a: int, q: int, w: int, d: int, l: int, e: int, k: int, g: int)
    requires k == l * d - e
    requires g == e * e + 2 * (w * e) - d * (d * d + 3 * (q * d) + 3 * (q * q) + a)
    ensures d * SecantTerm(a, q, w, d, l) == g + k * (l * d + e + 2 * w)
  {
    var x, c := l * d, 3 * (q * q) + a;
    SecantTimesD(c, q, w, d, l, x);
    assert (x - e) * (x + e + 2 * w) == x * x - e * e + 2 * (w * x) - 2 * (w * e);
    assert d * (d * d + 3 * (q * d) + c) == d * d * d + 3 * (q * d) * d + d * c;
  }

  lemma SecantTimesD(c: int, q: int, w: int, d: int, l: int, x: int)
    requires x == l * d
    ensures d * (d * (l * l - 3 * q - d) - (c - 2 * (w * l)))
         == x * x - 3 * (q * d) * d - d * d * d - d * c + 2 * (w * x)
  {
    assert d * (d * (l * l - 3 * q - d)) == x * x - 3 * (q * d) * d - d * d * d;
    assert d * (c - 2 * (w * l)) == d * c - 2 * (w * x);
  }

  lemma ChordIsSecant(p: Prime, a: int, b: int, x1: int, y1: int, q: int, w: int, l: int)
    requires OnCurve(p, a, b, x1, y1) && OnCurve(p, a, b, q, w) && !Cong(p, x1, q) && Cong(p, l * (x1 - q), y1 - w)
    ensures Secant(p, a, q, w, x1 - q, l)
  {
    var d, e := x1 - q, y1 - w;
    var k := l * d - e;
    var g := e * e + 2 * (w * e) - d * (d * d + 3 * (q * d) + 3 * (q * q) + a);
    Increments(a, b, q, w, d, e);
    CongAdd(p, y1 * y1, Cubic(a, b, x1), w * w, Cubic(a, b, q));
    assert w + e == y1 && q + d == x1;
    assert g == y1 * y1 - w * w - (Cubic(a, b, x1) - Cubic(a, b, q));
    assert Cong(p, g, 0);
    ChordTerm(a, q, w, d, l, e, k, g);
    Vanishing(p, l * d + e + 2 * w, k, (l * d + e + 2 * w) * k);
    VanishingSum(p, g, (l * d + e + 2 * w) * k, d * SecantTerm(a, q, w, d, l));
    CancelFactor(p, d, SecantTerm(a, q, w, d, l), d * SecantTerm(a, q, w, d, l));
  }

  lemma TangentIsSecant(p: Prime, a: int, x1: int, y1: int, q: int, w: int, l: int)
    requires Cong(p, x1, q) && Cong(p, y1, w) && Cong(p, l * (2 * y1), 3 * (x1 * x1) + a)
    ensures Secant(p, a, q, w, x1 - q, l)
  {
    var d := x1 - q;
    CongMul(p, x1, q, x1, q);
    CongScale(p, x1 * x1, q * q, 3);
    CongScale(p, y1, w, 2 * l);
    CongRefl(p, a);
    CongAdd(p, 3 * (x1 * x1), 3 * (q * q), a, a);
    var k, g, h := l * (2 * y1) - (3 * (x1 * x1) + a), 3 * (x1 * x1) + a - (3 * (q * q) + a), 2 * l * y1 - 2 * l * w;
    assert Cong(p, k, 0) && Cong(p, g, 0) && Cong(p, h, 0);
    CongAdd(p, k, 0, g, 0);
    CongAdd(p, k + g, 0, h, 0);
    Vanishing(p, l * l - 3 * q - d, d, (l * l - 3 * q - d) * d);
    TangentSum(a, x1, y1, q, w, d, l, k + g - h);
    VanishingSum(p, (l * l - 3 * q - d) * d, k + g - h, SecantTerm(a, q, w, d, l));
  }

  lemma TangentSum(a: int, x1: int, y1: int, q: int, w: int, d: int, l: int, sum: int)
    requires sum == l * (2 * y1) - (3 * (x1 * x1) + a) + (3 * (x1 * x1) + a - (3 * (q * q) + a))
                    - (2 * l * y1 - 2 * l * w)
    ensures SecantTerm(a, q, w, d, l) == (l * l - 3 * q - d) * d + sum
  {
    assert 2 * l * w == 2 * (w * l) && l * (2 * y1) == 2 * l * y1;
  }

  /** The slope of the sum of two points, one not opposite to the other, seen from the second. */
  lemma SlopeIsSecant(p: Prime, a: int, b: int, g: GroupPoint, h: GroupPoint)
    requires p > 2 && IsPoint(p, a, b, g) && IsPoint(p, a, b, h) && g.Finite? && h.Finite? && !Opposite(p, g, h)
    ensures Cong(p, g.x, h.x) ==> !Cong(p, 2 * g.y, 0)
    ensures
      var l := Slope(p, a, g.x, g.y, h.x, h.y);
      Secant(p, a, h.x, h.y, g.x - h.x, l) && Cong(p, l * (g.x - h.x), g.y - h.y)
  {
    if Cong(p, g.x, h.x) {
      SameAbscissa(p, a, b, g, h);
      var l := Slope(p, a, g.x, g.y, h.x, h.y);
      TangentIsSecant(p, a, g.x, g.y, h.x, h.y, l);
      CongScale(p, g.x - h.x, 0, l);
      CongSym(p, g.y - h.y, 0);
      CongTrans(p, l * (g.x - h.x), 0, g.y - h.y);
    } else {
      ChordIsSecant(p, a, b, g.x, g.y, h.x, h.y, Slope(p, a, g.x, g.y, h.x, h.y));
    }
  }

  // ----- the slope of the second addition

  /** The key equation times u - r, from the two secants h1, h2 and the chord h3 between the sum and R. */
  lemma KeyTerm(a: int, q: int, w: int, d: int, r: int, u: int, l: int, m: int, n: int, h1: int, h2: int, h3: int)
    requires u == l * l - 3 * q - d
    requires h1 == SecantTerm(a, q, w, d, l) && h2 == SecantTerm(a, q, w, r, m)
    requires h3 == n * (u - r) + 2 * w + l * u + m * r
    ensures (u - r) * ((l + n) * (l - m) - (d - r)) == (l - m) * h3 - h1 + h2
  {
    var e := u - r;
    KeyLeft(w, r, u, l, m, n, h3, e);
    KeyRight(a, q, w, d, r, u, l, m, h1, h2, e);
  }

  lemma KeyLeft(w: int, r: int, u: int, l: int, m: int, n: int, h3: int, e: int)
    requires e == u - r && h3 == n * e + 2 * w + l * u + m * r
    ensures e * ((l + n) * (l - m)) == (l - m) * h3 - (l - m) * (2 * w + l * r + m * r)
  {
    assert e * ((l + n) * (l - m)) == (l - m) * (l * e + n * e);
    assert l * e == l * u - l * r;
    assert l * e + n * e == h3 - (2 * w + l * r + m * r);
  }

  lemma KeyRight(a: int, q: int, w: int, d: int, r: int, u: int, l: int, m: int, h1: int, h2: int, e: int)
    requires e == u - r && u == l * l - 3 * q - d
    requires h1 == d * u - (3 * (q * q) + a - 2 * (w * l))
    requires h2 == r * (m * m - 3 * q - r) - (3 * (q * q) + a - 2 * (w * m))
    ensures e * (d - r) == h1 - h2 - (l - m) * (2 * w + l * r + m * r)
  {
    assert e * (d - r) == d * u - d * r - r * u + r * r;
    assert r * u == l * l * r - 3 * (q * r) - d * r;
    assert r * (m * m - 3 * q - r) == m * m * r - 3 * (q * r) - r * r;
    assert (l - m) * (2 * w + l * r + m * r) == 2 * (w * l) - 2 * (w * m) + l * l * r - m * m * r;
  }

  /** The sum of P and Q is not over R. */
  lemma KeyChord(p: Prime, a: int, q: int, w: int, d: int, r: int, u: int, l: int, m: int, n: int)
    requires Secant(p, a, q, w, d, l) && Secant(p, a, q, w, r, m) && u == l * l - 3 * q - d
    requires !Cong(p, u - r, 0) && Cong(p, n * (u - r) + 2 * w + l * u + m * r, 0)
    ensures Cong(p, (l + n) * (l - m) - (d - r), 0)
  {
    var h1, h2 := SecantTerm(a, q, w, d, l), SecantTerm(a, q, w, r, m);
    var h3 := n * (u - r) + 2 * w + l * u + m * r;
    KeyTerm(a, q, w, d, r, u, l, m, n, h1, h2, h3);
    Vanishing(p, l - m, h3, (l - m) * h3);
    CongAdd(p, (l - m) * h3, 0, h1, 0);
    CongAdd(p, (l - m) * h3 - h1, 0, h2, 0);
    CancelFactor(p, u - r, (l + n) * (l - m) - (d - r), (l - m) * h3 - h1 + h2);
  }

  /** The slope n of the tangent at the sum: h3 is its equation in terms of q, h4 says that the sum is R. */
  lemma KeyTangentTerm(a: int, q: int, w: int, d: int, u: int, l: int, m: int, n: int, y: int, h1: int, h3: int,
                       h4: int)
    requires u == l * l - 3 * q - d && y == -(w + l * u)
    requires h1 == SecantTerm(a, q, w, d, l)
    requires h3 == n * (2 * y) - (3 * (u * u) + 6 * (q * u) + 3 * (q * q) + a)
    requires h4 == 2 * w + (l + m) * u
    ensures 2 * y * (l + n) == h3 - h1 + u * (u - d)
    ensures (l - m) * u == -2 * y - h4
  {
    assert h1 == d * u - (3 * (q * q) + a - 2 * (w * l));
    assert 2 * y * l == -2 * (w * l) - 2 * (l * l * u);
    assert u * u == l * l * u - 3 * (q * u) - d * u;
    assert 2 * y * (l + n) == 2 * y * l + n * (2 * y);
    assert u * (u - d) == u * u - d * u;
    assert (l - m) * u == l * u - m * u && (l + m) * u == l * u + m * u;
  }

  lemma KeyTangent(p: Prime, a: int, q: int, w: int, d: int, u: int, l: int, m: int, n: int, y: int)
    requires Secant(p, a, q, w, d, l) && u == l * l - 3 * q - d && y == -(w + l * u)
    requires Cong(p, n * (2 * y) - (3 * (u * u) + 6 * (q * u) + 3 * (q * q) + a), 0)
    requires Cong(p, 2 * w + (l + m) * u, 0) && !Cong(p, 2 * y, 0)
    ensures Cong(p, (l + n) * (l - m) - (d - u), 0)
  {
    var h1, h4 := SecantTerm(a, q, w, d, l), 2 * w + (l + m) * u;
    var h3 := n * (2 * y) - (3 * (u * u) + 6 * (q * u) + 3 * (q * q) + a);
    KeyTangentTerm(a, q, w, d, u, l, m, n, y, h1, h3, h4);
    CongAdd(p, h3, 0, h1, 0);
    Vanishing(p, l - m, h3 - h1, (l - m) * (h3 - h1));
    Vanishing(p, u - d, h4, (u - d) * h4);
    CongAdd(p, (l - m) * (h3 - h1), 0, (u - d) * h4, 0);
    KeyTangentProduct(2 * y, l + n, l - m, u, u - d, h3 - h1, h4);
    CancelFactor(p, 2 * y, (l + n) * (l - m) - (d - u), (l - m) * (h3 - h1) - (u - d) * h4);
  }

  lemma KeyTangentProduct(y2: int, s: int, k: int, u: int, e: int, h: int, h4: int)
    requires y2 * s == h + u * e && k * u == -y2 - h4
    ensures k * h - e * h4 == y2 * (s * k - -e)
  {
    assert y2 * (s * k) == k * (y2 * s);
    assert k * (u * e) == e * (k * u);
    assert e * (-y2 - h4) == -(y2 * e) - e * h4;
    assert y2 * (s * k - -e) == y2 * (s * k) + y2 * e;
  }

  // ----- the two iterated sums agree

  /** The key equation from both ends determines l + n, and with it the abscissa of the sum. */
  lemma SameSum(p: Prime, d: int, r: int, l: int, m: int, n: int, o: int)
    requires Cong(p, (l + n) * (l - m) - (d - r), 0) && Cong(p, (m + o) * (m - l) - (r - d), 0) && !Cong(p, l - m, 0)
    ensures Cong(p, l + n - (m + o), 0)
  {
    var x, y := (l + n) * (l - m) - (d - r), (m + o) * (m - l) - (r - d);
    CongAdd(p, x, 0, y, 0);
    assert (m + o) * (m - l) == -((m + o) * (l - m));
    assert (l - m) * (l + n - (m + o)) == (l + n) * (l - m) - (m + o) * (l - m);
    CancelFactor(p, l - m, l + n - (m + o), x + y);
  }

  lemma AbscissaTerm(q: int, d: int, r: int, l: int, m: int, n: int, o: int, u: int, v: int, x: int, x': int, k: int,
                     c: int)
    requires u == l * l - 3 * q - d && v == m * m - 3 * q - r
    requires x == n * n - 3 * q - u - r && x' == o * o - 3 * q - v - d
    requires k == (l + n) * (l - m) - (d - r) && c == l + n - (m + o)
    ensures x - x' == (l + n + o - m) * c - 2 * k
  {
    assert (l + n) * (n - l) == n * n - l * l;
    assert (m + o) * (o - m) == o * o - m * m;
    assert (l + n) * c == (l + n) * (n - l) + 2 * ((l + n) * (l - m)) - (l + n) * (o - m);
    assert (o - m) * c == (l + n) * (o - m) - (m + o) * (o - m);
    assert (l + n + o - m) * c == (l + n) * c + (o - m) * c;
  }

  lemma OrdinateTerm(q: int, w: int, d: int, r: int, l: int, m: int, n: int, o: int, u: int, v: int, x: int, x': int,
                     k: int, c: int)
    requires u == l * l - 3 * q - d && v == m * m - 3 * q - r
    requires x == n * n - 3 * q - u - r
    requires k == (l + n) * (l - m) - (d - r) && c == l + n - (m + o)
    ensures n * (u - x) + w + l * u - (o * (v - x') + w + m * v) == (n + m) * k + (v - x) * c - o * (x - x')
  {
    assert u - v == (l - m) * (m - n) + k by {
      assert (l - m) * (l + m) == l * l - m * m;
      assert (l - m) * (l + m) - (l + n) * (l - m) == (l - m) * (m - n);
    }
    assert x == (l + n) * (n - m) - k by {
      assert (l + n) * (n - l) == n * n - l * l;
      assert (l + n) * (n - l) + (l + n) * (l - m) == (l + n) * (n - m);
    }
    OrdinateProducts(l, m, n, o, u, v, x, x', k, c);
  }

  lemma OrdinateProducts(l: int, m: int, n: int, o: int, u: int, v: int, x: int, x': int, k: int, c: int)
    requires u - v == (l - m) * (m - n) + k && x == (l + n) * (n - m) - k && c == l + n - (m + o)
    ensures n * (u - x) + l * u - (o * (v - x') + m * v) == (n + m) * k + (v - x) * c - o * (x - x')
  {
    var s := l + n;
    assert s * (u - v) == s * ((l - m) * (m - n)) + s * k;
    assert (l - m) * x == (l - m) * (s * (n - m)) - (l - m) * k;
    assert s * ((l - m) * (m - n)) == -((l - m) * (s * (n - m)));
    assert (n + m) * k == s * k - (l - m) * k;
    assert s * (u - v) + (l - m) * x == (n + m) * k;
    assert (v - x) * c == s * v - (m + o) * v - (l - m) * x - (n - o) * x;
    assert s * (u - v) == s * u - s * v;
  }

  // ----- sums in coordinates

  /** What the sum of two points, one not opposite to the other, is in terms of its slope. */
  lemma SumData(p: Prime, a: int, b: int, g: GroupPoint, h: GroupPoint) returns (l: int)
    requires p > 2 && IsPoint(p, a, b, g) && IsPoint(p, a, b, h) && g.Finite? && h.Finite? && !Opposite(p, g, h)
    ensures
      var s := Sum(p, a, b, g, h);
      && s.Finite?
      && s.x - h.x == l * l - 3 * h.x - (g.x - h.x)
      && s.y == l * (g.x - s.x) - g.y
      && Cong(p, s.y + h.y + l * (s.x - h.x), 0)
    ensures Secant(p, a, h.x, h.y, g.x - h.x, l) && Cong(p, l * (g.x - h.x) - (g.y - h.y), 0)
    ensures Cong(p, g.x, h.x) ==> Cong(p, g.y, h.y) && !Cong(p, 2 * g.y, 0)
    ensures Cong(p, g.x, h.x) ==> Cong(p, l * (2 * g.y) - (3 * (g.x * g.x) + a), 0)
  {
    SlopeIsSecant(p, a, b, g, h);
    l := Slope(p, a, g.x, g.y, h.x, h.y);
    var s := Sum(p, a, b, g, h);
    OrdinateOfSum(l, g.x, g.y, h.x, h.y, s.x, s.y);
    if Cong(p, g.x, h.x) {
      SameAbscissa(p, a, b, g, h);
    }
  }

  lemma OrdinateOfSum(l: int, x1: int, y1: int, q: int, w: int, x: int, y: int)
    requires y == l * (x1 - x) - y1
    ensures y + w + l * (x - q) == l * (x1 - q) - (y1 - w)
  {
  }

  /** The key equation for points. */
  lemma KeyChordAt(p: Prime, a: int, q: int, w: int, d: int, r: int, u: int, l: int, m: int, n: int, yu: int, yr: int)
    requires Secant(p, a, q, w, d, l) && Secant(p, a, q, w, r, m) && u == l * l - 3 * q - d
    requires Cong(p, yu + w + l * u, 0) && Cong(p, m * r - (yr - w), 0)
    requires !Cong(p, u - r, 0) && Cong(p, n * (u - r) - (yu - yr), 0)
    ensures Cong(p, (l + n) * (l - m) - (d - r), 0)
  {
    CongAdd(p, n * (u - r) - (yu - yr), 0, yu + w + l * u, 0);
    CongAdd(p, n * (u - r) - (yu - yr) + (yu + w + l * u), 0, m * r - (yr - w), 0);
    KeyChord(p, a, q, w, d, r, u, l, m, n);
  }

  lemma SquareOfSum(q: int, u: int)
    ensures 3 * ((q + u) * (q + u)) == 3 * (u * u) + 6 * (q * u) + 3 * (q * q)
  {
  }

  lemma KeyTangentAt(p: Prime, a: int, q: int, w: int, d: int, r: int, u: int, l: int, m: int, n: int, yu: int, yr: int)
    requires Secant(p, a, q, w, d, l) && u == l * l - 3 * q - d
    requires Cong(p, yu + w + l * u, 0) && Cong(p, m * r - (yr - w), 0)
    requires Cong(p, u - r, 0) && Cong(p, yu - yr, 0) && !Cong(p, 2 * yu, 0)
    requires Cong(p, n * (2 * yu) - (3 * ((q + u) * (q + u)) + a), 0)
    ensures Cong(p, (l + n) * (l - m) - (d - r), 0)
  {
    var y, t := -(w + l * u), yu + w + l * u;
    SquareOfSum(q, u);
    Vanishing(p, 2 * n, t, 2 * n * t);
    assert 2 * n * t == n * (2 * yu) - n * (2 * y);
    CongAdd(p, n * (2 * yu) - (3 * ((q + u) * (q + u)) + a), 0, 2 * n * t, 0);
    assert Cong(p, n * (2 * y) - (3 * (u * u) + 6 * (q * u) + 3 * (q * q) + a), 0);
    Vanishing(p, m, u - r, m * (u - r));
    CongAdd(p, t, 0, yu - yr, 0);
    CongAdd(p, t - (yu - yr), 0, m * r - (yr - w), 0);
    assert t - (yu - yr) == yr + w + l * u;
    TwiceW(p, w, l, u, m, r, yr);
    Vanishing(p, 2, t, 2 * t);
    StaysNonzero(p, 2 * t, 2 * y, 2 * yu);
    KeyTangent(p, a, q, w, d, u, l, m, n, y);
    CongAdd(p, (l + n) * (l - m) - (d - u), 0, u - r, 0);
  }

  lemma TwiceW(p: Prime, w: int, l: int, u: int, m: int, r: int, yr: int)
    requires Cong(p, yr + w + l * u, 0) && Cong(p, m * r - (yr - w), 0) && Cong(p, m * (u - r), 0)
    ensures Cong(p, 2 * w + (l + m) * u, 0)
  {
    CongAdd(p, yr + w + l * u, 0, m * r - (yr - w), 0);
    CongAdd(p, yr + w + l * u + (m * r - (yr - w)), 0, m * (u - r), 0);
    assert m * (u - r) == m * u - m * r && (l + m) * u == l * u + m * u;
  }

  // ----- three finite points, no sum at infinity

  /** The slope n from u = g + h to k, against the slopes l from h to g and m from h to k. */
  lemma KeyAt(p: Prime, a: int, g: GroupPoint, h: GroupPoint, k: GroupPoint, u: GroupPoint, l: int, m: int, n: int)
    requires g.Finite? && h.Finite? && k.Finite? && u.Finite?
    requires u.x - h.x == l * l - 3 * h.x - (g.x - h.x) && Cong(p, u.y + h.y + l * (u.x - h.x), 0)
    requires Secant(p, a, h.x, h.y, g.x - h.x, l) && Secant(p, a, h.x, h.y, k.x - h.x, m)
    requires Cong(p, m * (k.x - h.x) - (k.y - h.y), 0) && Cong(p, n * (u.x - k.x) - (u.y - k.y), 0)
    requires Cong(p, u.x, k.x) ==> Cong(p, u.y, k.y) && !Cong(p, 2 * u.y, 0)
    requires Cong(p, u.x, k.x) ==> Cong(p, n * (2 * u.y) - (3 * (u.x * u.x) + a), 0)
    ensures Cong(p, (l + n) * (l - m) - (g.x - k.x), 0)
  {
    var q, w, d, r, e := h.x, h.y, g.x - h.x, k.x - h.x, u.x - h.x;
    assert e - r == u.x - k.x && q + e == u.x && d - r == g.x - k.x;
    if Cong(p, u.x, k.x) {
      KeyTangentAt(p, a, q, w, d, r, e, l, m, n, u.y, k.y);
    } else {
      KeyChordAt(p, a, q, w, d, r, e, l, m, n, u.y, k.y);
    }
  }

  /** The sums (g + h) + k and (k + h) + g from their slopes, when g and k do not lie on one line through h. */
  lemma SumsAgree(p: Prime, h: GroupPoint, d: int, r: int, u: GroupPoint, v: GroupPoint, s: GroupPoint, t: GroupPoint,
                  l: int, m: int, n: int, o: int)
    requires h.Finite? && u.Finite? && v.Finite? && s.Finite? && t.Finite?
    requires u.x - h.x == l * l - 3 * h.x - d && v.x - h.x == m * m - 3 * h.x - r
    requires Cong(p, u.y + h.y + l * (u.x - h.x), 0) && Cong(p, v.y + h.y + m * (v.x - h.x), 0)
    requires s.x == n * n - u.x - (h.x + r) && s.y == n * (u.x - s.x) - u.y
    requires t.x == o * o - v.x - (h.x + d) && t.y == o * (v.x - t.x) - v.y
    requires Cong(p, (l + n) * (l - m) - (d - r), 0) && Cong(p, (m + o) * (m - l) - (r - d), 0) && !Cong(p, l - m, 0)
    ensures SamePoint(p, s, t)
  {
    var q, w, k, c := h.x, h.y, (l + n) * (l - m) - (d - r), l + n - (m + o);
    var e, f, x, x' := u.x - q, v.x - q, s.x - q, t.x - q;
    SameSum(p, d, r, l, m, n, o);
    AbscissaTerm(q, d, r, l, m, n, o, e, f, x, x', k, c);
    Vanishing(p, l + n + o - m, c, (l + n + o - m) * c);
    Vanishing(p, 2, k, 2 * k);
    CongAdd(p, (l + n + o - m) * c, 0, 2 * k, 0);
    assert Cong(p, x - x', 0);
    OrdinateTerm(q, w, d, r, l, m, n, o, e, f, x, x', k, c);
    Vanishing(p, n + m, k, (n + m) * k);
    Vanishing(p, f - x, c, (f - x) * c);
    Vanishing(p, o, x - x', o * (x - x'));
    CongAdd(p, (n + m) * k, 0, (f - x) * c, 0);
    CongAdd(p, (n + m) * k + (f - x) * c, 0, o * (x - x'), 0);
    CongAdd(p, u.y + w + l * e, 0, v.y + w + m * f, 0);
    CongAdd(p, (n + m) * k + (f - x) * c - o * (x - x'), 0, u.y + w + l * e - (v.y + w + m * f), 0);
    assert u.x - s.x == e - x && v.x - t.x == f - x';
  }

  /** g and k on one line through h, and their slopes' key equation: they are the same point. */
  lemma SameEnds(p: Prime, g: GroupPoint, h: GroupPoint, k: GroupPoint, l: int, m: int, n: int)
    requires g.Finite? && h.Finite? && k.Finite? && Cong(p, l - m, 0)
    requires Cong(p, (l + n) * (l - m) - (g.x - k.x), 0)
    requires Cong(p, l * (g.x - h.x) - (g.y - h.y), 0) && Cong(p, m * (k.x - h.x) - (k.y - h.y), 0)
    ensures SamePoint(p, g, k)
  {
    Vanishing(p, l + n, l - m, (l + n) * (l - m));
    CongAdd(p, (l + n) * (l - m), 0, (l + n) * (l - m) - (g.x - k.x), 0);
    var d, r := g.x - h.x, k.x - h.x;
    Vanishing(p, d, l - m, d * (l - m));
    Vanishing(p, m, g.x - k.x, m * (g.x - k.x));
    CongAdd(p, l * d - (g.y - h.y), 0, m * r - (k.y - h.y), 0);
    CongAdd(p, d * (l - m), 0, m * (g.x - k.x), 0);
    assert d * (l - m) + m * (g.x - k.x) == l * d - m * r by {
      assert g.x - k.x == d - r;
    }
    CongAdd(p, d * (l - m) + m * (g.x - k.x), 0, l * d - (g.y - h.y) - (m * r - (k.y - h.y)), 0);
  }

  lemma MainCase(p: Prime, a: int, b: int, g: GroupPoint, h: GroupPoint, k: GroupPoint)
    requires p > 2 && Nonsingular(p, a, b) && IsPoint(p, a, b, g) && IsPoint(p, a, b, h) && IsPoint(p, a, b, k)
    requires g.Finite? && h.Finite? && k.Finite? && !Opposite(p, g, h) && !Opposite(p, k, h)
    requires IsPoint(p, a, b, Sum(p, a, b, g, h)) && IsPoint(p, a, b, Sum(p, a, b, k, h))
    requires !Opposite(p, Sum(p, a, b, g, h), k) && !Opposite(p, Sum(p, a, b, k, h), g)
    ensures SamePoint(p, Sum(p, a, b, Sum(p, a, b, g, h), k), Sum(p, a, b, Sum(p, a, b, k, h), g))
  {
    var l := SumData(p, a, b, g, h);
    var m := SumData(p, a, b, k, h);
    var u, v := Sum(p, a, b, g, h), Sum(p, a, b, k, h);
    var n := SumData(p, a, b, u, k);
    var o := SumData(p, a, b, v, g);
    KeyAt(p, a, g, h, k, u, l, m, n);
    KeyAt(p, a, k, h, g, v, m, l, o);
    if Cong(p, l - m, 0) {
      SameEnds(p, g, h, k, l, m, n);
      SamePointRefl(p, h);
      SumRespects(p, a, b, g, h, k, h);
      SamePointSym(p, g, k);
      SumRespects(p, a, b, u, k, v, g);
    } else {
      SumsAgree(p, h, g.x - h.x, k.x - h.x, u, v, Sum(p, a, b, u, k), Sum(p, a, b, v, g), l, m, n, o);
    }
  }

  // ----- sums at infinity

  /** Both secants through h with another point over h itself are the tangent. */
  lemma TangentsAgree(p: Prime, a: int, q: int, w: int, d: int, r: int, l: int, m: int, u: int)
    requires u == l * l - 3 * q - d && Cong(p, u, 0) && Cong(p, r, 0) && !Cong(p, 2 * w, 0)
    requires Secant(p, a, q, w, d, l) && Secant(p, a, q, w, r, m)
    ensures Cong(p, l - m, 0)
  {
    var h1, h2 := SecantTerm(a, q, w, d, l), SecantTerm(a, q, w, r, m);
    Vanishing(p, d, u, d * u);
    Vanishing(p, m * m - 3 * q - r, r, (m * m - 3 * q - r) * r);
    CongAdd(p, h1, 0, h2, 0);
    CongAdd(p, d * u, 0, (m * m - 3 * q - r) * r, 0);
    CongAdd(p, h1 - h2, 0, d * u - (m * m - 3 * q - r) * r, 0);
    TangentTerms(a, q, w, d, r, l, m, u, h1, h2);
    CancelFactor(p, 2 * w, l - m, h1 - h2 - (d * u - (m * m - 3 * q - r) * r));
  }

  lemma TangentTerms(a: int, q: int, w: int, d: int, r: int, l: int, m: int, u: int, h1: int, h2: int)
    requires u == l * l - 3 * q - d && h1 == SecantTerm(a, q, w, d, l) && h2 == SecantTerm(a, q, w, r, m)
    ensures h1 - h2 - (d * u - (m * m - 3 * q - r) * r) == 2 * w * (l - m)
  {
    assert r * (m * m - 3 * q - r) == (m * m - 3 * q - r) * r;
    assert 2 * w * (l - m) == 2 * (w * l) - 2 * (w * m);
  }

  /** On a nonsingular curve a line that meets (q, w) twice is a tangent with a slope. */
  lemma TangentDefined(p: Prime, a: int, b: int, q: int, w: int, d: int, l: int, u: int)
    requires p > 2 && Nonsingular(p, a, b) && OnCurve(p, a, b, q, w)
    requires u == l * l - 3 * q - d && Secant(p, a, q, w, d, l) && Cong(p, u, 0)
    ensures !Cong(p, 2 * w, 0)
  {
    assert SmoothAt(p, a, b, q);
    if Cong(p, 2 * w, 0) {
      var h := SecantTerm(a, q, w, d, l);
      Vanishing(p, d, u, d * u);
      Vanishing(p, l, 2 * w, l * (2 * w));
      CongAdd(p, d * u, 0, h, 0);
      CongAdd(p, d * u - h, 0, l * (2 * w), 0);
      assert d * u - h + l * (2 * w) == 3 * (q * q) + a;
      DistinctResidues(p, 2, 0);
      NoZeroDivisors(p, 2, w);
      CongScale(p, w, 0, w);
      CongSym(p, w * w, Cubic(a, b, q));
      CongTrans(p, Cubic(a, b, q), w * w, 0);
    }
  }

  /** If the line through h and g ends in k, the one through h and k is the same line. */
  lemma SameLine(p: Prime, a: int, q: int, w: int, d: int, r: int, u: int, yu: int, yr: int, l: int, m: int)
    requires u == l * l - 3 * q - d && (Cong(p, u, 0) ==> !Cong(p, 2 * w, 0))
    requires Secant(p, a, q, w, d, l) && Secant(p, a, q, w, r, m)
    requires Cong(p, yu + w + l * u, 0) && Cong(p, m * r - (yr - w), 0)
    requires Cong(p, u - r, 0) && Cong(p, yu + yr, 0)
    ensures Cong(p, l - m, 0)
  {
    Vanishing(p, m, u - r, m * (u - r));
    CongAdd(p, yu + w + l * u, 0, yu + yr, 0);
    CongAdd(p, yu + w + l * u - (yu + yr), 0, m * r - (yr - w), 0);
    CongAdd(p, l * u - m * r, 0, m * (u - r), 0);
    assert l * u - m * r - m * (u - r) == u * (l - m);
    assert yu + w + l * u - (yu + yr) - (m * r - (yr - w)) == l * u - m * r;
    NoZeroDivisors(p, u, l - m);
    if Cong(p, u, 0) {
      CongAdd(p, u, 0, u - r, 0);
      TangentsAgree(p, a, q, w, d, r, l, m, u);
    }
  }

  /** If g + h is opposite to k, then k + h is opposite to g. */
  lemma Collinear(p: Prime, a: int, b: int, g: GroupPoint, h: GroupPoint, k: GroupPoint)
    requires p > 2 && Nonsingular(p, a, b) && IsPoint(p, a, b, g) && IsPoint(p, a, b, h) && IsPoint(p, a, b, k)
    requires g.Finite? && h.Finite? && k.Finite? && !Opposite(p, g, h) && !Opposite(p, k, h)
    requires Opposite(p, Sum(p, a, b, g, h), k)
    ensures Opposite(p, Sum(p, a, b, k, h), g)
  {
    var l := SumData(p, a, b, g, h);
    var m := SumData(p, a, b, k, h);
    var u, v, q, w := Sum(p, a, b, g, h), Sum(p, a, b, k, h), h.x, h.y;
    var d, r, e, f := g.x - q, k.x - q, u.x - q, v.x - q;
    if Cong(p, e, 0) {
      TangentDefined(p, a, b, q, w, d, l, e);
    }
    assert e - r == u.x - k.x && u.y - -k.y == u.y + k.y;
    SameLine(p, a, q, w, d, r, e, u.y, k.y, l, m);
    OtherEnd(p, q, w, d, r, e, f, g.y, v.y, l, m);
    assert f - d == v.x - g.x && v.y - -g.y == v.y + g.y;
  }

  lemma OtherEnd(p: Prime, q: int, w: int, d: int, r: int, u: int, v: int, y1: int, yv: int, l: int, m: int)
    requires Cong(p, l - m, 0) && Cong(p, u - r, 0)
    requires u == l * l - 3 * q - d && v == m * m - 3 * q - r
    requires Cong(p, l * d - (y1 - w), 0) && Cong(p, yv + w + m * v, 0)
    ensures Cong(p, v - d, 0) && Cong(p, yv + y1, 0)
  {
    Vanishing(p, l + m, l - m, (l + m) * (l - m));
    CongAdd(p, u - r, 0, (l + m) * (l - m), 0);
    assert (l + m) * (l - m) == l * l - m * m;
    assert u - r - (l + m) * (l - m) == v - d;
    Vanishing(p, m, v - d, m * (v - d));
    Vanishing(p, d, l - m, d * (l - m));
    CongAdd(p, yv + w + m * v, 0, l * d - (y1 - w), 0);
    CongAdd(p, m * (v - d), 0, d * (l - m), 0);
    CongAdd(p, yv + w + m * v - (l * d - (y1 - w)), 0, m * (v - d) - d * (l - m), 0);
    assert m * (v - d) - d * (l - m) == m * v - l * d;
    assert yv + w + m * v - (l * d - (y1 - w)) - (m * v - l * d) == yv + y1;
  }

  /** The slope from k + h to a point opposite to h is that of k and h, negated. */
  lemma ReturnSlope(p: Prime, a: int, q: int, w: int, r: int, v: int, yv: int, xg: int, yg: int, m: int, n: int)
    requires v == m * m - 3 * q - r && Secant(p, a, q, w, r, m) && Cong(p, yv + w + m * v, 0)
    requires Cong(p, xg - q, 0) && Cong(p, yg + w, 0) && (Cong(p, v, 0) ==> !Cong(p, 2 * w, 0))
    requires Cong(p, n * (q + v - xg) - (yv - yg), 0)
    requires Cong(p, v, 0) ==> Cong(p, n * (2 * yv) - (3 * ((q + v) * (q + v)) + a), 0)
    ensures Cong(p, n + m, 0)
  {
    if Cong(p, v, 0) {
      ReturnTangent(p, a, q, w, r, v, yv, m, n);
    } else {
      Vanishing(p, n, xg - q, n * (xg - q));
      CongAdd(p, n * (q + v - xg) - (yv - yg), 0, n * (xg - q), 0);
      CongAdd(p, yv + w + m * v, 0, yg + w, 0);
      CongAdd(p, n * (q + v - xg) - (yv - yg) + n * (xg - q), 0, yv + w + m * v - (yg + w), 0);
      assert n * (q + v - xg) + n * (xg - q) == n * v;
      assert v * (n + m) == n * v + m * v;
      CancelFactor(p, v, n + m, n * v + m * v);
    }
  }

  lemma ReturnTangent(p: Prime, a: int, q: int, w: int, r: int, v: int, yv: int, m: int, n: int)
    requires v == m * m - 3 * q - r && Secant(p, a, q, w, r, m) && Cong(p, yv + w + m * v, 0)
    requires Cong(p, v, 0) && !Cong(p, 2 * w, 0)
    requires Cong(p, n * (2 * yv) - (3 * ((q + v) * (q + v)) + a), 0)
    ensures Cong(p, n + m, 0)
  {
    var c, h, t := n * (2 * yv) - (3 * ((q + v) * (q + v)) + a), SecantTerm(a, q, w, r, m), yv + w + m * v;
    var z := 2 * (n * m) + 6 * q + 3 * v + r;
    SquareOfSum(q, v);
    ReturnTerms(a, q, w, r, v, yv, m, n, c, h, t, z);
    Vanishing(p, 2 * n, t, 2 * n * t);
    Vanishing(p, z, v, z * v);
    CongAdd(p, 2 * n * t, 0, c, 0);
    CongAdd(p, 2 * n * t - c, 0, h, 0);
    CongAdd(p, 2 * n * t - c + h, 0, z * v, 0);
    CancelFactor(p, 2 * w, n + m, 2 * n * t - c + h - z * v);
  }

  lemma ReturnTerms(a: int, q: int, w: int, r: int, v: int, yv: int, m: int, n: int, c: int, h: int, t: int, z: int)
    requires v == m * m - 3 * q - r && h == SecantTerm(a, q, w, r, m) && t == yv + w + m * v
    requires c == n * (2 * yv) - (3 * (v * v) + 6 * (q * v) + 3 * (q * q) + a)
    requires z == 2 * (n * m) + 6 * q + 3 * v + r
    ensures 2 * n * t - c + h - z * v == 2 * w * (n + m)
  {
    assert h == r * v - (3 * (q * q) + a - 2 * (w * m));
    TwiceTerm(w, v, yv, m, n, t);
    OffsetTerm(q, r, v, n * m, z);
    assert 2 * w * (n + m) == 2 * (n * w) + 2 * (w * m);
  }

  lemma TwiceTerm(w: int, v: int, yv: int, m: int, n: int, t: int)
    requires t == yv + w + m * v
    ensures 2 * n * t == n * (2 * yv) + 2 * (n * w) + 2 * (n * m * v)
  {
    assert n * (m * v) == n * m * v;
  }

  lemma OffsetTerm(q: int, r: int, v: int, nm: int, z: int)
    requires z == 2 * nm + 6 * q + 3 * v + r
    ensures z * v == 2 * (nm * v) + 6 * (q * v) + 3 * (v * v) + r * v
  {
  }

  /** (k + h) + g is k when g is opposite to h. */
  lemma ReturnSum(p: Prime, q: int, w: int, r: int, v: int, yv: int, xg: int, yk: int, m: int, n: int, x: int, y: int)
    requires v == m * m - 3 * q - r && Cong(p, yv + w + m * v, 0) && Cong(p, m * r - (yk - w), 0)
    requires Cong(p, xg - q, 0) && Cong(p, n + m, 0)
    requires x == n * n - (q + v) - xg && y == n * (q + v - x) - yv
    ensures Cong(p, x - (q + r), 0) && Cong(p, y - yk, 0)
  {
    Vanishing(p, n - m, n + m, (n - m) * (n + m));
    CongAdd(p, (n - m) * (n + m), 0, xg - q, 0);
    assert (n - m) * (n + m) == n * n - m * m;
    assert x - (q + r) == (n - m) * (n + m) - (xg - q);
    Vanishing(p, m, x - (q + r), m * (x - (q + r)));
    Vanishing(p, q + v - x, n + m, (q + v - x) * (n + m));
    CongAdd(p, (q + v - x) * (n + m), 0, m * (x - (q + r)), 0);
    CongAdd(p, yv + w + m * v, 0, m * r - (yk - w), 0);
    CongAdd(p, (q + v - x) * (n + m) + m * (x - (q + r)), 0, yv + w + m * v - (m * r - (yk - w)), 0);
    ReturnOrdinate(q, w, r, v, yv, yk, m, n, x, y);
  }

  lemma ReturnOrdinate(q: int, w: int, r: int, v: int, yv: int, yk: int, m: int, n: int, x: int, y: int)
    requires y == n * (q + v - x) - yv
    ensures y - yk == (q + v - x) * (n + m) + m * (x - (q + r)) - (yv + w + m * v - (m * r - (yk - w)))
  {
    var e := q + v - x;
    assert e * (n + m) == n * e + m * e;
    assert m * e + m * (x - (q + r)) == m * v - m * r by {
      assert m * e + m * (x - (q + r)) == m * (e + (x - (q + r)));
      assert m * (v - r) == m * v - m * r;
    }
  }

  lemma CancelOpposite(p: Prime, a: int, b: int, k: GroupPoint, h: GroupPoint, g: GroupPoint)
    requires p > 2 && Nonsingular(p, a, b) && IsPoint(p, a, b, g) && IsPoint(p, a, b, h) && IsPoint(p, a, b, k)
    requires k.Finite? && Opposite(p, g, h)
    requires IsPoint(p, a, b, Sum(p, a, b, k, h))
    ensures SamePoint(p, Sum(p, a, b, Sum(p, a, b, k, h), g), k)
  {
    if Opposite(p, k, h) {
      CongSym(p, k.x, h.x);
      CongSym(p, k.y, -h.y);
      CongTrans(p, g.x, h.x, k.x);
      CongTrans(p, g.y, -h.y, k.y);
    } else {
      var m := SumData(p, a, b, k, h);
      var v, q, w := Sum(p, a, b, k, h), h.x, h.y;
      if Cong(p, v.x - q, 0) {
        TangentDefined(p, a, b, q, w, k.x - q, m, v.x - q);
      }
      assert g.y - -h.y == g.y + w;
      NotOpposite(p, q, w, v.x - q, v.y, g.x, g.y, m);
      var n := SumData(p, a, b, v, g);
      OverSame(p, q, v.x, g.x);
      ReturnSlope(p, a, q, w, k.x - q, v.x - q, v.y, g.x, g.y, m, n);
      var s := Sum(p, a, b, v, g);
      ReturnSum(p, q, w, k.x - q, v.x - q, v.y, g.x, k.y, m, n, s.x, s.y);
    }
  }

  lemma OverSame(p: Prime, q: int, x: int, xg: int)
    requires Cong(p, xg - q, 0)
    ensures Cong(p, x - q, 0) <==> Cong(p, x, xg)
  {
    if Cong(p, x - q, 0) {
      CongAdd(p, x - q, 0, xg - q, 0);
    }
    if Cong(p, x, xg) {
      CongAdd(p, x - xg, 0, xg - q, 0);
    }
  }

  lemma NotOpposite(p: Prime, q: int, w: int, v: int, yv: int, xg: int, yg: int, m: int)
    requires Cong(p, yv + w + m * v, 0) && Cong(p, xg - q, 0) && Cong(p, yg + w, 0)
    requires Cong(p, v, 0) ==> !Cong(p, 2 * w, 0)
    ensures !(Cong(p, q + v, xg) && Cong(p, yv, -yg))
  {
    if Cong(p, q + v, xg) && Cong(p, yv, -yg) {
      CongAdd(p, q + v - xg, 0, xg - q, 0);
      Vanishing(p, m, v, m * v);
      CongAdd(p, yv + w + m * v, 0, m * v, 0);
      CongAdd(p, yv + w, 0, yv - -yg, 0);
      CongAdd(p, yv + w - (yv - -yg), 0, yg + w, 0);
    }
  }

  // ----- the theorem

  /** (g + h) + k and (k + h) + g are the same point. */
  lemma EndsSwap(p: Prime, a: int, b: int, g: GroupPoint, h: GroupPoint, k: GroupPoint)
    requires p > 2 && Nonsingular(p, a, b) && IsPoint(p, a, b, g) && IsPoint(p, a, b, h) && IsPoint(p, a, b, k)
    requires IsPoint(p, a, b, Sum(p, a, b, g, h)) && IsPoint(p, a, b, Sum(p, a, b, k, h))
    ensures SamePoint(p, Sum(p, a, b, Sum(p, a, b, g, h), k), Sum(p, a, b, Sum(p, a, b, k, h), g))
  {
    if g.Infinity? || h.Infinity? || k.Infinity? {
      SumCommutes(p, a, b, if g.Infinity? then h else g, if k.Infinity? then h else k);
    } else if Opposite(p, g, h) {
      CancelOpposite(p, a, b, k, h, g);
      SamePointSym(p, Sum(p, a, b, Sum(p, a, b, k, h), g), k);
    } else if Opposite(p, k, h) {
      CancelOpposite(p, a, b, g, h, k);
    } else if Opposite(p, Sum(p, a, b, g, h), k) {
      Collinear(p, a, b, g, h, k);
    } else if Opposite(p, Sum(p, a, b, k, h), g) {
      Collinear(p, a, b, k, h, g);
    } else {
      MainCase(p, a, b, g, h, k);
    }
  }

  lemma SumAssociates(p: Prime, a: int, b: int, g: GroupPoint, h: GroupPoint, k: GroupPoint)
    requires p > 2 && Nonsingular(p, a, b) && IsPoint(p, a, b, g) && IsPoint(p, a, b, h) && IsPoint(p, a, b, k)
    ensures IsPoint(p, a, b, Sum(p, a, b, g, h)) && IsPoint(p, a, b, Sum(p, a, b, h, k))
    ensures SamePoint(p, Sum(p, a, b, Sum(p, a, b, g, h), k), Sum(p, a, b, g, Sum(p, a, b, h, k)))
  {
    SumIsPoint(p, a, b, g, h);
    SumIsPoint(p, a, b, h, k);
    SumIsPoint(p, a, b, k, h);
    var u, v, v' := Sum(p, a, b, g, h), Sum(p, a, b, k, h), Sum(p, a, b, h, k);
    EndsSwap(p, a, b, g, h, k);
    SumCommutes(p, a, b, k, h);
    SamePointRefl(p, g);
    SumRespects(p, a, b, v, g, v', g);
    SumCommutes(p, a, b, v', g);
    SamePointTrans(p, Sum(p, a, b, u, k), Sum(p, a, b, v, g), Sum(p, a, b, v', g));
    SamePointTrans(p, Sum(p, a, b, u, k), Sum(p, a, b, v', g), Sum(p, a, b, g, v'));
  }
}
