/** Integer identities behind the group law.

    A line of slope l through two points of the curve is described by s = x1 + x2, m = y1 + y2 and
    d = (x1 - x2)^2.  Then 4*a, 4*b and the symmetric products of the coordinates are polynomials in
    s, m, l, d, and so are the coordinates of the sum. */
module ChordIdentities {

  function FourA(s: int, m: int, l: int, d: int): int {
    4 * (l * m) - 3 * (s * s) - d
  }

  function FourB(s: int, m: int, l: int, d: int): int {
    m * m - 2 * (l * s * m) + s * s * s + l * l * d - s * d
  }

  // 4 * (yy - w) == 2 * P, 4 * (yy + w) == 2 * R, 16 * t == 4 * U in the formula's terms, each split by powers of d

  function P0(s: int, m: int, l: int): int { l * s * m - m * m }

  function P1(s: int, l: int): int { 2 * s - 2 * (l * l) }

  function R0(s: int, m: int, l: int): int { 2 * (m * m) - l * s * m }

  function R1(s: int, l: int): int { l * l - 2 * s }

  function U0(s: int, m: int, l: int): int { 3 * (s * m * m) + l * s * s * m - 4 * (l * l * m * m) }

  function U1(s: int, m: int, l: int): int { 3 * (l * l * s) - 4 * (s * s) + l * m }

  /** Twice the z coordinate. */
  function Zeta(s: int, m: int, l: int, d: int): int {
    2 * (m * m * m) + d * (-3 * (s * m)) + d * d * l
  }

  /** Twice the y coordinate of the third point, reflected. */
  function K(s: int, m: int, l: int): int {
    3 * (l * s) - 2 * (l * l * l) - m
  }

  lemma YyMinusW(s: int, m: int, l: int, d: int)
    ensures m * m - l * l * d - 3 * FourB(s, m, l, d) - FourA(s, m, l, d) * s == 2 * (P0(s, m, l) + d * P1(s, l))
  {
    FourATimesS(s, m, l, d);
    DTimesLinear(s, l, d);
  }

  lemma DTimesLinear(s: int, l: int, d: int)
    ensures d * P1(s, l) == 2 * (s * d) - 2 * (l * l * d)
    ensures d * R1(s, l) == l * l * d - 2 * (s * d)
  {
  }

  lemma FourATimesS(s: int, m: int, l: int, d: int)
    ensures FourA(s, m, l, d) * s == 4 * (l * s * m) - 3 * (s * s * s) - s * d
  {
  }

  lemma YyPlusW(s: int, m: int, l: int, d: int)
    ensures m * m - l * l * d + 3 * FourB(s, m, l, d) + FourA(s, m, l, d) * s == 2 * (R0(s, m, l) + d * R1(s, l))
  {
    FourATimesS(s, m, l, d);
    DTimesLinear(s, l, d);
  }

  lemma SixteenT(s: int, m: int, l: int, d: int)
    ensures 12 * FourB(s, m, l, d) * s + FourA(s, m, l, d) * (s * s - d - FourA(s, m, l, d))
            == 4 * (U0(s, m, l) + d * U1(s, m, l))
  {
    var b0, a0, e := m * m - 2 * (l * s * m) + s * s * s, 4 * (l * m) - 3 * (s * s), s * s - l * m;
    assert FourB(s, m, l, d) == b0 + d * (l * l - s);
    assert s * s - d - FourA(s, m, l, d) == 4 * e;
    SixteenTConstant(s, m, l);
    assert 3 * (s * (l * l - s)) - e == U1(s, m, l);
    SplitByD(b0, l * l - s, a0, e, s, d);
    assert FourA(s, m, l, d) * (4 * e) == (a0 - d) * (4 * e);
    assert 12 * FourB(s, m, l, d) * s == 12 * (b0 + d * (l * l - s)) * s;
  }

  lemma SixteenTConstant(s: int, m: int, l: int)
    ensures 3 * ((m * m - 2 * (l * s * m) + s * s * s) * s) + (4 * (l * m) - 3 * (s * s)) * (s * s - l * m)
            == U0(s, m, l)
  {
  }

  lemma SplitByD(b0: int, b1: int, a0: int, e: int, s: int, d: int)
    ensures 12 * (b0 + d * b1) * s + (a0 - d) * (4 * e) == 4 * (3 * (b0 * s) + a0 * e + d * (3 * (s * b1) - e))
  {
  }

  lemma QuadProduct(d: int, a0: int, a1: int, b0: int, b1: int)
    ensures (a0 + d * a1) * (b0 + d * b1) == a0 * b0 + d * (a0 * b1 + a1 * b0) + d * d * (a1 * b1)
  {
  }

  lemma Collect(d: int, x0: int, x1: int, x2: int, y0: int, y1: int, z0: int, z1: int, z2: int)
    requires x0 + y0 == z0 && x1 + y1 == z1 && x2 == z2
    ensures x0 + d * x1 + d * d * x2 + (y0 + d * y1) == z0 + d * z1 + d * d * z2
  {
    assert d * x1 + d * y1 == d * z1;
  }

  lemma Factor(k: int, d: int, z0: int, z1: int, z2: int)
    ensures k * z0 + d * (k * z1) + d * d * (k * z2) == k * (z0 + d * z1 + d * d * z2)
  {
  }

  lemma ZIdentity(s: int, m: int, l: int, d: int)
    ensures m * R0(s, m, l) + d * (m * R1(s, l)) + (s * m + d * -l) * (l * m + d * -1) == Zeta(s, m, l, d)
  {
    QuadProduct(d, s * m, -l, l * m, -1);
    ZCoefficients(s, m, l);
    Collect(d, s * m * (l * m), s * m * -1 + -l * (l * m), -l * -1, m * R0(s, m, l), m * R1(s, l), 2 * (m * m * m),
            -3 * (s * m), l);
  }

  lemma ZCoefficients(s: int, m: int, l: int)
    ensures s * m * (l * m) + m * R0(s, m, l) == 2 * (m * m * m)
    ensures s * m * -1 + -l * (l * m) + m * R1(s, l) == -3 * (s * m)
  {
  }

  lemma XCoefficients(s: int, m: int, l: int)
    ensures s * m * P0(s, m, l) - m * U0(s, m, l) == 2 * (l * l - s) * (2 * (m * m * m))
    ensures s * m * P1(s, l) - l * P0(s, m, l) - m * U1(s, m, l) == 2 * (l * l - s) * (-3 * (s * m))
    ensures -l * P1(s, l) == 2 * (l * l - s) * l
  {
    XConstant(s, m, l);
    XLinear(s, m, l);
  }

  lemma XConstant(s: int, m: int, l: int)
    ensures s * m * P0(s, m, l) - m * U0(s, m, l) == 2 * (l * l - s) * (2 * (m * m * m))
  {
  }

  lemma XLinear(s: int, m: int, l: int)
    ensures s * m * P1(s, l) - l * P0(s, m, l) - m * U1(s, m, l) == 2 * (l * l - s) * (-3 * (s * m))
  {
  }

  lemma XIdentity(s: int, m: int, l: int, d: int)
    ensures (s * m + d * -l) * (P0(s, m, l) + d * P1(s, l)) + (-m * U0(s, m, l) + d * (-m * U1(s, m, l)))
            == 2 * (l * l - s) * Zeta(s, m, l, d)
  {
    var k := 2 * (l * l - s);
    XCoefficients(s, m, l);
    QuadProduct(d, s * m, -l, P0(s, m, l), P1(s, l));
    Collect(d, s * m * P0(s, m, l), s * m * P1(s, l) + -l * P0(s, m, l), -l * P1(s, l), -m * U0(s, m, l),
            -m * U1(s, m, l), k * (2 * (m * m * m)), k * (-3 * (s * m)), k * l);
    Factor(k, d, 2 * (m * m * m), -3 * (s * m), l);
  }

  lemma YConstant(s: int, m: int, l: int)
    ensures P0(s, m, l) * R0(s, m, l) + l * m * U0(s, m, l) == K(s, m, l) * (2 * (m * m * m))
  {
    var q := l * s;
    assert P0(s, m, l) == m * (q - m) && R0(s, m, l) == m * (2 * m - q);
    YConstantScaled(q, m, l * l * l);
    LTimesU(s, m, l);
    assert K(s, m, l) == 3 * q - 2 * (l * l * l) - m;
  }

  lemma LTimesU(s: int, m: int, l: int)
    ensures l * m * U0(s, m, l) == m * m * (3 * (l * s * m) + l * s * (l * s) - 4 * (l * l * l * m))
  {
    var u := 3 * (s * m) + l * s * s - 4 * (l * l * m);
    assert U0(s, m, l) == m * u;
    assert l * u == 3 * (l * s * m) + l * s * (l * s) - 4 * (l * l * l * m);
    Regroup(l, m, u);
  }

  lemma Regroup(l: int, m: int, u: int)
    ensures l * m * (m * u) == m * m * (l * u)
  {
  }

  lemma YConstantScaled(q: int, m: int, c: int)
    ensures m * (q - m) * (m * (2 * m - q)) + m * m * (3 * (q * m) + q * q - 4 * (c * m))
            == (3 * q - 2 * c - m) * (2 * (m * m * m))
  {
  }

  lemma YLinear(s: int, m: int, l: int)
    ensures P0(s, m, l) * R1(s, l) + P1(s, l) * R0(s, m, l) + (l * m * U1(s, m, l) + -1 * U0(s, m, l))
            == K(s, m, l) * (-3 * (s * m))
  {
    var p, r, u := l * s - m, 2 * m - l * s, 3 * (s * m) + l * s * s - 4 * (l * l * m);
    assert P0(s, m, l) == m * p && R0(s, m, l) == m * r && U0(s, m, l) == m * u;
    YLinearReduced(s, m, l);
    YLinearGlue(m, p, R1(s, l), P1(s, l), r, l, U1(s, m, l), u, -3 * s * K(s, m, l));
    assert m * (-3 * s * K(s, m, l)) == K(s, m, l) * (-3 * (s * m));
  }

  lemma YLinearReduced(s: int, m: int, l: int)
    ensures (l * s - m) * R1(s, l) + P1(s, l) * (2 * m - l * s)
            + (l * U1(s, m, l) - (3 * (s * m) + l * s * s - 4 * (l * l * m)))
      == -3 * s * K(s, m, l)
  {
    var q, e := l * s, l * l;
    assert l * U1(s, m, l) == 3 * (e * q) - 4 * (q * s) + e * m;
    assert e * q == s * (l * l * l);
    YLinearInAtoms(q, e, s, m);
    assert -3 * s * K(s, m, l) == 6 * (s * (l * l * l)) - 9 * (q * s) + 3 * (s * m);
  }

  lemma YLinearInAtoms(q: int, e: int, s: int, m: int)
    ensures (q - m) * (e - 2 * s) + (2 * s - 2 * e) * (2 * m - q)
            + (3 * (e * q) - 4 * (q * s) + e * m - (3 * (s * m) + q * s - 4 * (e * m)))
      == 6 * (e * q) - 9 * (q * s) + 3 * (s * m)
  {
  }

  lemma YLinearGlue(m: int, p: int, r1: int, p1: int, r: int, l: int, u1: int, u: int, k: int)
    requires p * r1 + p1 * r + (l * u1 - u) == k
    ensures m * p * r1 + p1 * (m * r) + (l * m * u1 + -1 * (m * u)) == m * k
  {
  }

  lemma YQuadratic(s: int, m: int, l: int)
    ensures P1(s, l) * R1(s, l) + -1 * U1(s, m, l) == K(s, m, l) * l
  {
  }

  lemma YIdentity(s: int, m: int, l: int, d: int)
    ensures (P0(s, m, l) + d * P1(s, l)) * (R0(s, m, l) + d * R1(s, l))
            + (l * m + d * -1) * (U0(s, m, l) + d * U1(s, m, l))
      == K(s, m, l) * Zeta(s, m, l, d)
  {
    var k := K(s, m, l);
    var p0, p1, r0, r1, u0, u1 := P0(s, m, l), P1(s, l), R0(s, m, l), R1(s, l), U0(s, m, l), U1(s, m, l);
    YConstant(s, m, l);
    YLinear(s, m, l);
    YQuadratic(s, m, l);
    QuadProduct(d, p0, p1, r0, r1);
    QuadProduct(d, l * m, -1, u0, u1);
    Quadratics(d, p0 * r0, p0 * r1 + p1 * r0, p1 * r1, l * m * u0, l * m * u1 + -1 * u0, -1 * u1, k * (2 * (m * m * m)),
               k * (-3 * (s * m)), k * l);
    Factor(k, d, 2 * (m * m * m), -3 * (s * m), l);
  }

  lemma Quadratics(d: int, x0: int, x1: int, x2: int, y0: int, y1: int, y2: int, z0: int, z1: int, z2: int)
    requires x0 + y0 == z0 && x1 + y1 == z1 && x2 + y2 == z2
    ensures x0 + d * x1 + d * d * x2 + (y0 + d * y1 + d * d * y2) == z0 + d * z1 + d * d * z2
  {
    assert d * x1 + d * y1 == d * z1;
    assert d * d * x2 + d * d * y2 == d * d * z2;
  }

  /** The third point lies on the curve: four times its equation. */
  lemma ThirdPointOnCurve(s: int, m: int, l: int, d: int)
    ensures K(s, m, l) * K(s, m, l) == 4 * ((l * l - s) * (l * l - s) * (l * l - s)) + FourA(s, m, l, d) * (l * l - s)
            + FourB(s, m, l, d)
  {
    var x, c := l * l - s, 4 * (l * m) - 3 * (s * s);
    KOfThirdPoint(s, m, l);
    DropD(c, d, l * l, s);
    assert FourA(s, m, l, d) == c - d;
    assert FourB(s, m, l, d) == m * m - 2 * (l * s * m) + s * s * s + (l * l * d - s * d);
    ThirdPointReduced(x, s, m, l);
  }

  lemma KOfThirdPoint(s: int, m: int, l: int)
    ensures K(s, m, l) == l * s - m - 2 * (l * (l * l - s))
  {
  }

  lemma DropD(c: int, d: int, ll: int, s: int)
    ensures (c - d) * (ll - s) + (ll * d - s * d) == c * (ll - s)
  {
  }

  lemma ThirdPointReduced(x: int, s: int, m: int, l: int)
    requires x == l * l - s
    ensures (l * s - m - 2 * (l * x)) * (l * s - m - 2 * (l * x))
      == 4 * (x * x * x) + (4 * (l * m) - 3 * (s * s)) * x + (m * m - 2 * (l * s * m) + s * s * s)
  {
    var q, v := l * l, l * s - m;
    SquareOfK(v, l, x);
    SquareOfV(l, s, m);
    LvxExpands(l, s, m, x);
    QuadraticInX(x, s, q);
    assert (4 * (l * m) - 3 * (s * s)) * x == 4 * (l * m * x) - 3 * (s * s * x);
  }

  lemma SquareOfK(v: int, l: int, x: int)
    ensures (v - 2 * (l * x)) * (v - 2 * (l * x)) == v * v - 4 * (l * v * x) + 4 * (l * l * x * x)
  {
  }

  lemma SquareOfV(l: int, s: int, m: int)
    ensures (l * s - m) * (l * s - m) == l * l * (s * s) - 2 * (l * s * m) + m * m
  {
  }

  lemma LvxExpands(l: int, s: int, m: int, x: int)
    ensures l * (l * s - m) * x == l * l * s * x - l * m * x
  {
  }

  lemma QuadraticInX(x: int, s: int, q: int)
    requires x == q - s
    ensures q * (s * s) - 4 * (q * s * x) + 4 * (q * x * x) == 4 * (x * x * x) - 3 * (s * s * x) + s * s * s
  {
    assert (x + s) * (s * s) - 4 * ((x + s) * s * x) + 4 * ((x + s) * x * x)
           == 4 * (x * x * x) - 3 * (s * s * x) + s * s * s;
    assert q == x + s;
  }
}
