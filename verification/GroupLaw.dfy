/** The formulas of PointArithmetic compute the chord-and-tangent group law. */
module GroupLaw {
  import opened PrimeField
  import opened PointArithmetic
  import opened ChordIdentities

  function Cubic(a: int, b: int, x: int): int {
    x * x * x + a * x + b
  }

  ghost predicate OnCurve(p: Prime, a: int, b: int, x: int, y: int) {
    Cong(p, y * y, Cubic(a, b, x))
  }

  /** 4*a and 4*b in terms of a line through two points of the curve. */
  ghost predicate LineData(p: Prime, a: int, b: int, s: int, m: int, l: int, d: int) {
    Cong(p, 4 * a, FourA(s, m, l, d)) && Cong(p, 4 * b, FourB(s, m, l, d))
  }

  lemma CancelSmall(p: Prime, c: int, x: int, y: int)
    requires p > 2 && (c == 2 || c == 4 || c == 8)
    requires Cong(p, c * x, c * y)
    ensures Cong(p, x, y)
  {
    if c > 2 {
      assert c * x == 2 * (c / 2 * x) && c * y == 2 * (c / 2 * y);
      DistinctResidues(p, 2, 0);
      Cancel(p, 2, c / 2 * x, c / 2 * y);
      CancelSmall(p, c / 2, x, y);
    } else {
      DistinctResidues(p, 2, 0);
      Cancel(p, 2, x, y);
    }
  }

  // ----- the formula's intermediate values under line data

  lemma LineW(p: Prime, a: int, b: int, s: int, m: int, l: int, d: int, yy: int)
    requires LineData(p, a, b, s, m, l, d) && Cong(p, 4 * yy, m * m - l * l * d)
    ensures Cong(p, 4 * (yy - (3 * b + a * s)), 2 * (P0(s, m, l) + d * P1(s, l)))
    ensures Cong(p, 4 * (yy + (3 * b + a * s)), 2 * (R0(s, m, l) + d * R1(s, l)))
  {
    var fa, fb, fy := FourA(s, m, l, d), FourB(s, m, l, d), m * m - l * l * d;
    CongScale(p, 4 * a, fa, s);
    CongScale(p, 4 * b, fb, 3);
    CongAdd(p, 4 * b * 3, fb * 3, 4 * a * s, fa * s);
    CongAdd(p, 4 * yy, fy, 4 * b * 3 + 4 * a * s, fb * 3 + fa * s);
    assert 4 * (a * s) == 4 * a * s;
    YyMinusW(s, m, l, d);
    YyPlusW(s, m, l, d);
  }

  lemma LineS(p: Prime, a: int, b: int, s: int, m: int, l: int, d: int, xx: int)
    requires LineData(p, a, b, s, m, l, d) && 4 * xx == s * s - d
    ensures Cong(p, 4 * (3 * xx + a), 4 * (l * m - d))
  {
    CongRefl(p, 3 * (s * s - d));
    CongAdd(p, 3 * (s * s - d), 3 * (s * s - d), 4 * a, FourA(s, m, l, d));
  }

  lemma LineT(p: Prime, a: int, b: int, s: int, m: int, l: int, d: int, xx: int)
    requires LineData(p, a, b, s, m, l, d) && 4 * xx == s * s - d
    ensures Cong(p, 16 * (3 * b * s + a * (xx - a)), 4 * (U0(s, m, l) + d * U1(s, m, l)))
  {
    var fa, fb := FourA(s, m, l, d), FourB(s, m, l, d);
    CongScale(p, 4 * b, fb, 12);
    CongScale(p, 12 * (4 * b), 12 * fb, s);
    CongRefl(p, s * s - d);
    CongAdd(p, s * s - d, s * s - d, 4 * a, fa);
    CongMul(p, 4 * a, fa, s * s - d - 4 * a, s * s - d - fa);
    CongAdd(p, 12 * (4 * b) * s, 12 * fb * s, 4 * a * (s * s - d - 4 * a), fa * (s * s - d - fa));
    SixteenT(s, m, l, d);
    assert 16 * (3 * b * s) == 12 * (4 * b) * s;
    assert 16 * (a * (xx - a)) == 4 * a * (4 * xx - 4 * a);
  }

  /** The z coordinate of the sum, doubled. */
  lemma LineZ(p: Prime, s: int, m: int, l: int, d: int, xy: int, plus: int, sv: int)
    requires p > 2
    requires Cong(p, 4 * plus, 2 * (R0(s, m, l) + d * R1(s, l))) && Cong(p, 4 * sv, 4 * (l * m - d))
             && Cong(p, 2 * xy, s * m - d * l)
    ensures Cong(p, 2 * (m * plus + xy * sv), Zeta(s, m, l, d))
  {
    var r, f, e := R0(s, m, l) + d * R1(s, l), l * m - d, s * m - d * l;
    CongScale(p, 4 * plus, 2 * r, 2 * m);
    CongMul(p, 2 * xy, e, 4 * sv, 4 * f);
    CongAdd(p, 2 * m * (4 * plus), 2 * m * (2 * r), 2 * xy * (4 * sv), e * (4 * f));
    ZIdentity(s, m, l, d);
    ZScaled(m, r, e, f, Zeta(s, m, l, d), plus, xy, sv, R0(s, m, l), R1(s, l), d, l, s);
    CancelSmall(p, 4, 2 * (m * plus + xy * sv), Zeta(s, m, l, d));
  }

  lemma ZScaled(m: int, r: int, e: int, f: int, zeta: int, plus: int, xy: int, sv: int, r0: int, r1: int, d: int,
                l: int, s: int)
    requires r == r0 + d * r1 && e == s * m - d * l && f == l * m - d
    requires m * r0 + d * (m * r1) + (s * m + d * -l) * (l * m + d * -1) == zeta
    ensures 2 * m * (4 * plus) + 2 * xy * (4 * sv) == 4 * (2 * (m * plus + xy * sv))
    ensures 2 * m * (2 * r) + e * (4 * f) == 4 * zeta
  {
    assert m * (r0 + d * r1) == m * r0 + d * (m * r1);
    assert d * -l == -(d * l) && d * -1 == -d;
    assert m * r + e * f == zeta;
  }

  lemma LineX(p: Prime, s: int, m: int, l: int, d: int, xy: int, minus: int, t: int, z: int)
    requires p > 2
    requires Cong(p, 4 * minus, 2 * (P0(s, m, l) + d * P1(s, l))) && Cong(p, 2 * xy, s * m - d * l)
    requires Cong(p, 16 * t, 4 * (U0(s, m, l) + d * U1(s, m, l)))
    requires Cong(p, 2 * z, Zeta(s, m, l, d))
    ensures Cong(p, xy * minus - m * t, (l * l - s) * z)
  {
    var pp, u, e, zeta, x3 := P0(s, m, l) + d * P1(s, l), U0(s, m, l) + d * U1(s, m, l), s * m - d * l,
        Zeta(s, m, l, d), l * l - s;
    XIdentity(s, m, l, d);
    XScaled(m, pp, u, e, x3, zeta, xy, minus, t, U0(s, m, l), U1(s, m, l), d, l, s);
    LineXCore(p, m, xy, minus, t, z, pp, u, e, zeta, x3);
  }

  lemma LineXCore(p: Prime, m: int, xy: int, minus: int, t: int, z: int, pp: int, u: int, e: int, zeta: int, x3: int)
    requires p > 2 && Cong(p, 4 * minus, 2 * pp) && Cong(p, 2 * xy, e) && Cong(p, 16 * t, 4 * u) && Cong(p, 2 * z, zeta)
    requires 4 * (2 * xy * (4 * minus)) - 2 * m * (16 * t) == 8 * (4 * (xy * minus - m * t))
    requires 4 * (e * (2 * pp)) - 2 * m * (4 * u) == 8 * (2 * x3 * zeta)
    ensures Cong(p, xy * minus - m * t, x3 * z)
  {
    CongMul(p, 2 * xy, e, 4 * minus, 2 * pp);
    CongScale(p, 2 * xy * (4 * minus), e * (2 * pp), 4);
    CongScale(p, 16 * t, 4 * u, 2 * m);
    CongAdd(p, 4 * (2 * xy * (4 * minus)), 4 * (e * (2 * pp)), 2 * m * (16 * t), 2 * m * (4 * u));
    CancelSmall(p, 8, 4 * (xy * minus - m * t), 2 * x3 * zeta);
    CongScale(p, 2 * z, zeta, 2 * x3);
    CongSym(p, 2 * x3 * (2 * z), 2 * x3 * zeta);
    CongTrans(p, 4 * (xy * minus - m * t), 2 * x3 * zeta, 2 * x3 * (2 * z));
    assert 2 * x3 * (2 * z) == 4 * (x3 * z);
    CancelSmall(p, 4, xy * minus - m * t, x3 * z);
  }

  lemma XScaled(m: int, pp: int, u: int, e: int, x3: int, zeta: int, xy: int, minus: int, t: int, u0: int, u1: int,
                d: int, l: int, s: int)
    requires u == u0 + d * u1 && e == s * m - d * l
    requires (s * m + d * -l) * pp + (-m * u0 + d * (-m * u1)) == 2 * x3 * zeta
    ensures 4 * (2 * xy * (4 * minus)) - 2 * m * (16 * t) == 8 * (4 * (xy * minus - m * t))
    ensures 4 * (e * (2 * pp)) - 2 * m * (4 * u) == 8 * (2 * x3 * zeta)
  {
    assert d * -l == -(d * l);
    assert -m * u0 + d * (-m * u1) == -(m * u) by {
      assert m * (u0 + d * u1) == m * u0 + d * (m * u1);
      assert d * (-m * u1) == -(d * (m * u1));
      assert -m * u0 == -(m * u0);
    }
    assert e * pp - m * u == 2 * x3 * zeta;
  }

  lemma LineY(p: Prime, s: int, m: int, l: int, d: int, minus: int, plus: int, sv: int, t: int, z: int)
    requires p > 2
    requires Cong(p, 4 * minus, 2 * (P0(s, m, l) + d * P1(s, l))) && Cong(p, 4 * plus, 2 * (R0(s, m, l) + d * R1(s, l)))
    requires Cong(p, 4 * sv, 4 * (l * m - d)) && Cong(p, 16 * t, 4 * (U0(s, m, l) + d * U1(s, m, l)))
    requires Cong(p, 2 * z, Zeta(s, m, l, d))
    ensures Cong(p, 2 * (minus * plus + sv * t), K(s, m, l) * z)
  {
    var pp, r, u, f := P0(s, m, l) + d * P1(s, l), R0(s, m, l) + d * R1(s, l), U0(s, m, l) + d * U1(s, m, l), l * m - d;
    var zeta, k := Zeta(s, m, l, d), K(s, m, l);
    CongMul(p, 4 * minus, 2 * pp, 4 * plus, 2 * r);
    CongScale(p, 4 * minus * (4 * plus), 2 * pp * (2 * r), 4);
    CongMul(p, 4 * sv, 4 * f, 16 * t, 4 * u);
    CongAdd(p, 4 * (4 * minus * (4 * plus)), 4 * (2 * pp * (2 * r)), 4 * sv * (16 * t), 4 * f * (4 * u));
    YIdentity(s, m, l, d);
    YScaled(minus, plus, sv, t, pp, r, f, u, k * zeta, l * m + d * -1);
    CancelSmall(p, 8, 2 * (4 * (minus * plus + sv * t)), 2 * (k * zeta));
    CancelSmall(p, 2, 4 * (minus * plus + sv * t), k * zeta);
    CongScale(p, 2 * z, zeta, k);
    CongSym(p, k * (2 * z), k * zeta);
    CongTrans(p, 4 * (minus * plus + sv * t), k * zeta, k * (2 * z));
    assert k * (2 * z) == 2 * (k * z);
    CancelSmall(p, 2, 2 * (minus * plus + sv * t), k * z);
  }

  lemma YScaled(minus: int, plus: int, sv: int, t: int, pp: int, r: int, f: int, u: int, kz: int, f': int)
    requires f' == f && pp * r + f' * u == kz
    ensures 4 * (4 * minus * (4 * plus)) + 4 * sv * (16 * t) == 8 * (2 * (4 * (minus * plus + sv * t)))
    ensures 4 * (2 * pp * (2 * r)) + 4 * f * (4 * u) == 8 * (2 * kz)
  {
    assert pp * r + f * u == kz;
  }

  /** Under line data the formula yields the third point, scaled by its z coordinate:
      x = l^2 - s and 2*y = 3*l*s - 2*l^3 - m. */
  lemma LineFormula(p: Prime, a: int, b: int, s: int, m: int, l: int, d: int, xx: int, yy: int, xy: int)
    requires p > 2 && LineData(p, a, b, s, m, l, d)
    requires 4 * xx == s * s - d && Cong(p, 4 * yy, m * m - l * l * d) && Cong(p, 2 * xy, s * m - d * l)
    ensures
      var f := Formula(a, b, xx, yy, 1, xy, m, s);
      && Cong(p, 2 * f.z, Zeta(s, m, l, d))
      && Cong(p, f.x, (l * l - s) * f.z)
      && Cong(p, 2 * f.y, K(s, m, l) * f.z)
  {
    var w, sv, t := 3 * b + a * s, 3 * xx + a, 3 * b * s + a * (xx - a);
    var f := Formula(a, b, xx, yy, 1, xy, m, s);
    LineW(p, a, b, s, m, l, d, yy);
    LineS(p, a, b, s, m, l, d, xx);
    LineT(p, a, b, s, m, l, d, xx);
    LineZ(p, s, m, l, d, xy, yy + w, sv);
    LineX(p, s, m, l, d, xy, yy - w, t, m * (yy + w) + xy * sv);
    LineY(p, s, m, l, d, yy - w, yy + w, sv, t, m * (yy + w) + xy * sv);
    FormulaAtOne(a, b, xx, yy, xy, m, s);
  }

  lemma FormulaAtOne(a: int, b: int, xx: int, yy: int, xy: int, m: int, s: int)
    ensures
      var w, sv, t := 3 * b + a * s, 3 * xx + a, 3 * b * s + a * (xx - a);
      Formula(a, b, xx, yy, 1, xy, m, s) == Point(xy * (yy - w) - m * t, (yy - w) * (yy + w) + sv * t,
                                                  m * (yy + w) + xy * sv)
  {
    assert 3 * b * 1 == 3 * b && a * 1 == a;
  }

  // ----- line data of a chord and of a tangent

  /** e == u * c with c zero modulo p */
  lemma MultipleOfZero(p: Prime, c: int, u: int)
    requires Cong(p, c, 0)
    ensures Cong(p, u * c, 0) && Cong(p, c * u, 0)
  {
    CongScale(p, c, 0, u);
  }

  lemma ChordA(p: Prime, a: int, b: int, x1: int, y1: int, x2: int, y2: int, l: int)
    requires OnCurve(p, a, b, x1, y1) && OnCurve(p, a, b, x2, y2) && !Cong(p, x1, x2)
    requires Cong(p, l * (x1 - x2), y1 - y2)
    ensures Cong(p, 4 * a, FourA(x1 + x2, y1 + y2, l, (x1 - x2) * (x1 - x2)))
  {
    var d, m, q := x1 - x2, y1 + y2, x1 * x1 + x1 * x2 + x2 * x2;
    CongAdd(p, y1 * y1, Cubic(a, b, x1), y2 * y2, Cubic(a, b, x2));
    CubicDifference(a, b, x1, x2);
    CongScale(p, l * d, y1 - y2, m);
    SquareIdentities(x1, x2, y1, y2, l, d, m);
    CongTrans(p, l * d * m, y1 * y1 - y2 * y2, d * (q + a));
    Cancel(p, d, l * m, q + a);
    FromSlope(p, l * m, q, a, (x1 + x2) * (x1 + x2), d * d);
  }

  lemma SquareIdentities(x1: int, x2: int, y1: int, y2: int, l: int, d: int, m: int)
    ensures (y1 - y2) * (y1 + y2) == y1 * y1 - y2 * y2
    ensures l * d * m == d * (l * m)
    ensures 4 * (x1 * x1 + x1 * x2 + x2 * x2) == 3 * ((x1 + x2) * (x1 + x2)) + (x1 - x2) * (x1 - x2)
  {
  }

  lemma FromSlope(p: Prime, lm: int, q: int, a: int, ss: int, dd: int)
    requires Cong(p, lm, q + a) && 4 * q == 3 * ss + dd
    ensures Cong(p, 4 * a, 4 * lm - 3 * ss - dd)
  {
    CongScale(p, lm, q + a, 4);
    CongRefl(p, 4 * q);
    CongAdd(p, 4 * lm, 4 * (q + a), 4 * q, 4 * q);
    CongSym(p, 4 * lm - 4 * q, 4 * a);
  }

  lemma CubicDifference(a: int, b: int, x1: int, x2: int)
    ensures Cubic(a, b, x1) - Cubic(a, b, x2) == (x1 - x2) * (x1 * x1 + x1 * x2 + x2 * x2 + a)
  {
  }

  lemma CubicSum(a: int, b: int, x1: int, x2: int)
    ensures
      var s, d := x1 + x2, (x1 - x2) * (x1 - x2);
      4 * (Cubic(a, b, x1) + Cubic(a, b, x2)) == s * s * s + 3 * (s * d) + 4 * a * s + 8 * b
  {
    assert 4 * (x1 * x1 * x1 + x2 * x2 * x2) == (x1 + x2) * (x1 + x2) * (x1 + x2)
           + 3 * ((x1 + x2) * ((x1 - x2) * (x1 - x2)));
    assert 4 * (a * x1 + a * x2) == 4 * a * (x1 + x2);
  }

  lemma ChordB(p: Prime, a: int, b: int, x1: int, y1: int, x2: int, y2: int, l: int)
    requires p > 2 && OnCurve(p, a, b, x1, y1) && OnCurve(p, a, b, x2, y2)
    requires Cong(p, l * (x1 - x2), y1 - y2)
    requires Cong(p, 4 * a, FourA(x1 + x2, y1 + y2, l, (x1 - x2) * (x1 - x2)))
    ensures Cong(p, 4 * b, FourB(x1 + x2, y1 + y2, l, (x1 - x2) * (x1 - x2)))
  {
    var s, m, n, d := x1 + x2, y1 + y2, y1 - y2, (x1 - x2) * (x1 - x2);
    var fa := FourA(s, m, l, d);
    CongAdd(p, y1 * y1, Cubic(a, b, x1), y2 * y2, Cubic(a, b, x2));
    CongScale(p, y1 * y1 + y2 * y2, Cubic(a, b, x1) + Cubic(a, b, x2), 4);
    CubicSum(a, b, x1, x2);
    CongMul(p, l * (x1 - x2), n, l * (x1 - x2), n);
    assert l * (x1 - x2) * (l * (x1 - x2)) == l * l * d;
    CongScale(p, 4 * a, fa, s);
    FromSums(p, 4 * (y1 * y1 + y2 * y2), s * s * s + 3 * (s * d), 4 * a * s, fa * s, b, l * l * d, n * n, m * m);
    assert 2 * (m * m) + 2 * (l * l * d) - (s * s * s + 3 * (s * d)) - fa * s == 2 * FourB(s, m, l, d) by {
      FourBFromSums(s, m, l, d);
    }
    CancelSmall(p, 2, 4 * b, FourB(s, m, l, d));
  }

  lemma FourBFromSums(s: int, m: int, l: int, d: int)
    ensures 2 * (m * m) + 2 * (l * l * d) - (s * s * s + 3 * (s * d)) - FourA(s, m, l, d) * s == 2 * FourB(s, m, l, d)
  {
    assert FourA(s, m, l, d) * s == 4 * (l * s * m) - 3 * (s * s * s) - s * d;
  }

  lemma FromSums(p: Prime, squares: int, cubes: int, av: int, fav: int, b: int, lld: int, nn: int, mm: int)
    requires squares == 2 * mm + 2 * nn
    requires Cong(p, squares, cubes + av + 8 * b) && Cong(p, av, fav) && Cong(p, lld, nn)
    ensures Cong(p, 2 * (4 * b), 2 * mm + 2 * lld - cubes - fav)
  {
    CongScale(p, lld, nn, 2);
    CongRefl(p, 2 * mm - cubes);
    CongAdd(p, 2 * mm - cubes, 2 * mm - cubes, 2 * lld, 2 * nn);
    CongSym(p, av, fav);
    CongAdd(p, 2 * mm - cubes + 2 * lld, 2 * mm - cubes + 2 * nn, fav, av);
    CongRefl(p, cubes + av);
    CongAdd(p, squares, cubes + av + 8 * b, cubes + av, cubes + av);
    CongTrans(p, 2 * mm - cubes + 2 * lld - fav, squares - (cubes + av), 8 * b);
    CongSym(p, 2 * mm - cubes + 2 * lld - fav, 8 * b);
  }

  lemma ChordData(p: Prime, a: int, b: int, x1: int, y1: int, x2: int, y2: int, l: int)
    requires p > 2 && OnCurve(p, a, b, x1, y1) && OnCurve(p, a, b, x2, y2) && !Cong(p, x1, x2)
    requires Cong(p, l * (x1 - x2), y1 - y2)
    ensures LineData(p, a, b, x1 + x2, y1 + y2, l, (x1 - x2) * (x1 - x2))
  {
    ChordA(p, a, b, x1, y1, x2, y2, l);
    ChordB(p, a, b, x1, y1, x2, y2, l);
  }

  lemma ChordProducts(p: Prime, x1: int, y1: int, x2: int, y2: int, l: int)
    requires Cong(p, l * (x1 - x2), y1 - y2)
    ensures
      var s, m, d := x1 + x2, y1 + y2, (x1 - x2) * (x1 - x2);
      && 4 * (x1 * x2) == s * s - d
      && Cong(p, 4 * (y1 * y2), m * m - l * l * d)
      && Cong(p, 2 * (x1 * y2 + x2 * y1), s * m - d * l)
  {
    var s, m, n, e, d := x1 + x2, y1 + y2, y1 - y2, x1 - x2, (x1 - x2) * (x1 - x2);
    CongSym(p, l * e, n);
    CongMul(p, n, l * e, n, l * e);
    assert l * e * (l * e) == l * l * d;
    CongRefl(p, m * m);
    CongAdd(p, m * m, m * m, n * n, l * l * d);
    assert m * m - n * n == 4 * (y1 * y2);
    CongScale(p, n, l * e, e);
    assert e * (l * e) == d * l;
    CongRefl(p, s * m);
    CongAdd(p, s * m, s * m, e * n, d * l);
    assert s * m - e * n == 2 * (x1 * y2 + x2 * y1);
  }

  lemma TangentA(p: Prime, a: int, x: int, y: int, l: int)
    requires Cong(p, l * (2 * y), 3 * (x * x) + a)
    ensures Cong(p, 4 * a, FourA(2 * x, 2 * y, l, 0))
    ensures FourA(2 * x, 2 * y, l, 0) == 4 * (l * (2 * y)) - 12 * (x * x)
  {
    assert 2 * x * (2 * x) == 4 * (x * x);
    FromSlope(p, l * (2 * y), 3 * (x * x), a, 2 * x * (2 * x), 0);
  }

  lemma TangentData(p: Prime, a: int, b: int, x: int, y: int, l: int)
    requires OnCurve(p, a, b, x, y) && Cong(p, l * (2 * y), 3 * (x * x) + a)
    ensures LineData(p, a, b, 2 * x, 2 * y, l, 0)
  {
    TangentA(p, a, x, y, l);
    TangentB(p, a, b, x, y, l);
  }

  lemma TangentB(p: Prime, a: int, b: int, x: int, y: int, l: int)
    requires OnCurve(p, a, b, x, y) && Cong(p, 4 * a, 4 * (l * (2 * y)) - 12 * (x * x))
    ensures Cong(p, 4 * b, FourB(2 * x, 2 * y, l, 0))
  {
    var fa := 4 * (l * (2 * y)) - 12 * (x * x);
    CongScale(p, 4 * a, fa, x);
    CongScale(p, y * y, Cubic(a, b, x), 4);
    CongAdd(p, 4 * (y * y), 4 * Cubic(a, b, x), 4 * a * x, fa * x);
    CongRefl(p, 4 * (x * x * x));
    FourBOfTangent(x, y, l);
    var c := 4 * (x * x * x);
    CongSym(p, 4 * a * x, fa * x);
    CongAdd(p, 4 * (y * y), 4 * Cubic(a, b, x), fa * x, 4 * a * x);
    CongAdd(p, 4 * (y * y) - fa * x, 4 * Cubic(a, b, x) - 4 * a * x, c, c);
    assert 4 * Cubic(a, b, x) - 4 * a * x - c == 4 * b;
    CongSym(p, 4 * (y * y) - fa * x - c, 4 * b);
  }

  lemma FourBOfTangent(x: int, y: int, l: int)
    ensures FourB(2 * x, 2 * y, l, 0) == 4 * (y * y) - (4 * (l * (2 * y)) - 12 * (x * x)) * x - 4 * (x * x * x)
  {
    assert l * (2 * x) * (2 * y) == 4 * (l * x * y);
    assert (4 * (l * (2 * y)) - 12 * (x * x)) * x == 8 * (l * x * y) - 12 * (x * x * x);
  }

  // ----- the group law

  datatype GroupPoint = Infinity | Finite(x: int, y: int)

  ghost predicate IsPoint(p: Prime, a: int, b: int, g: GroupPoint) {
    g.Finite? ==> OnCurve(p, a, b, g.x, g.y)
  }

  ghost predicate SamePoint(p: Prime, g: GroupPoint, h: GroupPoint) {
    if g.Finite? && h.Finite? then Cong(p, g.x, h.x) && Cong(p, g.y, h.y) else g == h
  }

  function Opposed(g: GroupPoint): GroupPoint {
    if g.Finite? then Finite(g.x, -g.y) else Infinity
  }

  lemma OpposedIsPoint(p: Prime, a: int, b: int, g: GroupPoint)
    requires IsPoint(p, a, b, g)
    ensures IsPoint(p, a, b, Opposed(g)) && Opposed(Opposed(g)) == g
  {
    assert g.Finite? ==> -g.y * -g.y == g.y * g.y;
  }

  ghost predicate Opposite(p: Prime, g: GroupPoint, h: GroupPoint) {
    g.Finite? && h.Finite? && Cong(p, g.x, h.x) && Cong(p, g.y, -h.y)
  }

  ghost predicate HasOrderTwo(p: Prime, g: GroupPoint) {
    g.Finite? && Cong(p, g.y, 0)
  }

  ghost predicate SmoothAt(p: Prime, a: int, b: int, x: int) {
    !(Cong(p, Cubic(a, b, x), 0) && Cong(p, 3 * (x * x) + a, 0))
  }

  /** The cubic has no double root. */
  ghost predicate Nonsingular(p: Prime, a: int, b: int) {
    forall x: int :: SmoothAt(p, a, b, x)
  }

  /** The cubic has no root at all, so no point has order two, as on every curve of odd order. */
  ghost predicate NoTwoTorsion(p: Prime, a: int, b: int) {
    forall x: int :: !Cong(p, Cubic(a, b, x), 0)
  }

  lemma YNonzero(p: Prime, a: int, b: int, x: int, y: int)
    requires NoTwoTorsion(p, a, b) && OnCurve(p, a, b, x, y)
    ensures !Cong(p, y, 0)
  {
    if Cong(p, y, 0) {
      CongScale(p, y, 0, y);
      CongSym(p, y * y, Cubic(a, b, x));
      CongTrans(p, Cubic(a, b, x), y * y, 0);
    }
  }

  lemma TwiceNonzero(p: Prime, y: int)
    requires p > 2 && !Cong(p, y, 0)
    ensures !Cong(p, 2 * y, 0)
  {
    if Cong(p, 2 * y, 0) {
      assert 2 * 0 == 0;
      CancelSmall(p, 2, y, 0);
    }
  }

  lemma DifferenceNonzero(p: Prime, x1: int, x2: int)
    requires !Cong(p, x1, x2)
    ensures !Cong(p, x1 - x2, 0)
  {
  }

  lemma CubicCong(p: Prime, a: int, b: int, x: int, x': int)
    requires Cong(p, x, x')
    ensures Cong(p, Cubic(a, b, x), Cubic(a, b, x'))
  {
    CongMul(p, x, x', x, x');
    CongMul(p, x * x, x' * x', x, x');
    CongScale(p, x, x', a);
    CongRefl(p, b);
    CongAdd(p, x * x * x, x' * x' * x', a * x, a * x');
    CongAdd(p, x * x * x + a * x, x' * x' * x' + a * x', b, b);
  }

  lemma OnCurveCong(p: Prime, a: int, b: int, x: int, y: int, x': int, y': int)
    requires OnCurve(p, a, b, x, y) && Cong(p, x, x') && Cong(p, y, y')
    ensures OnCurve(p, a, b, x', y')
  {
    CongMul(p, y, y', y, y');
    CongSym(p, y * y, y' * y');
    CubicCong(p, a, b, x, x');
    CongTrans(p, y' * y', y * y, Cubic(a, b, x));
    CongTrans(p, y' * y', Cubic(a, b, x), Cubic(a, b, x'));
  }

  lemma SquaresAgree(p: Prime, a: int, b: int, x1: int, y1: int, x2: int, y2: int)
    requires OnCurve(p, a, b, x1, y1) && OnCurve(p, a, b, x2, y2) && Cong(p, x1, x2)
    ensures Cong(p, y1, y2) || Cong(p, y1, -y2)
  {
    CubicCong(p, a, b, x1, x2);
    CongTrans(p, y1 * y1, Cubic(a, b, x1), Cubic(a, b, x2));
    CongSym(p, y2 * y2, Cubic(a, b, x2));
    CongTrans(p, y1 * y1, Cubic(a, b, x2), y2 * y2);
    assert (y1 - y2) * (y1 + y2) == y1 * y1 - y2 * y2;
    NoZeroDivisors(p, y1 - y2, y1 + y2);
  }

  /** Two points with the same x coordinate that are not opposite are the same point, and not of order two. */
  lemma SameAbscissa(p: Prime, a: int, b: int, g: GroupPoint, h: GroupPoint)
    requires p > 2 && IsPoint(p, a, b, g) && IsPoint(p, a, b, h)
    requires g.Finite? && h.Finite? && Cong(p, g.x, h.x) && !Opposite(p, g, h)
    ensures Cong(p, g.y, h.y) && !Cong(p, g.y, 0) && !Cong(p, 2 * g.y, 0)
  {
    SquaresAgree(p, a, b, g.x, g.y, h.x, h.y);
    if Cong(p, g.y, 0) {
      CongSym(p, g.y, h.y);
      CongTrans(p, h.y, g.y, 0);
      CongAdd(p, g.y, 0, h.y, 0);
      assert false;
    }
    TwiceNonzero(p, g.y);
  }

  /** The slope of the chord, or of the tangent when the x coordinates agree. */
  ghost function Slope(p: Prime, a: int, x1: int, y1: int, x2: int, y2: int): (l: int)
    requires Cong(p, x1, x2) ==> !Cong(p, 2 * y1, 0)
    ensures Cong(p, x1, x2) ==> Cong(p, l * (2 * y1), 3 * (x1 * x1) + a)
    ensures !Cong(p, x1, x2) ==> Cong(p, l * (x1 - x2), y1 - y2)
  {
    if Cong(p, x1, x2) then
      SlopeTimes(p, 3 * (x1 * x1) + a, 2 * y1);
      (3 * (x1 * x1) + a) * Inv(p, 2 * y1)
    else
      DifferenceNonzero(p, x1, x2);
      SlopeTimes(p, y1 - y2, x1 - x2);
      (y1 - y2) * Inv(p, x1 - x2)
  }

  lemma SlopeTimes(p: Prime, n: int, e: int)
    requires !Cong(p, e, 0)
    ensures Cong(p, n * Inv(p, e) * e, n)
  {
    CongScale(p, e * Inv(p, e), 1, n);
    assert n * (e * Inv(p, e)) == n * Inv(p, e) * e;
  }

  /** The third intersection of the line of slope l through (x1, y1) and a point over x2, reflected. */
  function Reflected(l: int, x1: int, y1: int, x2: int): GroupPoint {
    var x3 := l * l - x1 - x2;
    Finite(x3, l * (x1 - x3) - y1)
  }

  /** The chord-and-tangent sum, on any curve. */
  ghost function Sum(p: Prime, a: int, b: int, g: GroupPoint, h: GroupPoint): GroupPoint
    requires p > 2 && IsPoint(p, a, b, g) && IsPoint(p, a, b, h)
  {
    if g.Infinity? then h
    else if h.Infinity? then g
    else if Opposite(p, g, h) then Infinity
    else
      assert Cong(p, g.x, h.x) ==> !Cong(p, 2 * g.y, 0) by {
        if Cong(p, g.x, h.x) {
          SameAbscissa(p, a, b, g, h);
        }
      }
      Reflected(Slope(p, a, g.x, g.y, h.x, h.y), g.x, g.y, h.x)
  }

  ghost function Difference(p: Prime, a: int, b: int, g: GroupPoint, h: GroupPoint): GroupPoint
    requires p > 2 && IsPoint(p, a, b, g) && IsPoint(p, a, b, h)
  {
    OpposedIsPoint(p, a, b, h);
    Sum(p, a, b, g, Opposed(h))
  }

  // ----- projective representatives

  /** The normal projective coordinates of a group point. */
  function Normal(g: GroupPoint): Point {
    if g.Finite? then Point(g.x, g.y, 1) else IDENTITY
  }

  function ScaleOf(g: GroupPoint, q: Point): int {
    if g.Finite? then q.z else q.y
  }

  /** q is c times n, coordinate by coordinate. */
  ghost predicate IsMultiple(p: Prime, q: Point, c: int, n: Point) {
    Cong(p, q.x, c * n.x) && Cong(p, q.y, c * n.y) && Cong(p, q.z, c * n.z)
  }

  /** q is a nonzero multiple of the normal coordinates of g. */
  ghost predicate Represents(p: Prime, q: Point, g: GroupPoint) {
    !Cong(p, ScaleOf(g, q), 0) && IsMultiple(p, q, ScaleOf(g, q), Normal(g))
  }

  function Assemble(xy: int, yz: int, minus: int, plus: int, s: int, t: int): Point {
    Point(xy * minus - yz * t, minus * plus + s * t, yz * plus + xy * s)
  }

  lemma FormulaIsAssembled(a: int, b: int, xx: int, yy: int, zz: int, xy: int, yz: int, xz: int)
    ensures
      var w, s, t := 3 * b * zz + a * xz, 3 * xx + a * zz, 3 * b * xz + a * (xx - a * zz);
      Formula(a, b, xx, yy, zz, xy, yz, xz) == Assemble(xy, yz, yy - w, yy + w, s, t)
  {
  }

  lemma AssembleScales(k: int, xy: int, yz: int, minus: int, plus: int, s: int, t: int)
    ensures
      var f := Assemble(xy, yz, minus, plus, s, t);
      Assemble(k * xy, k * yz, k * minus, k * plus, k * s, k * t) == Point(k * k * f.x, k * k * f.y, k * k * f.z)
  {
    ProductScales(k, xy, minus, yz, t);
    ProductScales(k, minus, plus, s, t);
    ProductScales(k, yz, plus, xy, s);
  }

  lemma ProductScales(k: int, a: int, b: int, c: int, d: int)
    ensures k * a * (k * b) - k * c * (k * d) == k * k * (a * b - c * d)
    ensures k * a * (k * b) + k * c * (k * d) == k * k * (a * b + c * d)
  {
  }

  lemma PartsScale(a: int, b: int, k: int, xx: int, yy: int, zz: int, xz: int)
    ensures
      var w, w' := 3 * b * zz + a * xz, 3 * b * (k * zz) + a * (k * xz);
      && k * yy - w' == k * (yy - w)
      && k * yy + w' == k * (yy + w)
      && 3 * (k * xx) + a * (k * zz) == k * (3 * xx + a * zz)
      && 3 * b * (k * xz) + a * (k * xx - a * (k * zz)) == k * (3 * b * xz + a * (xx - a * zz))
  {
    assert a * (k * xz) == k * (a * xz) && 3 * b * (k * zz) == k * (3 * b * zz) && 3 * b * (k * xz) == k * (3 * b * xz);
    assert a * (k * zz) == k * (a * zz);
    assert a * (k * xx - k * (a * zz)) == k * (a * (xx - a * zz));
  }

  lemma FormulaScales(a: int, b: int, k: int, xx: int, yy: int, zz: int, xy: int, yz: int, xz: int)
    ensures
      var f := Formula(a, b, xx, yy, zz, xy, yz, xz);
      Formula(a, b, k * xx, k * yy, k * zz, k * xy, k * yz, k * xz) == Point(k * k * f.x, k * k * f.y, k * k * f.z)
  {
    var w, s, t := 3 * b * zz + a * xz, 3 * xx + a * zz, 3 * b * xz + a * (xx - a * zz);
    PartsScale(a, b, k, xx, yy, zz, xz);
    FormulaIsAssembled(a, b, xx, yy, zz, xy, yz, xz);
    FormulaIsAssembled(a, b, k * xx, k * yy, k * zz, k * xy, k * yz, k * xz);
    AssembleScales(k, xy, yz, yy - w, yy + w, s, t);
  }

  lemma FormulaCong(p: Prime, a: int, b: int, xx: int, yy: int, zz: int, xy: int, yz: int, xz: int,
                    xx': int, yy': int, zz': int, xy': int, yz': int, xz': int)
    requires Cong(p, xx, xx') && Cong(p, yy, yy') && Cong(p, zz, zz') && Cong(p, xy, xy') && Cong(p, yz, yz')
             && Cong(p, xz, xz')
    ensures
      var f, g := Formula(a, b, xx, yy, zz, xy, yz, xz), Formula(a, b, xx', yy', zz', xy', yz', xz');
      Cong(p, f.x, g.x) && Cong(p, f.y, g.y) && Cong(p, f.z, g.z)
  {
    var w, s, t := 3 * b * zz + a * xz, 3 * xx + a * zz, 3 * b * xz + a * (xx - a * zz);
    var w', s', t' := 3 * b * zz' + a * xz', 3 * xx' + a * zz', 3 * b * xz' + a * (xx' - a * zz');
    CongScale(p, zz, zz', a);
    CongScale(p, xx, xx', 3);
    LinearCong(p, 3 * b, zz, zz', a, xz, xz');
    CongAdd(p, 3 * xx, 3 * xx', a * zz, a * zz');
    CongAdd(p, xx, xx', a * zz, a * zz');
    LinearCong(p, 3 * b, xz, xz', a, xx - a * zz, xx' - a * zz');
    CongAdd(p, yy, yy', w, w');
    ProductsCong(p, xy, xy', yy - w, yy' - w', yz, yz', t, t');
    ProductsCong(p, yy - w, yy' - w', yy + w, yy' + w', s, s', t, t');
    ProductsCong(p, yz, yz', yy + w, yy' + w', xy, xy', s, s');
  }

  lemma LinearCong(p: Prime, c: int, x: int, x': int, d: int, y: int, y': int)
    requires Cong(p, x, x') && Cong(p, y, y')
    ensures Cong(p, c * x + d * y, c * x' + d * y')
  {
    CongScale(p, x, x', c);
    CongScale(p, y, y', d);
    CongAdd(p, c * x, c * x', d * y, d * y');
  }

  lemma ProductsCong(p: Prime, a: int, a': int, b: int, b': int, c: int, c': int, d: int, d': int)
    requires Cong(p, a, a') && Cong(p, b, b') && Cong(p, c, c') && Cong(p, d, d')
    ensures Cong(p, a * b - c * d, a' * b' - c' * d') && Cong(p, a * b + c * d, a' * b' + c' * d')
  {
    CongMul(p, a, a', b, b');
    CongMul(p, c, c', d, d');
    CongAdd(p, a * b, a' * b', c * d, c' * d');
  }

  // ----- the formula on normal coordinates

  function FormulaAffine(a: int, b: int, x1: int, y1: int, x2: int, y2: int): Point {
    Formula(a, b, x1 * x2, y1 * y2, 1, x1 * y2 + x2 * y1, y1 + y2, x1 + x2)
  }

  /** The third point of a line through two points of the curve lies on the curve. */
  lemma ThirdPointSquare(p: Prime, a: int, b: int, s: int, m: int, l: int, d: int)
    requires LineData(p, a, b, s, m, l, d)
    ensures Cong(p, 4 * Cubic(a, b, l * l - s), K(s, m, l) * K(s, m, l))
  {
    var x := l * l - s;
    ThirdPointOnCurve(s, m, l, d);
    CongScale(p, 4 * a, FourA(s, m, l, d), x);
    CongAdd(p, 4 * a * x, FourA(s, m, l, d) * x, 4 * b, FourB(s, m, l, d));
    CongRefl(p, 4 * (x * x * x));
    CongAdd(p, 4 * (x * x * x), 4 * (x * x * x), 4 * a * x + 4 * b, FourA(s, m, l, d) * x + FourB(s, m, l, d));
    assert 4 * (x * x * x) + (4 * a * x + 4 * b) == 4 * Cubic(a, b, x);
  }

  /** Reflecting the third point gives a point of the curve. */
  lemma ReflectedOnCurve(p: Prime, a: int, b: int, s: int, m: int, l: int, d: int, x1: int, y1: int)
    requires p > 2 && LineData(p, a, b, s, m, l, d) && Cong(p, l * (2 * x1 - s), 2 * y1 - m)
    ensures OnCurve(p, a, b, l * l - s, l * (x1 - (l * l - s)) - y1)
  {
    var x3, k := l * l - s, K(s, m, l);
    var y3 := l * (x1 - x3) - y1;
    ThirdPointSquare(p, a, b, s, m, l, d);
    TwiceThirdY(p, s, m, l, x1, y1);
    CongMul(p, k, 2 * y3, k, 2 * y3);
    assert 2 * y3 * (2 * y3) == 4 * (y3 * y3);
    CongTrans(p, 4 * Cubic(a, b, x3), k * k, 4 * (y3 * y3));
    CancelSmall(p, 4, Cubic(a, b, x3), y3 * y3);
    CongSym(p, Cubic(a, b, x3), y3 * y3);
  }

  lemma TwiceThirdY(p: Prime, s: int, m: int, l: int, x1: int, y1: int)
    requires Cong(p, l * (2 * x1 - s), 2 * y1 - m)
    ensures Cong(p, K(s, m, l), 2 * (l * (x1 - (l * l - s)) - y1))
  {
    var y3 := l * (x1 - (l * l - s)) - y1;
    assert 2 * y3 - K(s, m, l) == l * (2 * x1 - s) - (2 * y1 - m) by {
      assert 2 * (l * (x1 - (l * l - s))) == l * (2 * x1 - s) - 2 * (l * l * l) + 3 * (l * s);
    }
    CongSym(p, 2 * y3, K(s, m, l));
  }

  /** Line data with a nonzero z coordinate: the formula yields the reflected third point. */
  lemma ThirdPoint(p: Prime, a: int, b: int, s: int, m: int, l: int, d: int, xx: int, yy: int, xy: int, x1: int,
                   y1: int)
    requires p > 2 && LineData(p, a, b, s, m, l, d)
    requires 4 * xx == s * s - d && Cong(p, 4 * yy, m * m - l * l * d) && Cong(p, 2 * xy, s * m - d * l)
    requires !Cong(p, Zeta(s, m, l, d), 0) && Cong(p, l * (2 * x1 - s), 2 * y1 - m)
    ensures
      var f, x3 := Formula(a, b, xx, yy, 1, xy, m, s), l * l - s;
      !Cong(p, f.z, 0) && Cong(p, f.x, x3 * f.z) && Cong(p, f.y, (l * (x1 - x3) - y1) * f.z)
  {
    var f, x3 := Formula(a, b, xx, yy, 1, xy, m, s), l * l - s;
    var y3 := l * (x1 - x3) - y1;
    LineFormula(p, a, b, s, m, l, d, xx, yy, xy);
    if Cong(p, f.z, 0) {
      MultipleOfZero(p, f.z, 2);
      CongSym(p, 2 * f.z, Zeta(s, m, l, d));
      CongTrans(p, Zeta(s, m, l, d), 2 * f.z, 0);
      assert false;
    }
    TwiceThirdY(p, s, m, l, x1, y1);
    CongScale(p, K(s, m, l), 2 * y3, f.z);
    CongTrans(p, 2 * f.y, K(s, m, l) * f.z, 2 * y3 * f.z);
    assert 2 * y3 * f.z == 2 * (y3 * f.z);
    CancelSmall(p, 2, f.y, y3 * f.z);
  }

  /** The z coordinate of a chord is (x1 - x2)^3 times the y coordinate of the points' difference. */
  lemma ZetaReflected(p: Prime, s: int, m: int, l: int, n: int, e: int, l': int)
    requires Cong(p, l * e, n) && Cong(p, l' * e, m)
    ensures Cong(p, e * (e * e) * K(s, n, l'), -Zeta(s, m, l, e * e))
  {
    var d := e * e;
    CongMul(p, l' * e, m, l' * e, m);
    CongMul(p, l' * e * (l' * e), m * m, l' * e, m);
    CongScale(p, l' * e * (l' * e) * (l' * e), m * m * m, 2);
    CongScale(p, l' * e, m, 3 * (s * d));
    CongScale(p, l * e, n, e * d);
    CongSym(p, e * d * (l * e), e * d * n);
    CongAdd(p, 3 * (s * d) * (l' * e), 3 * (s * d) * m, 2 * (l' * e * (l' * e) * (l' * e)), 2 * (m * m * m));
    CongAdd(p, 3 * (s * d) * (l' * e) - 2 * (l' * e * (l' * e) * (l' * e)), 3 * (s * d) * m - 2 * (m * m * m),
            e * d * n, e * d * (l * e));
    ZetaSides(s, m, l, n, e, l', d);
  }

  lemma ZetaSides(s: int, m: int, l: int, n: int, e: int, l': int, d: int)
    requires d == e * e
    ensures 3 * (s * d) * (l' * e) - 2 * (l' * e * (l' * e) * (l' * e)) - e * d * n == e * d * K(s, n, l')
    ensures 3 * (s * d) * m - 2 * (m * m * m) - e * d * (l * e) == -Zeta(s, m, l, d)
  {
    CubeOfProduct(l', e);
    FactorEd(e * d, l' * s, l' * l' * l', n);
    MoveFactors(s, d, l', e);
    ZetaTerms(s, m, l, e, d);
  }

  lemma CubeOfProduct(u: int, e: int)
    ensures u * e * (u * e) * (u * e) == e * (e * e) * (u * u * u)
  {
  }

  lemma FactorEd(q: int, x: int, y: int, n: int)
    ensures q * (3 * x - 2 * y - n) == 3 * (q * x) - 2 * (q * y) - q * n
  {
  }

  lemma MoveFactors(s: int, d: int, u: int, e: int)
    ensures 3 * (s * d) * (u * e) == 3 * (e * d * (u * s))
  {
  }

  lemma ZetaTerms(s: int, m: int, l: int, e: int, d: int)
    requires d == e * e
    ensures 3 * (s * d) * m - 2 * (m * m * m) - e * d * (l * e) == -Zeta(s, m, l, d)
  {
    EdLe(e, d, l);
    assert d * (-3 * (s * m)) == -(3 * (s * d) * m);
  }

  lemma EdLe(e: int, d: int, l: int)
    requires d == e * e
    ensures e * d * (l * e) == d * d * l
  {
    assert e * d * (l * e) == e * e * (d * l);
  }

  lemma SameZero(p: Prime, x: int, y: int)
    requires Cong(p, x, y)
    ensures Cong(p, x, 0) <==> Cong(p, y, 0)
  {
    CongSym(p, x, y);
    if Cong(p, x, 0) {
      CongTrans(p, y, x, 0);
    }
    if Cong(p, y, 0) {
      CongTrans(p, x, y, 0);
    }
  }

  lemma TwiceZero(p: Prime, x: int)
    requires p > 2
    ensures Cong(p, 2 * x, 0) <==> Cong(p, x, 0)
  {
    DistinctResidues(p, 2, 0);
    ZeroProduct(p, 2, x);
  }

  /** The difference of the points, by the chord through the first and the negative of the second. */
  lemma DifferencePoint(p: Prime, a: int, b: int, x1: int, y1: int, x2: int, y2: int, l: int)
    requires p > 2 && OnCurve(p, a, b, x1, y1) && OnCurve(p, a, b, x2, y2) && !Cong(p, x1, x2)
    requires Cong(p, l * (x1 - x2), y1 + y2)
    ensures Cong(p, K(x1 + x2, y1 - y2, l), 2 * Reflected(l, x1, y1, x2).y)
  {
    assert 2 * x1 - (x1 + x2) == x1 - x2 && 2 * y1 - (y1 - y2) == y1 + y2;
    assert l * l - (x1 + x2) == l * l - x1 - x2;
    TwiceThirdY(p, x1 + x2, y1 - y2, l, x1, y1);
  }

  /** The z coordinate of a chord vanishes exactly when the points' difference has order two. */
  lemma ChordZetaIff(p: Prime, a: int, b: int, x1: int, y1: int, x2: int, y2: int, l: int, l': int)
    requires p > 2 && OnCurve(p, a, b, x1, y1) && OnCurve(p, a, b, x2, y2) && !Cong(p, x1, x2)
    requires Cong(p, l * (x1 - x2), y1 - y2) && Cong(p, l' * (x1 - x2), y1 + y2)
    ensures Cong(p, Zeta(x1 + x2, y1 + y2, l, (x1 - x2) * (x1 - x2)), 0) <==> Cong(p, Reflected(l', x1, y1, x2).y, 0)
  {
    var s, m, n, e := x1 + x2, y1 + y2, y1 - y2, x1 - x2;
    var zeta, k, y3 := Zeta(s, m, l, e * e), K(s, n, l'), Reflected(l', x1, y1, x2).y;
    ZetaReflected(p, s, m, l, n, e, l');
    SameZero(p, e * (e * e) * k, -zeta);
    NegatedZero(p, zeta);
    DifferenceNonzero(p, x1, x2);
    ZeroProduct(p, e, e);
    ZeroProduct(p, e, e * e);
    ZeroProduct(p, e * (e * e), k);
    DifferencePoint(p, a, b, x1, y1, x2, y2, l');
    SameZero(p, k, 2 * y3);
    TwiceZero(p, y3);
  }

  /** f is z times the normal coordinates of a finite point. */
  ghost predicate IsScaled(p: Prime, f: Point, g: GroupPoint)
    requires g.Finite?
  {
    Cong(p, f.x, g.x * f.z) && Cong(p, f.y, g.y * f.z)
  }

  /** Chord law: where z does not vanish, and exactly when it does. */
  lemma ChordSum(p: Prime, a: int, b: int, x1: int, y1: int, x2: int, y2: int, l: int, l': int)
    requires p > 2 && OnCurve(p, a, b, x1, y1) && OnCurve(p, a, b, x2, y2) && !Cong(p, x1, x2)
    requires Cong(p, l * (x1 - x2), y1 - y2) && Cong(p, l' * (x1 - x2), y1 + y2)
    ensures
      var f := FormulaAffine(a, b, x1, y1, x2, y2);
      && (Cong(p, f.z, 0) <==> Cong(p, Reflected(l', x1, y1, x2).y, 0))
      && (!Cong(p, f.z, 0) ==> IsScaled(p, f, Reflected(l, x1, y1, x2)))
  {
    var s, m, d, f := x1 + x2, y1 + y2, (x1 - x2) * (x1 - x2), FormulaAffine(a, b, x1, y1, x2, y2);
    ChordData(p, a, b, x1, y1, x2, y2, l);
    ChordProducts(p, x1, y1, x2, y2, l);
    LineFormula(p, a, b, s, m, l, d, x1 * x2, y1 * y2, x1 * y2 + x2 * y1);
    ChordZetaIff(p, a, b, x1, y1, x2, y2, l, l');
    SameZero(p, 2 * f.z, Zeta(s, m, l, d));
    TwiceZero(p, f.z);
    if !Cong(p, f.z, 0) {
      assert 2 * x1 - s == x1 - x2 && 2 * y1 - m == y1 - y2;
      ThirdPoint(p, a, b, s, m, l, d, x1 * x2, y1 * y2, x1 * y2 + x2 * y1, x1, y1);
      assert l * l - s == l * l - x1 - x2;
    }
  }

  lemma TangentZetaNonzero(p: Prime, s: int, m: int, l: int)
    requires p > 2 && !Cong(p, m, 0)
    ensures !Cong(p, Zeta(s, m, l, 0), 0)
  {
    assert Zeta(s, m, l, 0) == 2 * (m * (m * m));
    if Cong(p, Zeta(s, m, l, 0), 0) {
      CancelSmall(p, 2, m * (m * m), 0);
      NoZeroDivisors(p, m, m * m);
      NoZeroDivisors(p, m, m);
      assert false;
    }
  }

  lemma TangentProducts(p: Prime, x: int, y: int, l: int)
    ensures
      var s, m := x + x, y + y;
      && l * (2 * x - s) == 0
      && 4 * (x * x) == s * s - 0
      && Cong(p, 4 * (y * y), m * m - l * l * 0)
      && Cong(p, 2 * (x * y + x * y), s * m - 0 * l)
      && Cong(p, l * (2 * x - s), 2 * y - m)
  {
    assert (y + y) * (y + y) - l * l * 0 == 4 * (y * y);
    assert (x + x) * (y + y) - 0 * l == 2 * (x * y + x * y);
    assert l * (2 * x - (x + x)) == 0;
    CongRefl(p, 4 * (y * y));
    CongRefl(p, 2 * (x * y + x * y));
    CongRefl(p, 0);
  }

  /** Tangent law, at every point that does not have order two. */
  lemma TangentSum(p: Prime, a: int, b: int, x: int, y: int, l: int)
    requires p > 2 && OnCurve(p, a, b, x, y) && !Cong(p, y, 0)
    requires Cong(p, l * (2 * y), 3 * (x * x) + a)
    ensures
      var f := FormulaAffine(a, b, x, y, x, y);
      !Cong(p, f.z, 0) && IsScaled(p, f, Reflected(l, x, y, x))
  {
    var s, m := x + x, y + y;
    TangentData(p, a, b, x, y, l);
    TwiceNonzero(p, y);
    TangentZetaNonzero(p, s, m, l);
    TangentProducts(p, x, y, l);
    ThirdPoint(p, a, b, s, m, l, 0, x * x, y * y, x * y + x * y, x, y);
    assert l * l - s == l * l - x - x;
  }

  // ----- the sum is a point

  /** Replacing one abscissa of the double point by a congruent one. */
  lemma TangentShifts(p: Prime, l: int, x: int, y: int, x': int)
    requires Cong(p, x, x')
    ensures
      var u, v := Reflected(l, x, y, x), Reflected(l, x, y, x');
      Cong(p, u.x, v.x) && Cong(p, u.y, v.y)
  {
    var u, v := l * l - x - x, l * l - x - x';
    CongRefl(p, l * l - x);
    CongAdd(p, l * l - x, l * l - x, x, x');
    CongRefl(p, l * x - y);
    CongScale(p, u, v, l);
    CongAdd(p, l * x - y, l * x - y, l * u, l * v);
    assert l * x - y - l * u == l * (x - u) - y && l * x - y - l * v == l * (x - v) - y;
  }

  lemma ChordIsPoint(p: Prime, a: int, b: int, x1: int, y1: int, x2: int, y2: int, l: int)
    requires p > 2 && OnCurve(p, a, b, x1, y1) && OnCurve(p, a, b, x2, y2) && !Cong(p, x1, x2)
    requires Cong(p, l * (x1 - x2), y1 - y2)
    ensures IsPoint(p, a, b, Reflected(l, x1, y1, x2))
  {
    ChordData(p, a, b, x1, y1, x2, y2, l);
    assert 2 * x1 - (x1 + x2) == x1 - x2 && 2 * y1 - (y1 + y2) == y1 - y2;
    assert l * l - (x1 + x2) == l * l - x1 - x2;
    ReflectedOnCurve(p, a, b, x1 + x2, y1 + y2, l, (x1 - x2) * (x1 - x2), x1, y1);
  }

  lemma TangentIsPoint(p: Prime, a: int, b: int, x: int, y: int, x': int, l: int)
    requires p > 2 && OnCurve(p, a, b, x, y) && Cong(p, x, x') && Cong(p, l * (2 * y), 3 * (x * x) + a)
    ensures IsPoint(p, a, b, Reflected(l, x, y, x'))
  {
    TangentData(p, a, b, x, y, l);
    TangentProducts(p, x, y, l);
    ReflectedOnCurve(p, a, b, x + x, y + y, l, 0, x, y);
    assert l * l - (x + x) == l * l - x - x;
    TangentShifts(p, l, x, y, x');
    var u, v := Reflected(l, x, y, x), Reflected(l, x, y, x');
    OnCurveCong(p, a, b, u.x, u.y, v.x, v.y);
  }

  /** The sum of two points of the curve is a point of the curve. */
  lemma SumIsPoint(p: Prime, a: int, b: int, g: GroupPoint, h: GroupPoint)
    requires p > 2 && IsPoint(p, a, b, g) && IsPoint(p, a, b, h)
    ensures IsPoint(p, a, b, Sum(p, a, b, g, h))
  {
    if g.Finite? && h.Finite? && !Opposite(p, g, h) {
      if Cong(p, g.x, h.x) {
        SameAbscissa(p, a, b, g, h);
        TangentIsPoint(p, a, b, g.x, g.y, h.x, Slope(p, a, g.x, g.y, h.x, h.y));
      } else {
        ChordIsPoint(p, a, b, g.x, g.y, h.x, h.y, Slope(p, a, g.x, g.y, h.x, h.y));
      }
    }
  }
}
