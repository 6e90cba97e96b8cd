/** The addition, mixed addition and doubling formulas on any projective representatives of any two
    points: they yield a representative of the points' sum exactly when the points' difference does not
    have order two, so always on the curves of prime order that they are for. */
module CompleteAddition {
  import opened PrimeField
  import opened PointArithmetic
  import opened GroupLaw

  // ----- any representatives reduce to normal coordinates

  lemma ScaledProduct(p: Prime, x: int, c: int, u: int, y: int, d: int, v: int)
    requires Cong(p, x, c * u) && Cong(p, y, d * v)
    ensures Cong(p, x * y, c * d * (u * v))
  {
    CongMul(p, x, c * u, y, d * v);
    assert c * u * (d * v) == c * d * (u * v);
  }

  lemma ScaledCross(p: Prime, x1: int, y1: int, c: int, u1: int, v1: int, x2: int, y2: int, d: int, u2: int, v2: int)
    requires Cong(p, x1, c * u1) && Cong(p, y1, c * v1) && Cong(p, x2, d * u2) && Cong(p, y2, d * v2)
    ensures Cong(p, x1 * y2 + x2 * y1, c * d * (u1 * v2 + u2 * v1))
  {
    ScaledProduct(p, x1, c, u1, y2, d, v2);
    ScaledProduct(p, x2, d, u2, y1, c, v1);
    CongAdd(p, x1 * y2, c * d * (u1 * v2), x2 * y1, d * c * (u2 * v1));
    assert c * d * (u1 * v2) + d * c * (u2 * v1) == c * d * (u1 * v2 + u2 * v1);
  }

  /** Scaling the operands by c and d scales the sum by (c*d)^2. */
  lemma ScaledOperands(p: Prime, a: int, b: int, p1: Point, c: int, n1: Point, p2: Point, d: int, n2: Point)
    requires IsMultiple(p, p1, c, n1) && IsMultiple(p, p2, d, n2)
    ensures IsMultiple(p, FormulaFor(a, b, p1, p2), c * d * (c * d), FormulaFor(a, b, n1, n2))
  {
    var k := c * d;
    ScaledProduct(p, p1.x, c, n1.x, p2.x, d, n2.x);
    ScaledProduct(p, p1.y, c, n1.y, p2.y, d, n2.y);
    ScaledProduct(p, p1.z, c, n1.z, p2.z, d, n2.z);
    ScaledCross(p, p1.x, p1.y, c, n1.x, n1.y, p2.x, p2.y, d, n2.x, n2.y);
    ScaledCross(p, p1.y, p1.z, c, n1.y, n1.z, p2.y, p2.z, d, n2.y, n2.z);
    ScaledCross(p, p1.x, p1.z, c, n1.x, n1.z, p2.x, p2.z, d, n2.x, n2.z);
    var xx, yy, zz := n1.x * n2.x, n1.y * n2.y, n1.z * n2.z;
    var xy, yz, xz := n1.x * n2.y + n2.x * n1.y, n1.y * n2.z + n2.y * n1.z, n1.x * n2.z + n2.x * n1.z;
    FormulaCong(p, a, b, p1.x * p2.x, p1.y * p2.y, p1.z * p2.z,
                p1.x * p2.y + p2.x * p1.y, p1.y * p2.z + p2.y * p1.z, p1.x * p2.z + p2.x * p1.z,
                k * xx, k * yy, k * zz, k * xy, k * yz, k * xz);
    FormulaScales(a, b, k, xx, yy, zz, xy, yz, xz);
  }

  lemma RepresentsScaled(p: Prime, q: Point, k: int, n: Point, g: GroupPoint)
    requires IsMultiple(p, q, k, n) && !Cong(p, k, 0)
    ensures Represents(p, n, g) <==> Represents(p, q, g)
  {
    var c, m, s := ScaleOf(g, n), Normal(g), ScaleOf(g, q);
    CongSym(p, s, k * c);
    SameZero(p, k * c, s);
    ZeroProduct(p, k, c);
    CoordinateScales(p, q.x, k, n.x, c, m.x, s);
    CoordinateScales(p, q.y, k, n.y, c, m.y, s);
    CoordinateScales(p, q.z, k, n.z, c, m.z, s);
  }

  lemma CoordinateScales(p: Prime, x: int, k: int, u: int, c: int, v: int, s: int)
    requires Cong(p, x, k * u) && Cong(p, k * c, s) && !Cong(p, k, 0)
    ensures Cong(p, u, c * v) <==> Cong(p, x, s * v)
  {
    CongScale(p, k * c, s, v);
    assert k * (c * v) == k * c * v;
    if Cong(p, u, c * v) {
      CongScale(p, u, c * v, k);
      CongTrans(p, x, k * u, k * (c * v));
      CongTrans(p, x, k * c * v, s * v);
    }
    if Cong(p, x, s * v) {
      CongSym(p, k * c * v, s * v);
      CongTrans(p, x, s * v, k * (c * v));
      CongSym(p, x, k * u);
      CongTrans(p, k * u, x, k * (c * v));
      Cancel(p, k, u, c * v);
    }
  }

  // ----- the sum of normal coordinates

  lemma FiniteRepresents(p: Prime, f: Point, g: GroupPoint)
    requires g.Finite?
    ensures Represents(p, f, g) <==> !Cong(p, f.z, 0) && IsScaled(p, f, g)
  {
    assert g.x * f.z == f.z * g.x && g.y * f.z == f.z * g.y && f.z * 1 == f.z;
    CongRefl(p, f.z);
  }

  lemma InfinityRepresents(p: Prime, f: Point)
    requires Cong(p, f.x, 0) && Cong(p, f.z, 0)
    ensures Represents(p, f, Infinity) <==> !Cong(p, f.y, 0)
  {
    CongRefl(p, f.y);
  }

  lemma IdentityOperands(p: Prime, a: int, b: int, g: GroupPoint)
    ensures Represents(p, FormulaFor(a, b, IDENTITY, Normal(g)), g) <==> !HasOrderTwo(p, g)
    ensures Represents(p, FormulaFor(a, b, Normal(g), IDENTITY), g) <==> !HasOrderTwo(p, g)
  {
    if g.Finite? {
      assert FormulaFor(a, b, IDENTITY, Normal(g)) == Point(g.x * g.y, g.y * g.y, g.y);
      assert FormulaFor(a, b, Normal(g), IDENTITY) == Point(g.x * g.y, g.y * g.y, g.y);
      CongRefl(p, g.x * g.y);
      CongRefl(p, g.y * g.y);
      FiniteRepresents(p, Point(g.x * g.y, g.y * g.y, g.y), g);
    } else {
      assert FormulaFor(a, b, IDENTITY, IDENTITY) == IDENTITY;
      DistinctResidues(p, 1, 0);
      CongRefl(p, 0);
      CongRefl(p, 1);
    }
  }

  lemma DifferenceFromInfinity(p: Prime, a: int, b: int, g: GroupPoint)
    requires p > 2 && IsPoint(p, a, b, g)
    ensures HasOrderTwo(p, Difference(p, a, b, Infinity, g)) <==> HasOrderTwo(p, g)
    ensures Difference(p, a, b, g, Infinity) == g
  {
    if g.Finite? {
      NegatedZero(p, g.y);
    }
  }

  lemma AffineCong(p: Prime, a: int, b: int, x1: int, y1: int, x2: int, y2: int, x2': int, y2': int)
    requires Cong(p, x2, x2') && Cong(p, y2, y2')
    ensures
      var f, g := FormulaAffine(a, b, x1, y1, x2, y2), FormulaAffine(a, b, x1, y1, x2', y2');
      Cong(p, f.x, g.x) && Cong(p, f.y, g.y) && Cong(p, f.z, g.z)
  {
    CongScale(p, x2, x2', x1);
    CongScale(p, y2, y2', y1);
    LinearCong(p, x1, y2, y2', y1, x2, x2');
    CongRefl(p, 1);
    CongRefl(p, x1);
    CongRefl(p, y1);
    CongAdd(p, y1, y1, y2, y2');
    CongAdd(p, x1, x1, x2, x2');
    FormulaCong(p, a, b, x1 * x2, y1 * y2, 1, x1 * y2 + x2 * y1, y1 + y2, x1 + x2,
                x1 * x2', y1 * y2', 1, x1 * y2' + x2' * y1, y1 + y2', x1 + x2');
  }

  /** A point and its negative: the formula meets the tangent's y coordinate with x and z zero. */
  lemma OppositeFormula(a: int, b: int, x: int, y: int)
    ensures
      var f := FormulaAffine(a, b, x, y, x, -y);
      f.x == 0 && f.z == 0 && f.y == FormulaAffine(a, b, x, y, x, y).y
  {
    var w, s, t := 3 * b * 1 + a * (x + x), 3 * (x * x) + a * 1, 3 * b * (x + x) + a * (x * x - a * 1);
    assert x * -y + x * y == 0 && y + -y == 0 && y * -y == -(y * y);
    SwapFactors(y * y, w);
    assert FormulaAffine(a, b, x, y, x, -y).y == (-(y * y) - w) * (-(y * y) + w) + s * t;
  }

  lemma SwapFactors(v: int, w: int)
    ensures (-v - w) * (-v + w) == (v - w) * (v + w)
  {
  }

  lemma NormalFormula(a: int, b: int, x1: int, y1: int, x2: int, y2: int)
    ensures FormulaFor(a, b, Point(x1, y1, 1), Point(x2, y2, 1)) == FormulaAffine(a, b, x1, y1, x2, y2)
  {
  }

  lemma CoordinateCarries(p: Prime, fx: int, tx: int, u: int, tz: int, v: int, fz: int)
    requires Cong(p, fx, tx) && Cong(p, tx, u * tz) && Cong(p, u, v) && Cong(p, fz, tz)
    ensures Cong(p, fx, v * fz)
  {
    CongSym(p, fz, tz);
    CongMul(p, u, v, tz, fz);
    CongTrans(p, fx, tx, u * tz);
    CongTrans(p, fx, u * tz, v * fz);
  }

  // ----- points with different x coordinates

  lemma ChordCase(p: Prime, a: int, b: int, g: GroupPoint, h: GroupPoint)
    requires p > 2 && IsPoint(p, a, b, g) && IsPoint(p, a, b, h)
    requires g.Finite? && h.Finite? && !Cong(p, g.x, h.x)
    ensures Represents(p, FormulaFor(a, b, Normal(g), Normal(h)), Sum(p, a, b, g, h))
      <==> !HasOrderTwo(p, Difference(p, a, b, g, h))
  {
    var l, l' := Slope(p, a, g.x, g.y, h.x, h.y), Slope(p, a, g.x, g.y, h.x, -h.y);
    assert g.y - -h.y == g.y + h.y;
    ChordSum(p, a, b, g.x, g.y, h.x, h.y, l, l');
    NormalFormula(a, b, g.x, g.y, h.x, h.y);
    FiniteRepresents(p, FormulaAffine(a, b, g.x, g.y, h.x, h.y), Reflected(l, g.x, g.y, h.x));
    assert Difference(p, a, b, g, h) == Reflected(l', g.x, g.y, h.x);
  }

  // ----- equal points

  lemma TangentCase(p: Prime, a: int, b: int, g: GroupPoint, h: GroupPoint)
    requires p > 2 && IsPoint(p, a, b, g) && IsPoint(p, a, b, h)
    requires g.Finite? && h.Finite? && Cong(p, g.x, h.x) && !Opposite(p, g, h)
    ensures Represents(p, FormulaFor(a, b, Normal(g), Normal(h)), Sum(p, a, b, g, h))
    ensures Difference(p, a, b, g, h) == Infinity
  {
    SameAbscissa(p, a, b, g, h);
    var x, y := g.x, g.y;
    var l := Slope(p, a, x, y, h.x, h.y);
    TangentSum(p, a, b, x, y, l);
    EqualPoints(p, a, b, x, y, h.x, h.y, l);
    NormalFormula(a, b, x, y, h.x, h.y);
    FiniteRepresents(p, FormulaAffine(a, b, x, y, h.x, h.y), Reflected(l, x, y, h.x));
    assert -(-h.y) == h.y;
  }

  lemma EqualPoints(p: Prime, a: int, b: int, x: int, y: int, x': int, y': int, l: int)
    requires Cong(p, x, x') && Cong(p, y, y')
    requires !Cong(p, FormulaAffine(a, b, x, y, x, y).z, 0)
    requires IsScaled(p, FormulaAffine(a, b, x, y, x, y), Reflected(l, x, y, x))
    ensures
      var f := FormulaAffine(a, b, x, y, x', y');
      !Cong(p, f.z, 0) && IsScaled(p, f, Reflected(l, x, y, x'))
  {
    var f, t := FormulaAffine(a, b, x, y, x', y'), FormulaAffine(a, b, x, y, x, y);
    var u, v := Reflected(l, x, y, x), Reflected(l, x, y, x');
    CongSym(p, x, x');
    CongSym(p, y, y');
    AffineCong(p, a, b, x, y, x', y', x, y);
    TangentShifts(p, l, x, y, x');
    CoordinateCarries(p, f.x, t.x, u.x, t.z, v.x, f.z);
    CoordinateCarries(p, f.y, t.y, u.y, t.z, v.y, f.z);
    SameZero(p, f.z, t.z);
  }

  // ----- opposite points

  /** Doubling a point of order two: the y coordinate is minus the cube of the derivative. */
  lemma OrderTwoFormula(p: Prime, a: int, b: int, x: int, y: int)
    requires OnCurve(p, a, b, x, y) && Cong(p, y, 0)
    ensures
      var d := 3 * (x * x) + a;
      Cong(p, FormulaAffine(a, b, x, y, x, y).y, -(d * (d * d))) && Cong(p, Cubic(a, b, x), 0)
  {
    var d, c, yy := 3 * (x * x) + a, Cubic(a, b, x), y * y;
    CongScale(p, y, 0, y);
    CongSym(p, yy, c);
    CongTrans(p, c, yy, 0);
    var w, t := 3 * b + a * (x + x), 3 * b * (x + x) + a * (x * x - a);
    OrderTwoTerms(a, b, x);
    CongScale(p, c, 0, 3);
    CongScale(p, c, 0, 6 * x);
    CongRefl(p, x * d);
    CongRefl(p, d * (2 * (x * x) + a));
    CongAdd(p, 3 * c, 0, x * d, x * d);
    CongAdd(p, 6 * x * c, 0, d * (2 * (x * x) + a), d * (2 * (x * x) + a));
    OrderTwoCombination(p, yy, w, d, t, x, 2 * (x * x) + a);
    assert x * x + (2 * (x * x) + a) == d;
    DoubledY(a, b, x, y);
  }

  /** b eliminated by the curve equation. */
  lemma OrderTwoTerms(a: int, b: int, x: int)
    ensures 3 * b + a * (x + x) == 3 * Cubic(a, b, x) - x * (3 * (x * x) + a)
    ensures 3 * b * (x + x) + a * (x * x - a) == 6 * x * Cubic(a, b, x) - (3 * (x * x) + a) * (2 * (x * x) + a)
  {
    assert x * (3 * (x * x) + a) == 3 * (x * x * x) + a * x;
    QuarticTerms(a, b, x);
  }

  lemma QuarticTerms(a: int, b: int, x: int)
    ensures 3 * b * (x + x) + a * (x * x - a)
      == 6 * x * (x * x * x + a * x + b) - (3 * (x * x) + a) * (2 * (x * x) + a)
  {
    var q := x * x;
    assert 6 * x * (x * x * x + a * x + b) == 6 * (q * q) + 6 * (a * q) + 6 * (x * b);
    assert (3 * q + a) * (2 * q + a) == 6 * (q * q) + 5 * (a * q) + a * a;
    assert a * (q - a) == a * q - a * a;
    assert 3 * b * (x + x) == 6 * (x * b);
  }

  lemma DoubledY(a: int, b: int, x: int, y: int)
    ensures
      var w, d, t := 3 * b + a * (x + x), 3 * (x * x) + a, 3 * b * (x + x) + a * (x * x - a);
      FormulaAffine(a, b, x, y, x, y).y == (y * y - w) * (y * y + w) + d * t
  {
    assert 3 * b * 1 == 3 * b && a * 1 == a;
  }

  lemma OrderTwoCombination(p: Prime, yy: int, w: int, d: int, t: int, x: int, e: int)
    requires Cong(p, yy, 0) && Cong(p, w, 0 - x * d) && Cong(p, t, 0 - d * e)
    ensures Cong(p, (yy - w) * (yy + w) + d * t, -(d * (d * (x * x + e))))
  {
    CongAdd(p, yy, 0, w, 0 - x * d);
    CongMul(p, yy - w, 0 - (0 - x * d), yy + w, 0 + (0 - x * d));
    CongScale(p, t, 0 - d * e, d);
    CongAdd(p, (yy - w) * (yy + w), (0 - (0 - x * d)) * (0 + (0 - x * d)), d * t, d * (0 - d * e));
    OrderTwoSum(x, d, e);
  }

  lemma OrderTwoSum(x: int, d: int, e: int)
    ensures (0 - (0 - x * d)) * (0 + (0 - x * d)) + d * (0 - d * e) == -(d * (d * (x * x + e)))
  {
    assert x * d * (x * d) == d * (d * (x * x));
    assert d * (d * (x * x + e)) == d * (d * (x * x)) + d * (d * e);
  }

  /** A point and a congruent copy of its negative: x and z vanish and y is the tangent's. */
  lemma OppositeProducts(p: Prime, a: int, b: int, g: GroupPoint, h: GroupPoint)
    requires Opposite(p, g, h)
    ensures
      var f := FormulaFor(a, b, Normal(g), Normal(h));
      && Cong(p, f.x, 0) && Cong(p, f.z, 0)
      && Cong(p, f.y, FormulaAffine(a, b, g.x, g.y, g.x, g.y).y)
  {
    var x, y := g.x, g.y;
    CongSym(p, g.x, h.x);
    CongRefl(p, 0);
    CongAdd(p, 0, 0, g.y, -h.y);
    CongSym(p, 0 - g.y, 0 - -h.y);
    AffineCong(p, a, b, x, y, h.x, h.y, x, -y);
    OppositeFormula(a, b, x, y);
    NormalFormula(a, b, x, y, h.x, h.y);
  }

  /** Opposite points of order two: always right on a nonsingular curve. */
  lemma OrderTwoCase(p: Prime, a: int, b: int, g: GroupPoint, h: GroupPoint)
    requires p > 2 && Nonsingular(p, a, b) && IsPoint(p, a, b, g) && IsPoint(p, a, b, h)
    requires Opposite(p, g, h) && HasOrderTwo(p, g)
    ensures Represents(p, FormulaFor(a, b, Normal(g), Normal(h)), Infinity)
    ensures Difference(p, a, b, g, h) == Infinity
  {
    var d, f := 3 * (g.x * g.x) + a, FormulaFor(a, b, Normal(g), Normal(h));
    OppositeProducts(p, a, b, g, h);
    OrderTwoFormula(p, a, b, g.x, g.y);
    assert SmoothAt(p, a, b, g.x);
    ZeroProduct(p, d, d);
    ZeroProduct(p, d, d * d);
    NegatedZero(p, d * (d * d));
    CongTrans(p, f.y, FormulaAffine(a, b, g.x, g.y, g.x, g.y).y, -(d * (d * d)));
    SameZero(p, f.y, -(d * (d * d)));
    InfinityRepresents(p, f);
    OrderTwoIsOwnOpposite(p, g, h);
  }

  lemma OrderTwoIsOwnOpposite(p: Prime, g: GroupPoint, h: GroupPoint)
    requires Opposite(p, g, h) && HasOrderTwo(p, g)
    ensures Opposite(p, g, Opposed(h))
  {
    SameZero(p, g.y, -h.y);
    NegatedZero(p, h.y);
    CongSym(p, h.y, 0);
    CongTrans(p, g.y, 0, h.y);
  }

  lemma OppositeCase(p: Prime, a: int, b: int, g: GroupPoint, h: GroupPoint)
    requires p > 2 && IsPoint(p, a, b, g) && IsPoint(p, a, b, h)
    requires Opposite(p, g, h) && !HasOrderTwo(p, g)
    ensures Represents(p, FormulaFor(a, b, Normal(g), Normal(h)), Infinity)
      <==> !HasOrderTwo(p, Difference(p, a, b, g, h))
  {
    var x, y, f := g.x, g.y, FormulaFor(a, b, Normal(g), Normal(h));
    var t := FormulaAffine(a, b, x, y, x, y);
    NotOwnOpposite(p, g, h);
    OpposedIsPoint(p, a, b, h);
    TwiceNonzero(p, y);
    var l := Slope(p, a, x, y, h.x, -h.y);
    assert Difference(p, a, b, g, h) == Reflected(l, x, y, h.x);
    TangentSum(p, a, b, x, y, l);
    TangentShifts(p, l, x, y, h.x);
    var u, v := Reflected(l, x, y, x).y, Reflected(l, x, y, h.x).y;
    SameZero(p, u, v);
    ZeroProduct(p, u, t.z);
    SameZero(p, t.y, u * t.z);
    OppositeProducts(p, a, b, g, h);
    SameZero(p, f.y, t.y);
    InfinityRepresents(p, f);
  }

  lemma NotOwnOpposite(p: Prime, g: GroupPoint, h: GroupPoint)
    requires p > 2 && Opposite(p, g, h) && !HasOrderTwo(p, g)
    ensures !Opposite(p, g, Opposed(h))
  {
    if Opposite(p, g, Opposed(h)) {
      CongAdd(p, g.y, -h.y, g.y, h.y);
      TwiceZero(p, g.y);
      assert false;
    }
  }

  // ----- main results

  lemma SumOfNormals(p: Prime, a: int, b: int, g: GroupPoint, h: GroupPoint)
    requires p > 2 && Nonsingular(p, a, b) && IsPoint(p, a, b, g) && IsPoint(p, a, b, h)
    ensures Represents(p, FormulaFor(a, b, Normal(g), Normal(h)), Sum(p, a, b, g, h))
      <==> !HasOrderTwo(p, Difference(p, a, b, g, h))
  {
    if g.Infinity? {
      IdentityOperands(p, a, b, h);
      DifferenceFromInfinity(p, a, b, h);
    } else if h.Infinity? {
      IdentityOperands(p, a, b, g);
      DifferenceFromInfinity(p, a, b, g);
    } else if !Cong(p, g.x, h.x) {
      ChordCase(p, a, b, g, h);
    } else if !Opposite(p, g, h) {
      TangentCase(p, a, b, g, h);
    } else if HasOrderTwo(p, g) {
      OrderTwoCase(p, a, b, g, h);
    } else {
      OppositeCase(p, a, b, g, h);
    }
  }

  /** Exactly when the formula adds: for every two points, equal, opposite or at infinity, and every
      choice of representatives. */
  lemma FormulaRepresentsIff(p: Prime, a: int, b: int, lhs: Point, g: GroupPoint, rhs: Point, h: GroupPoint)
    requires p > 2 && Nonsingular(p, a, b) && IsPoint(p, a, b, g) && IsPoint(p, a, b, h)
    requires Represents(p, lhs, g) && Represents(p, rhs, h)
    ensures Represents(p, FormulaFor(a, b, lhs, rhs), Sum(p, a, b, g, h))
      <==> !HasOrderTwo(p, Difference(p, a, b, g, h))
  {
    var c, d := ScaleOf(g, lhs), ScaleOf(h, rhs);
    ScaledOperands(p, a, b, lhs, c, Normal(g), rhs, d, Normal(h));
    SumOfNormals(p, a, b, g, h);
    ZeroProduct(p, c, d);
    ZeroProduct(p, c * d, c * d);
    RepresentsScaled(p, FormulaFor(a, b, lhs, rhs), c * d * (c * d), FormulaFor(a, b, Normal(g), Normal(h)),
                     Sum(p, a, b, g, h));
  }

  lemma AddRepresentsIff(p: Prime, a: int, b: int, lhs: Point, g: GroupPoint, rhs: Point, h: GroupPoint)
    requires p > 2 && Nonsingular(p, a, b) && IsPoint(p, a, b, g) && IsPoint(p, a, b, h)
    requires Represents(p, lhs, g) && Represents(p, rhs, h)
    ensures
      var sum, exact := Sum(p, a, b, g, h), !HasOrderTwo(p, Difference(p, a, b, g, h));
      && (Represents(p, Add(a, b, lhs, rhs), sum) <==> exact)
      && (a == -3 ==> (Represents(p, AddMinusThree(b, lhs, rhs), sum) <==> exact))
      && (a == 0 ==> (Represents(p, AddZero(b, lhs, rhs), sum) <==> exact))
  {
    FormulaRepresentsIff(p, a, b, lhs, g, rhs, h);
    AddIsFormula(a, b, lhs, rhs);
    AddMinusThreeIsFormula(b, lhs, rhs);
    AddZeroIsFormula(b, lhs, rhs);
  }

  /** The smallest failing input: the identity and a point of order two. */
  lemma AddFailsAtOrderTwo(a: int, b: int, x: int)
    ensures Add(a, b, IDENTITY, Point(x, 0, 1)) == Point(0, 0, 0)
  {
    AddIsFormula(a, b, IDENTITY, Point(x, 0, 1));
    assert x * 0 == 0;
  }

  lemma NoPointHasOrderTwo(p: Prime, a: int, b: int, g: GroupPoint)
    requires NoTwoTorsion(p, a, b) && IsPoint(p, a, b, g)
    ensures !HasOrderTwo(p, g) && Nonsingular(p, a, b)
  {
    if g.Finite? {
      YNonzero(p, a, b, g.x, g.y);
    }
  }

  /** On curves without points of order two, so on every curve of odd order, addition is complete. */
  lemma AddIsGroupLaw(p: Prime, a: int, b: int, lhs: Point, g: GroupPoint, rhs: Point, h: GroupPoint)
    requires p > 2 && NoTwoTorsion(p, a, b) && IsPoint(p, a, b, g) && IsPoint(p, a, b, h)
    requires Represents(p, lhs, g) && Represents(p, rhs, h)
    ensures Represents(p, Add(a, b, lhs, rhs), Sum(p, a, b, g, h))
    ensures a == -3 ==> Represents(p, AddMinusThree(b, lhs, rhs), Sum(p, a, b, g, h))
    ensures a == 0 ==> Represents(p, AddZero(b, lhs, rhs), Sum(p, a, b, g, h))
  {
    OpposedIsPoint(p, a, b, h);
    SumIsPoint(p, a, b, g, Opposed(h));
    NoPointHasOrderTwo(p, a, b, Difference(p, a, b, g, h));
    AddRepresentsIff(p, a, b, lhs, g, rhs, h);
  }

  // ----- mixed addition

  function FromAffine(q: AffinePoint): GroupPoint {
    if q.infinity then Infinity else Finite(q.x, q.y)
  }

  function AffineOperand(lhs: Point, rhs: AffinePoint, sum: Point): Point {
    if rhs.infinity then lhs else sum
  }

  /** Mixed addition takes the affine operand with z = 1, and returns lhs when that is the identity. */
  lemma AddMixedIsFormula(a: int, b: int, lhs: Point, rhs: AffinePoint)
    ensures
      var q := Point(rhs.x, rhs.y, 1);
      && AddMixed(a, b, lhs, rhs) == AffineOperand(lhs, rhs, Add(a, b, lhs, q))
      && AddMixedMinusThree(b, lhs, rhs) == AffineOperand(lhs, rhs, AddMinusThree(b, lhs, q))
      && AddMixedZero(b, lhs, rhs) == AffineOperand(lhs, rhs, AddZero(b, lhs, q))
  {
    GenericMixed(a, b, lhs, rhs);
    MinusThreeMixed(b, lhs, rhs);
    ZeroMixed(b, lhs, rhs);
  }

  /** The products that mixed addition computes directly. */
  lemma MixedProducts(lhs: Point, x: int, y: int)
    ensures (lhs.x + lhs.z) * (x + 1) - (lhs.x * x + lhs.z * 1) == x * lhs.z + lhs.x
    ensures (lhs.y + lhs.z) * (y + 1) - (lhs.y * y + lhs.z * 1) == y * lhs.z + lhs.y
    ensures (lhs.x + lhs.y) * (x + y) == (x + y) * (lhs.x + lhs.y)
  {
  }

  lemma GenericMixed(a: int, b: int, lhs: Point, rhs: AffinePoint)
    ensures AddMixed(a, b, lhs, rhs) == AffineOperand(lhs, rhs, Add(a, b, lhs, Point(rhs.x, rhs.y, 1)))
  {
    MixedProducts(lhs, rhs.x, rhs.y);
  }

  /** The addition for a = -3 from its six products. */
  function ClosedMinusThree(b: int, xx: int, yy: int, zz: int, xy: int, yz: int, xz: int): Point {
    var bzz := xz - b * zz;
    var bzz3 := Double(bzz) + bzz;
    var zz3 := Double(zz) + zz;
    var bxz := b * xz - (zz3 + xx);
    var bxz3 := Double(bxz) + bxz;
    var xx3 := Double(xx) + xx - zz3;
    Point((yy + bzz3) * xy - yz * bxz3, (yy + bzz3) * (yy - bzz3) + xx3 * bxz3, (yy - bzz3) * yz + xy * xx3)
  }

  lemma MinusThreeMixed(b: int, lhs: Point, rhs: AffinePoint)
    ensures AddMixedMinusThree(b, lhs, rhs) == AffineOperand(lhs, rhs, AddMinusThree(b, lhs, Point(rhs.x, rhs.y, 1)))
  {
    var q := Point(rhs.x, rhs.y, 1);
    var xx, yy, zz := lhs.x * q.x, lhs.y * q.y, lhs.z * q.z;
    var xy := (lhs.x + lhs.y) * (q.x + q.y) - (xx + yy);
    var yz, xz := (lhs.y + lhs.z) * (q.y + q.z) - (yy + zz), (lhs.x + lhs.z) * (q.x + q.z) - (xx + zz);
    MixedProducts(lhs, rhs.x, rhs.y);
    assert AddMinusThree(b, lhs, q) == ClosedMinusThree(b, xx, yy, zz, xy, yz, xz);
    assert zz == lhs.z && yz == rhs.y * lhs.z + lhs.y && xz == rhs.x * lhs.z + lhs.x;
    assert !rhs.infinity ==>
      AddMixedMinusThree(b, lhs, rhs) == ClosedMinusThree(b, xx, yy, lhs.z, xy, rhs.y * lhs.z + lhs.y,
                                                          rhs.x * lhs.z + lhs.x);
  }

  lemma ZeroMixed(b: int, lhs: Point, rhs: AffinePoint)
    ensures AddMixedZero(b, lhs, rhs) == AffineOperand(lhs, rhs, AddZero(b, lhs, Point(rhs.x, rhs.y, 1)))
  {
    MixedProducts(lhs, rhs.x, rhs.y);
  }

  /** A mixed operand at infinity never fails; any other behaves as in addition. */
  lemma AddMixedRepresentsIff(p: Prime, a: int, b: int, lhs: Point, g: GroupPoint, rhs: AffinePoint)
    requires p > 2 && Nonsingular(p, a, b) && IsPoint(p, a, b, g) && IsPoint(p, a, b, FromAffine(rhs))
    requires Represents(p, lhs, g)
    ensures
      var h := FromAffine(rhs);
      var sum, exact := Sum(p, a, b, g, h), rhs.infinity || !HasOrderTwo(p, Difference(p, a, b, g, h));
      && (Represents(p, AddMixed(a, b, lhs, rhs), sum) <==> exact)
      && (a == -3 ==> (Represents(p, AddMixedMinusThree(b, lhs, rhs), sum) <==> exact))
      && (a == 0 ==> (Represents(p, AddMixedZero(b, lhs, rhs), sum) <==> exact))
  {
    AddMixedIsFormula(a, b, lhs, rhs);
    AddMixedIsFormula(-3, b, lhs, rhs);
    AddMixedIsFormula(0, b, lhs, rhs);
    if !rhs.infinity {
      NormalRepresents(p, rhs.x, rhs.y);
      AddRepresentsIff(p, a, b, lhs, g, Point(rhs.x, rhs.y, 1), FromAffine(rhs));
    }
  }

  lemma NormalRepresents(p: Prime, x: int, y: int)
    ensures Represents(p, Point(x, y, 1), Finite(x, y))
  {
    DistinctResidues(p, 1, 0);
    CongRefl(p, x);
    CongRefl(p, y);
    CongRefl(p, 1);
  }

  lemma AddMixedIsGroupLaw(p: Prime, a: int, b: int, lhs: Point, g: GroupPoint, rhs: AffinePoint)
    requires p > 2 && NoTwoTorsion(p, a, b) && IsPoint(p, a, b, g) && IsPoint(p, a, b, FromAffine(rhs))
    requires Represents(p, lhs, g)
    ensures
      var sum := Sum(p, a, b, g, FromAffine(rhs));
      && Represents(p, AddMixed(a, b, lhs, rhs), sum)
      && (a == -3 ==> Represents(p, AddMixedMinusThree(b, lhs, rhs), sum))
      && (a == 0 ==> Represents(p, AddMixedZero(b, lhs, rhs), sum))
  {
    var h := FromAffine(rhs);
    OpposedIsPoint(p, a, b, h);
    SumIsPoint(p, a, b, g, Opposed(h));
    NoPointHasOrderTwo(p, a, b, Difference(p, a, b, g, h));
    AddMixedRepresentsIff(p, a, b, lhs, g, rhs);
  }
}
