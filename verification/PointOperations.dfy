/** Equality, negation, subtraction and affine coordinates of projective points. */
module PointOperations {
  import opened PrimeField
  import opened PointArithmetic
  import opened GroupLaw
  import opened CompleteAddition
  import opened Doubling

  predicate CtEq(p: Prime, lhs: Point, rhs: Point) {
    Cong(p, lhs.x * rhs.z, rhs.x * lhs.z) && Cong(p, lhs.y * rhs.z, rhs.y * lhs.z)
  }

  /** The cross-multiplied comparison decides equality of the represented points. */
  lemma CtEqDecides(p: Prime, lhs: Point, g: GroupPoint, rhs: Point, h: GroupPoint)
    requires Represents(p, lhs, g) && Represents(p, rhs, h)
    ensures CtEq(p, lhs, rhs) <==> SamePoint(p, g, h)
  {
    var c, d, n, m := ScaleOf(g, lhs), ScaleOf(h, rhs), Normal(g), Normal(h);
    ScaledProduct(p, lhs.x, c, n.x, rhs.z, d, m.z);
    ScaledProduct(p, rhs.x, d, m.x, lhs.z, c, n.z);
    ScaledProduct(p, lhs.y, c, n.y, rhs.z, d, m.z);
    ScaledProduct(p, rhs.y, d, m.y, lhs.z, c, n.z);
    if Cong(p, c * d, 0) {
      NoZeroDivisors(p, c, d);
      assert false;
    }
    CongruentProducts(p, lhs.x * rhs.z, rhs.x * lhs.z, c * d, n.x * m.z, m.x * n.z);
    CongruentProducts(p, lhs.y * rhs.z, rhs.y * lhs.z, c * d, n.y * m.z, m.y * n.z);
    CongRefl(p, 0);
    DistinctResidues(p, 1, 0);
    DistinctResidues(p, 0, 1);
  }

  lemma CongruentProducts(p: Prime, u: int, v: int, k: int, u': int, v': int)
    requires Cong(p, u, k * u') && Cong(p, v, k * v') && !Cong(p, k, 0)
    ensures Cong(p, u, v) <==> Cong(p, u', v')
  {
    CongSym(p, v, k * v');
    if Cong(p, u, v) {
      CongSym(p, u, k * u');
      CongTrans(p, k * u', u, v);
      CongTrans(p, k * u', v, k * v');
      Cancel(p, k, u', v');
    }
    if Cong(p, u', v') {
      CongScale(p, u', v', k);
      CongTrans(p, u, k * u', k * v');
      CongTrans(p, u, k * v', v);
    }
  }

  function Negate(q: Point): Point {
    Point(q.x, -q.y, q.z)
  }

  function Subtract(a: int, b: int, lhs: Point, rhs: Point): Point {
    Add(a, b, lhs, Negate(rhs))
  }

  lemma NegateRepresents(p: Prime, q: Point, g: GroupPoint)
    requires Represents(p, q, g)
    ensures Represents(p, Negate(q), Opposed(g))
  {
    var c := ScaleOf(g, q);
    CongRefl(p, 0);
    CongAdd(p, 0, 0, q.y, c * Normal(g).y);
    if g.Infinity? {
      assert -q.y * 1 == -q.y && -q.y * 0 == 0;
      CongRefl(p, -q.y);
      if Cong(p, -q.y, 0) {
        CongAdd(p, 0, 0, -q.y, 0);
        assert false;
      }
    } else {
      assert c * -g.y == -(c * g.y);
    }
  }

  /** Subtraction is exact unless the sum of the points has order two. */
  lemma SubtractRepresentsIff(p: Prime, a: int, b: int, lhs: Point, g: GroupPoint, rhs: Point, h: GroupPoint)
    requires p > 2 && Nonsingular(p, a, b) && IsPoint(p, a, b, g) && IsPoint(p, a, b, h)
    requires Represents(p, lhs, g) && Represents(p, rhs, h)
    ensures Represents(p, Subtract(a, b, lhs, rhs), Difference(p, a, b, g, h)) <==> !HasOrderTwo(p, Sum(p, a, b, g, h))
  {
    NegateRepresents(p, rhs, h);
    OpposedIsPoint(p, a, b, h);
    AddRepresentsIff(p, a, b, lhs, g, Negate(rhs), Opposed(h));
  }

  /** A point minus itself is the identity, whichever representatives are subtracted. */
  lemma SubtractSelf(p: Prime, a: int, b: int, lhs: Point, rhs: Point, g: GroupPoint)
    requires p > 2 && NoTwoTorsion(p, a, b) && IsPoint(p, a, b, g) && Represents(p, lhs, g) && Represents(p, rhs, g)
    ensures Represents(p, Subtract(a, b, lhs, rhs), Infinity) && CtEq(p, Subtract(a, b, lhs, rhs), IDENTITY)
  {
    SumIsPoint(p, a, b, g, g);
    NoPointHasOrderTwo(p, a, b, Sum(p, a, b, g, g));
    SubtractRepresentsIff(p, a, b, lhs, g, rhs, g);
    OwnDifference(p, a, b, g);
    DistinctResidues(p, 1, 0);
    CongRefl(p, 0);
    CongRefl(p, 1);
    CtEqDecides(p, Subtract(a, b, lhs, rhs), Infinity, IDENTITY, Infinity);
  }

  function ToAffine(p: Prime, q: Point): AffinePoint {
    if Cong(p, q.z, 0) then AffinePoint(0, 0, true)
    else AffinePoint(q.x * Inv(p, q.z), q.y * Inv(p, q.z), false)
  }

  /** Affine coordinates are the point's own, whichever representative they come from. */
  lemma ToAffineRecovers(p: Prime, q: Point, g: GroupPoint)
    requires Represents(p, q, g)
    ensures SamePoint(p, FromAffine(ToAffine(p, q)), g)
  {
    if g.Finite? {
      assert Cong(p, q.z, q.z * 1);
      DivideOut(p, q.x, q.z, g.x);
      DivideOut(p, q.y, q.z, g.y);
    } else {
      assert Cong(p, q.z, q.y * 0);
    }
  }

  lemma DivideOut(p: Prime, x: int, z: int, u: int)
    requires !Cong(p, z, 0) && Cong(p, x, z * u)
    ensures Cong(p, x * Inv(p, z), u)
  {
    var i := Inv(p, z);
    CongScale(p, x, z * u, i);
    CongScale(p, z * i, 1, u);
    assert z * u * i == z * i * u;
    CongTrans(p, x * i, z * i * u, u);
  }
}
