/** Shplonk batching of opening claims, and the KZG quotient of the batch.

    A claim says that a polynomial takes a value at a point.  Round j carries two claims: one about
    plus[j] at points[j], one about minus[j] at -points[j]. */
module Shplonk {
  import opened PrimeField
  import opened Sums
  import opened Polynomials

  /** pos[j] and neg[j] invert z - points[j] and z + points[j]. */
  ghost predicate Inverts(p: Prime, z: int, points: seq<int>, pos: seq<int>, neg: seq<int>) {
    |pos| == |neg| == |points|
    && forall j :: 0 <= j < |points| ==> Cong(p, (z - points[j]) * pos[j], 1) && Cong(p, (z + points[j]) * neg[j], 1)
  }

  function PositiveWeight(nu: int, pos: seq<int>, j: nat): int
    requires j < |pos|
  {
    Pow(nu * nu, j) * pos[j]
  }

  function NegativeWeight(nu: int, neg: seq<int>, j: nat): int
    requires j < |neg|
  {
    Pow(nu * nu, j) * nu * neg[j]
  }

  /** The batched quotient: nu^(2j) and nu^(2j+1) times the quotients of the two claims of round j. */
  function BatchedQuotient(nu: int, points: seq<int>, plus: seq<seq<int>>, minus: seq<seq<int>>, n: nat): seq<int>
    requires n <= |points| == |plus| == |minus|
  {
    if n == 0 then []
    else
      var j := n - 1;
      Add(BatchedQuotient(nu, points, plus, minus, j),
          Add(Scale(Pow(nu * nu, j), Quotient(plus[j], points[j])),
              Scale(Pow(nu * nu, j) * nu, Quotient(minus[j], -points[j]))))
  }

  /** The polynomials weighted as the verifier weights their commitments. */
  function WeightedPolys(nu: int, pos: seq<int>, neg: seq<int>, plus: seq<seq<int>>, minus: seq<seq<int>>,
                         n: nat): seq<int>
    requires n <= |pos| == |neg| == |plus| == |minus|
  {
    if n == 0 then []
    else
      var j := n - 1;
      Add(WeightedPolys(nu, pos, neg, plus, minus, j),
          Add(Scale(PositiveWeight(nu, pos, j), plus[j]), Scale(NegativeWeight(nu, neg, j), minus[j])))
  }

  lemma WeightedPolysStep(nu: int, pos: seq<int>, neg: seq<int>, plus: seq<seq<int>>, minus: seq<seq<int>>, j: nat,
                          x: int)
    requires j < |pos| == |neg| == |plus| == |minus|
    ensures Eval(WeightedPolys(nu, pos, neg, plus, minus, j + 1), x)
            == Eval(WeightedPolys(nu, pos, neg, plus, minus, j), x)
      + PositiveWeight(nu, pos, j) * Eval(plus[j], x) + NegativeWeight(nu, neg, j) * Eval(minus[j], x)
  {
    var wp, wm := PositiveWeight(nu, pos, j), NegativeWeight(nu, neg, j);
    EvalScale(wp, plus[j], x);
    EvalScale(wm, minus[j], x);
    EvalAdd(Scale(wp, plus[j]), Scale(wm, minus[j]), x);
    EvalAdd(WeightedPolys(nu, pos, neg, plus, minus, j), Add(Scale(wp, plus[j]), Scale(wm, minus[j])), x);
  }

  /** Where both polynomials of the later rounds coincide, those rounds make a dot product. */
  lemma {:induction false} WeightedFolds(nu: int, pos: seq<int>, neg: seq<int>, plus: seq<seq<int>>,
                                         minus: seq<seq<int>>, scalars: seq<int>, values: seq<int>, x: int, n: nat)
    requires 0 < n <= |pos| == |neg| == |plus| == |minus| && n - 1 <= |scalars| && n - 1 <= |values|
    requires forall j :: 0 < j < n ==> plus[j] == minus[j] && values[j - 1] == Eval(plus[j], x)
    requires forall j :: 0 < j < n ==> scalars[j - 1] == -(PositiveWeight(nu, pos, j) + NegativeWeight(nu, neg, j))
    ensures Eval(WeightedPolys(nu, pos, neg, plus, minus, n), x)
      == Eval(WeightedPolys(nu, pos, neg, plus, minus, 1), x) - Dot(scalars, values, n - 1)
  {
    if n > 1 {
      var j := n - 1;
      WeightedFolds(nu, pos, neg, plus, minus, scalars, values, x, j);
      WeightedPolysStep(nu, pos, neg, plus, minus, j, x);
      NegatedSum(PositiveWeight(nu, pos, j), NegativeWeight(nu, neg, j), Eval(plus[j], x),
                 scalars[j - 1] * values[j - 1], scalars[j - 1]);
    }
  }

  lemma NegatedSum(a: int, b: int, v: int, product: int, s: int)
    requires s == -(a + b) && product == s * v
    ensures a * v + b * v == -product
  {
    assert -(a + b) * v == -(a * v + b * v);
  }

  /** The verifier's constant term: the claimed values under the same weights. */
  function ConstantTerm(nu: int, pos: seq<int>, neg: seq<int>, posValues: seq<int>, negValues: seq<int>, n: nat): int
    requires n <= |pos| == |neg| && n <= |posValues| && n <= |negValues|
  {
    if n == 0 then 0
    else
      var j := n - 1;
      ConstantTerm(nu, pos, neg, posValues, negValues, j)
      + (negValues[j] * NegativeWeight(nu, neg, j) + posValues[j] * PositiveWeight(nu, pos, j))
  }

  ghost predicate ClaimsHold(p: Prime, points: seq<int>, plus: seq<seq<int>>, minus: seq<seq<int>>, posValues: seq<int>,
                             negValues: seq<int>)
    requires |points| == |plus| == |minus| && |points| <= |posValues| && |points| <= |negValues|
  {
    forall j :: 0 <= j < |points| ==> ClaimHolds(p, points[j], plus[j], minus[j], posValues[j], negValues[j])
  }

  ghost predicate ClaimHolds(p: Prime, r: int, plus: seq<int>, minus: seq<int>, pv: int, nv: int) {
    IsValueAt(p, pv, plus, r) && IsValueAt(p, nv, minus, -r)
  }

  ghost predicate IsValueAt(p: Prime, value: int, f: seq<int>, x: int) {
    Cong(p, value, Eval(f, x))
  }

  lemma WeighedDifference(c: int, q: int, d: int, inv: int, fz: int, fa: int)
    requires q * d == fz - fa
    ensures c * q * (d * inv) == c * inv * fz - c * inv * fa
  {
    calc {
      c * q * (d * inv);
      c * inv * (q * d);
      c * inv * (fz - fa);
      c * inv * fz - c * inv * fa;
    }
  }

  /** With scaled quotient x and weight w: x is w * (fz - fa), and the value is fa. */
  lemma ResidueVanishes(p: Prime, x: int, w: int, fz: int, fa: int, value: int)
    requires Cong(p, w * fz - w * fa, x) && Cong(p, value, fa)
    ensures Cong(p, x - w * fz + value * w, 0)
  {
    CongSym(p, w * fz - w * fa, x);
    CongScale(p, value, fa, w);
    CongRefl(p, w * fz);
    CongAdd(p, x, w * fz - w * fa, w * fz, w * fz);
    CongAdd(p, x - w * fz, w * fz - w * fa - w * fz, value * w, fa * w);
    assert w * fa == fa * w;
  }

  /** One claim: its scaled quotient at z is its weight times the difference of the values. */
  lemma ClaimVanishes(p: Prime, f: seq<int>, a: int, z: int, value: int, c: int, inv: int)
    requires Cong(p, value, Eval(f, a)) && Cong(p, (z - a) * inv, 1)
    ensures Cong(p, c * Eval(Quotient(f, a), z) - c * inv * Eval(f, z) + value * (c * inv), 0)
  {
    var x := c * Eval(Quotient(f, a), z);
    EvalQuotient(f, a, z);
    WeighedDifference(c, Eval(Quotient(f, a), z), z - a, inv, Eval(f, z), Eval(f, a));
    CongScale(p, (z - a) * inv, 1, x);
    ResidueVanishes(p, x, c * inv, Eval(f, z), Eval(f, a), value);
  }

  /** What is left at z after n rounds: quotient - weighted polynomials + constant. */
  function Residue(z: int, nu: int, points: seq<int>, pos: seq<int>, neg: seq<int>, plus: seq<seq<int>>,
                   minus: seq<seq<int>>, posValues: seq<int>, negValues: seq<int>, n: nat): int
    requires n <= |points| == |plus| == |minus| == |pos| == |neg|
    requires |points| <= |posValues| && |points| <= |negValues|
  {
    Eval(BatchedQuotient(nu, points, plus, minus, n), z) - Eval(WeightedPolys(nu, pos, neg, plus, minus, n), z)
    + ConstantTerm(nu, pos, neg, posValues, negValues, n)
  }

  lemma ResidueStep(z: int, nu: int, points: seq<int>, pos: seq<int>, neg: seq<int>, plus: seq<seq<int>>,
                    minus: seq<seq<int>>, posValues: seq<int>, negValues: seq<int>, j: nat)
    requires j < |points| == |plus| == |minus| == |pos| == |neg|
    requires |points| <= |posValues| && |points| <= |negValues|
    ensures Residue(z, nu, points, pos, neg, plus, minus, posValues, negValues, j + 1)
         == Residue(z, nu, points, pos, neg, plus, minus, posValues, negValues, j)
            + RoundResidue(nu, points[j], pos, neg, plus[j], minus[j], posValues[j], negValues[j], j, z)
  {
    BatchedQuotientStep(nu, points, plus, minus, j, z);
    WeightedPolysStep(nu, pos, neg, plus, minus, j, z);
  }

  /** When all claims are true, quotient - weighted polynomials + constant vanishes at z. */
  lemma {:induction false} TrueClaimsVanish(p: Prime, z: int, nu: int, points: seq<int>, pos: seq<int>, neg: seq<int>,
                                            plus: seq<seq<int>>, minus: seq<seq<int>>, posValues: seq<int>,
                                            negValues: seq<int>, n: nat)
    requires n <= |points| == |plus| == |minus| && |points| <= |posValues| && |points| <= |negValues|
    requires Inverts(p, z, points, pos, neg)
    requires ClaimsHold(p, points, plus, minus, posValues, negValues)
    ensures Cong(p, Residue(z, nu, points, pos, neg, plus, minus, posValues, negValues, n), 0)
  {
    if n == 0 {
      CongRefl(p, 0);
    } else {
      var j := n - 1;
      assert ClaimHolds(p, points[j], plus[j], minus[j], posValues[j], negValues[j]);
      TrueClaimsVanish(p, z, nu, points, pos, neg, plus, minus, posValues, negValues, j);
      ResidueStep(z, nu, points, pos, neg, plus, minus, posValues, negValues, j);
      RoundVanishes(p, z, nu, points[j], pos, neg, plus[j], minus[j], posValues[j], negValues[j], j);
      CongAdd(p, Residue(z, nu, points, pos, neg, plus, minus, posValues, negValues, j), 0,
              RoundResidue(nu, points[j], pos, neg, plus[j], minus[j], posValues[j], negValues[j], j, z), 0);
    }
  }

  lemma BatchedQuotientStep(nu: int, points: seq<int>, plus: seq<seq<int>>, minus: seq<seq<int>>, j: nat, x: int)
    requires j < |points| == |plus| == |minus|
    ensures Eval(BatchedQuotient(nu, points, plus, minus, j + 1), x)
            == Eval(BatchedQuotient(nu, points, plus, minus, j), x)
      + Pow(nu * nu, j) * Eval(Quotient(plus[j], points[j]), x)
          + Pow(nu * nu, j) * nu * Eval(Quotient(minus[j], -points[j]), x)
  {
    var v, qp, qm := Pow(nu * nu, j), Quotient(plus[j], points[j]), Quotient(minus[j], -points[j]);
    EvalScale(v, qp, x);
    EvalScale(v * nu, qm, x);
    EvalAdd(Scale(v, qp), Scale(v * nu, qm), x);
    EvalAdd(BatchedQuotient(nu, points, plus, minus, j), Add(Scale(v, qp), Scale(v * nu, qm)), x);
  }

  /** What one round adds to quotient - weighted polynomials + constant. */
  function RoundResidue(nu: int, r: int, pos: seq<int>, neg: seq<int>, plus: seq<int>, minus: seq<int>, pv: int,
                        nv: int, j: nat, z: int): int
    requires j < |pos| == |neg|
  {
    Pow(nu * nu, j) * Eval(Quotient(plus, r), z) - PositiveWeight(nu, pos, j) * Eval(plus, z)
        + pv * PositiveWeight(nu, pos, j)
    + (Pow(nu * nu, j) * nu * Eval(Quotient(minus, -r), z) - NegativeWeight(nu, neg, j) * Eval(minus, z)
       + nv * NegativeWeight(nu, neg, j))
  }

  lemma RoundVanishes(p: Prime, z: int, nu: int, r: int, pos: seq<int>, neg: seq<int>, plus: seq<int>, minus: seq<int>,
                      pv: int, nv: int, j: nat)
    requires j < |pos| == |neg|
    requires Cong(p, pv, Eval(plus, r)) && Cong(p, nv, Eval(minus, -r))
    requires Cong(p, (z - r) * pos[j], 1) && Cong(p, (z + r) * neg[j], 1)
    ensures Cong(p, RoundResidue(nu, r, pos, neg, plus, minus, pv, nv, j, z), 0)
  {
    var v := Pow(nu * nu, j);
    assert z - -r == z + r;
    ClaimVanishes(p, plus, r, z, pv, v, pos[j]);
    ClaimVanishes(p, minus, -r, z, nv, v * nu, neg[j]);
    CongAdd(p, v * Eval(Quotient(plus, r), z) - v * pos[j] * Eval(plus, z) + pv * (v * pos[j]), 0,
            v * nu * Eval(Quotient(minus, -r), z) - v * nu * neg[j] * Eval(minus, z) + nv * (v * nu * neg[j]), 0);
  }

  /** The batch whose vanishing at z the KZG quotient proves. */
  function BatchedClaim(nu: int, points: seq<int>, pos: seq<int>, neg: seq<int>, plus: seq<seq<int>>,
                        minus: seq<seq<int>>, constant: int): seq<int>
    requires |points| == |pos| == |neg| == |plus| == |minus|
  {
    Add(BatchedQuotient(nu, points, plus, minus, |points|),
        Add(Scale(-1, WeightedPolys(nu, pos, neg, plus, minus, |points|)), [constant]))
  }

  lemma EvalDifference(q: seq<int>, w: seq<int>, constant: int, x: int)
    ensures Eval(Add(q, Add(Scale(-1, w), [constant])), x) == Eval(q, x) - Eval(w, x) + constant
  {
    EvalScale(-1, w, x);
    EvalAdd(Scale(-1, w), [constant], x);
    assert [constant][1..] == [] && x * 0 == 0;
    assert Eval([constant], x) == constant;
    EvalAdd(q, Add(Scale(-1, w), [constant]), x);
  }

  lemma EvalBatchedClaim(nu: int, points: seq<int>, pos: seq<int>, neg: seq<int>, plus: seq<seq<int>>,
                         minus: seq<seq<int>>, constant: int, x: int)
    requires |points| == |pos| == |neg| == |plus| == |minus|
    ensures Eval(BatchedClaim(nu, points, pos, neg, plus, minus, constant), x)
      == Eval(BatchedQuotient(nu, points, plus, minus, |points|), x)
          - Eval(WeightedPolys(nu, pos, neg, plus, minus, |points|), x) + constant
  {
    EvalDifference(BatchedQuotient(nu, points, plus, minus, |points|),
                   WeightedPolys(nu, pos, neg, plus, minus, |points|), constant, x);
  }

  lemma TrueBatchVanishes(p: Prime, z: int, nu: int, points: seq<int>, pos: seq<int>, neg: seq<int>,
                          plus: seq<seq<int>>, minus: seq<seq<int>>, posValues: seq<int>, negValues: seq<int>,
                          constant: int)
    requires |points| == |plus| == |minus| && |points| <= |posValues| && |points| <= |negValues|
    requires Inverts(p, z, points, pos, neg)
    requires ClaimsHold(p, points, plus, minus, posValues, negValues)
    requires constant == ConstantTerm(nu, pos, neg, posValues, negValues, |points|)
    ensures Cong(p, Eval(BatchedClaim(nu, points, pos, neg, plus, minus, constant), z), 0)
  {
    TrueClaimsVanish(p, z, nu, points, pos, neg, plus, minus, posValues, negValues, |points|);
    EvalBatchedClaim(nu, points, pos, neg, plus, minus, constant, z);
    SameResidue(p, Residue(z, nu, points, pos, neg, plus, minus, posValues, negValues, |points|),
                Eval(BatchedClaim(nu, points, pos, neg, plus, minus, constant), z));
  }

  lemma SameResidue(p: Prime, x: int, y: int)
    requires Cong(p, x, 0) && x == y
    ensures Cong(p, y, 0)
  {
  }

  /** A polynomial that vanishes at z and its quotient by X - z meet the pairing equation at every tau. */
  lemma TrueQuotientPairs(p: Prime, f: seq<int>, z: int, tau: int)
    requires Cong(p, Eval(f, z), 0)
    ensures Cong(p, Eval(f, tau) + z * Eval(Quotient(f, z), tau), tau * Eval(Quotient(f, z), tau))
  {
    EvalQuotient(f, z, tau);
    var w := Eval(Quotient(f, z), tau);
    assert w * (tau - z) == tau * w - z * w;
    CongRefl(p, tau * w);
    CongAdd(p, tau * w, tau * w, Eval(f, z), 0);
  }
}
