/** The verdict does not depend on which representatives of the inverses are used, and on an honest
    opening it is decided by the denominators alone. */
module ShpleminiVerdict {
  import opened PrimeField
  import opened Sums
  import opened ProofShape
  import opened BatchInversion
  import opened Shplonk
  import opened Shplemini
  import opened ShpleminiCompleteness
  import opened ShpleminiOpening
  import opened Results

  ghost predicate Congruent(p: Prime, a: seq<int>, b: seq<int>) {
    |a| == |b| && forall i :: 0 <= i < |a| ==> CongruentAt(p, a, b, i)
  }

  ghost predicate CongruentAt(p: Prime, a: seq<int>, b: seq<int>, i: nat)
    requires i < |a| == |b|
  {
    Cong(p, a[i], b[i])
  }

  /** Inverses are unique modulo p. */
  lemma InversesAreUnique(p: Prime, vals: seq<int>, inv: seq<int>, inv': seq<int>)
    requires AreInverses(p, vals, inv) && AreInverses(p, vals, inv')
    ensures Congruent(p, inv, inv')
  {
    forall i | 0 <= i < |inv| ensures CongruentAt(p, inv, inv', i) {
      assert InverseAt(p, vals, inv, i) && InverseAt(p, vals, inv', i);
      var v, a, b := vals[i], inv[i], inv'[i];
      CongSym(p, v * b, 1);
      CongTrans(p, v * a, 1, v * b);
      assert a * v == v * a;
      InverseIsNonzero(p, a, v);
      Cancel(p, v, a, b);
    }
  }

  lemma MergedScalarCong(p: Prime, rho: int, u: int, u': int, s: int, s': int, i: nat)
    requires Cong(p, u, u') && Cong(p, s, s')
    ensures Cong(p, MergedScalar(rho, u, s, i), MergedScalar(rho, u', s', i))
  {
    CongRefl(p, 0);
    CongAdd(p, 0, 0, u, u');
    CongAdd(p, 0, 0, s, s');
    CongScale(p, -u, -u', Pow(rho, i));
    CongScale(p, -s, -s', Pow(rho, i + 8));
    CongAdd(p, -u * Pow(rho, i), -u' * Pow(rho, i), -s * Pow(rho, i + 8), -s' * Pow(rho, i + 8));
    CongAdd(p, -u * Pow(rho, i), -u' * Pow(rho, i), 0, 0);
  }

  lemma WeightsCong(p: Prime, nu: int, a: int, a': int, b: int, b': int, i: int, i': int)
    requires Cong(p, a, a') && Cong(p, b, b') && Cong(p, i, i')
    ensures Cong(p, nu * b + a, nu * b' + a')
    ensures Cong(p, i * (a - nu * b), i' * (a' - nu * b'))
  {
    CongScale(p, b, b', nu);
    CongAdd(p, nu * b, nu * b', a, a');
    CongAdd(p, a, a', nu * b, nu * b');
    CongMul(p, i, i', a - nu * b, a' - nu * b');
  }

  lemma RoundWeightsCong(p: Prime, nu: int, pos: seq<int>, pos': seq<int>, neg: seq<int>, neg': seq<int>, j: nat)
    requires |pos| == |pos'| == |neg| == |neg'| && j < |pos|
    requires Cong(p, pos[j], pos'[j]) && Cong(p, neg[j], neg'[j])
    ensures Cong(p, PositiveWeight(nu, pos, j), PositiveWeight(nu, pos', j))
    ensures Cong(p, NegativeWeight(nu, neg, j), NegativeWeight(nu, neg', j))
    ensures Cong(p, -(PositiveWeight(nu, pos, j) + NegativeWeight(nu, neg, j)),
                 -(PositiveWeight(nu, pos', j) + NegativeWeight(nu, neg', j)))
  {
    var wp, wp', wn, wn' := PositiveWeight(nu, pos, j), PositiveWeight(nu, pos', j), NegativeWeight(nu, neg, j),
        NegativeWeight(nu, neg', j);
    CongScale(p, pos[j], pos'[j], Pow(nu * nu, j));
    CongScale(p, neg[j], neg'[j], Pow(nu * nu, j) * nu);
    CongAdd(p, wp, wp', wn, wn');
    CongRefl(p, 0);
    CongAdd(p, 0, 0, wp + wn, wp' + wn');
  }

  lemma {:induction false} ConstantCong(p: Prime, nu: int, pos: seq<int>, pos': seq<int>, neg: seq<int>, neg': seq<int>,
                                        a: seq<int>, a': seq<int>, negValues: seq<int>, n: nat)
    requires n <= |pos| == |pos'| == |neg| == |neg'| && n <= |a| == |a'| && n <= |negValues|
    requires Congruent(p, pos, pos') && Congruent(p, neg, neg') && Congruent(p, a, a')
    ensures Cong(p, ConstantTerm(nu, pos, neg, a, negValues, n), ConstantTerm(nu, pos', neg', a', negValues, n))
  {
    if n == 0 {
      CongRefl(p, 0);
    } else {
      var j := n - 1;
      ConstantCong(p, nu, pos, pos', neg, neg', a, a', negValues, j);
      assert CongruentAt(p, pos, pos', j) && CongruentAt(p, neg, neg', j) && CongruentAt(p, a, a', j);
      RoundWeightsCong(p, nu, pos, pos', neg, neg', j);
      CongScale(p, NegativeWeight(nu, neg, j), NegativeWeight(nu, neg', j), negValues[j]);
      CongMul(p, a[j], a'[j], PositiveWeight(nu, pos, j), PositiveWeight(nu, pos', j));
      CongAdd(p, negValues[j] * NegativeWeight(nu, neg, j), negValues[j] * NegativeWeight(nu, neg', j),
              a[j] * PositiveWeight(nu, pos, j), a'[j] * PositiveWeight(nu, pos', j));
      CongAdd(p, ConstantTerm(nu, pos, neg, a, negValues, j), ConstantTerm(nu, pos', neg', a', negValues, j),
              negValues[j] * NegativeWeight(nu, neg, j) + a[j] * PositiveWeight(nu, pos, j),
              negValues[j] * NegativeWeight(nu, neg', j) + a'[j] * PositiveWeight(nu, pos', j));
    }
  }

  lemma FoldStepCong(p: Prime, r: int, u: int, cur: int, cur': int, neg: int, inv: int, inv': int)
    requires Cong(p, cur, cur') && Cong(p, inv, inv')
    ensures Cong(p, FoldStep(r, u, cur, neg, inv), FoldStep(r, u, cur', neg, inv'))
  {
    var e := neg * (r * (1 - u) - u);
    CongScale(p, cur, cur', r);
    CongScale(p, r * cur, r * cur', 2);
    CongRefl(p, e);
    CongAdd(p, r * cur * 2, r * cur' * 2, e, e);
    CongMul(p, r * cur * 2 - e, r * cur' * 2 - e, inv, inv');
  }

  lemma {:induction false} FoldValueCong(p: Prime, logN: nat, ch: Challenges, rs: seq<int>, aEvaluations: seq<int>,
                                         inv: seq<int>, inv': seq<int>, acc: int, j: nat)
    requires 0 < logN <= |ch.us| && logN <= |rs| && logN <= |aEvaluations| && |inv| == |inv'| == BatchSize(logN)
             && j <= logN
    requires Congruent(p, inv, inv')
    ensures Cong(p, FoldValue(logN, ch, rs, aEvaluations, inv, acc, j),
                 FoldValue(logN, ch, rs, aEvaluations, inv', acc, j))
    decreases logN - j
  {
    if j == logN {
      CongRefl(p, acc);
    } else {
      FoldValueCong(p, logN, ch, rs, aEvaluations, inv, inv', acc, j + 1);
      assert CongruentAt(p, inv, inv', FoldIndex(logN, j));
      FoldStepCong(p, rs[j], ch.us[j], FoldValue(logN, ch, rs, aEvaluations, inv, acc, j + 1),
                   FoldValue(logN, ch, rs, aEvaluations, inv', acc, j + 1), aEvaluations[j], inv[FoldIndex(logN, j)],
                   inv'[FoldIndex(logN, j)]);
    }
  }

  lemma PairsCong(p: Prime, logN: nat, inv: seq<int>, inv': seq<int>)
    requires 0 < logN && |inv| == |inv'| == BatchSize(logN) && Congruent(p, inv, inv')
    ensures Congruent(p, PosInverses(logN, inv), PosInverses(logN, inv'))
    ensures Congruent(p, NegInverses(logN, inv), NegInverses(logN, inv'))
  {
    forall j | 0 <= j < logN
      ensures CongruentAt(p, PosInverses(logN, inv), PosInverses(logN, inv'), j)
      ensures CongruentAt(p, NegInverses(logN, inv), NegInverses(logN, inv'), j)
    {
      assert CongruentAt(p, inv, inv', PairIndex(logN, j)) && CongruentAt(p, inv, inv', PairIndex(logN, j) + 1);
    }
  }

  lemma OpeningConstantCong(p: Prime, logN: nat, ch: Challenges, proof: Proof, inv: seq<int>, inv': seq<int>)
    requires 0 < logN <= CONST_PROOF_SIZE_LOG_N && ch.Valid() && proof.Valid() && |inv| == |inv'| == BatchSize(logN)
    requires Congruent(p, inv, inv')
    ensures Cong(p, OpeningConstant(logN, ch, proof, inv), OpeningConstant(logN, ch, proof, inv'))
  {
    var acc := Dot(proof.evaluations, Powers(ch.rho, 1, 0, NUMBER_OF_ENTITIES), NUMBER_OF_ENTITIES);
    var rs := Points(ch.r, logN);
    var a, a' := FoldValues(logN, ch, rs, proof.aEvaluations, inv, acc),
        FoldValues(logN, ch, rs, proof.aEvaluations, inv', acc);
    forall j | 0 <= j < logN ensures CongruentAt(p, a, a', j) {
      FoldValueCong(p, logN, ch, rs, proof.aEvaluations, inv, inv', acc, j);
    }
    PairsCong(p, logN, inv, inv');
    ConstantCong(p, ch.nu, PosInverses(logN, inv), PosInverses(logN, inv'), NegInverses(logN, inv),
                 NegInverses(logN, inv'), a, a', proof.aEvaluations, logN);
  }

  lemma MergedScalarsCong(p: Prime, ch: Challenges, inv: seq<int>, inv': seq<int>)
    requires |inv| == |inv'| >= 3 && Congruent(p, inv, inv')
    ensures Congruent(p, MergedScalars(ch, inv), MergedScalars(ch, inv'))
  {
    forall i | 0 <= i < NUMBER_UNSHIFTED ensures CongruentAt(p, MergedScalars(ch, inv), MergedScalars(ch, inv'), i) {
      MergedScalarsCongAt(p, ch, inv, inv', i);
    }
  }

  lemma MergedScalarsCongAt(p: Prime, ch: Challenges, inv: seq<int>, inv': seq<int>, i: nat)
    requires |inv| == |inv'| >= 3 && Congruent(p, inv, inv') && i < NUMBER_UNSHIFTED
    ensures CongruentAt(p, MergedScalars(ch, inv), MergedScalars(ch, inv'), i)
  {
    MergedFromInverses(p, ch.rho, ch.nu, inv, inv', MergedScalars(ch, inv), MergedScalars(ch, inv'), i);
  }

  lemma MergedFromInverses(p: Prime, rho: int, nu: int, inv: seq<int>, inv': seq<int>, m: seq<int>, m': seq<int>,
                           i: nat)
    requires |inv| == |inv'| >= 3 && Congruent(p, inv, inv') && i < |m| == |m'|
    requires m[i] == MergedScalar(rho, nu * inv[1] + inv[0], inv[2] * (inv[0] - nu * inv[1]), i)
    requires m'[i] == MergedScalar(rho, nu * inv'[1] + inv'[0], inv'[2] * (inv'[0] - nu * inv'[1]), i)
    ensures CongruentAt(p, m, m', i)
  {
    assert CongruentAt(p, inv, inv', 0);
    assert CongruentAt(p, inv, inv', 1);
    assert CongruentAt(p, inv, inv', 2);
    WeightsCong(p, nu, inv[0], inv'[0], inv[1], inv'[1], inv[2], inv'[2]);
    MergedScalarCong(p, rho, nu * inv[1] + inv[0], nu * inv'[1] + inv'[0],
                     inv[2] * (inv[0] - nu * inv[1]), inv'[2] * (inv'[0] - nu * inv'[1]), i);
  }

  lemma FoldScalarsCong(p: Prime, logN: nat, ch: Challenges, inv: seq<int>, inv': seq<int>)
    requires 0 < logN <= CONST_PROOF_SIZE_LOG_N && |inv| == |inv'| == BatchSize(logN) && Congruent(p, inv, inv')
    ensures Congruent(p, FoldScalars(logN, ch, inv), FoldScalars(logN, ch, inv'))
  {
    PairsCong(p, logN, inv, inv');
    CongRefl(p, 0);
    forall j | 0 <= j < CONST_PROOF_SIZE_LOG_N - 1
      ensures CongruentAt(p, FoldScalars(logN, ch, inv), FoldScalars(logN, ch, inv'), j)
    {
      if j + 1 < logN {
        assert CongruentAt(p, PosInverses(logN, inv), PosInverses(logN, inv'), j + 1);
        assert CongruentAt(p, NegInverses(logN, inv), NegInverses(logN, inv'), j + 1);
        RoundWeightsCong(p, ch.nu, PosInverses(logN, inv), PosInverses(logN, inv'), NegInverses(logN, inv),
                         NegInverses(logN, inv'), j + 1);
      }
    }
  }

  lemma ConcatCong(p: Prime, a: seq<int>, a': seq<int>, b: seq<int>, b': seq<int>)
    requires Congruent(p, a, a') && Congruent(p, b, b')
    ensures Congruent(p, a + b, a' + b')
  {
    forall i | 0 <= i < |a + b| ensures CongruentAt(p, a + b, a' + b', i) {
      if i < |a| {
        assert CongruentAt(p, a, a', i);
      } else {
        assert CongruentAt(p, b, b', i - |a|);
      }
    }
  }

  lemma ScalarsCong(p: Prime, logN: nat, ch: Challenges, inv: seq<int>, inv': seq<int>, c: int, c': int)
    requires 0 < logN <= CONST_PROOF_SIZE_LOG_N && |inv| == |inv'| == BatchSize(logN)
    requires Congruent(p, inv, inv') && Cong(p, c, c')
    ensures Congruent(p, Scalars(logN, ch, inv, c), Scalars(logN, ch, inv', c'))
  {
    CongRefl(p, 1);
    CongRefl(p, ch.z);
    MergedScalarsCong(p, ch, inv, inv');
    FoldScalarsCong(p, logN, ch, inv, inv');
    ConcatCong(p, [1], [1], MergedScalars(ch, inv), MergedScalars(ch, inv'));
    ConcatCong(p, [1] + MergedScalars(ch, inv), [1] + MergedScalars(ch, inv'), FoldScalars(logN, ch, inv),
               FoldScalars(logN, ch, inv'));
    ConcatCong(p, [1] + MergedScalars(ch, inv) + FoldScalars(logN, ch, inv),
               [1] + MergedScalars(ch, inv') + FoldScalars(logN, ch, inv'), [c, ch.z], [c', ch.z]);
  }

  /** Any two choices of inverses give the same verdict. */
  lemma VerdictIndependentOfInverses(p: Prime, tau: int, logN: nat, vk: seq<int>, proof: Proof, ch: Challenges,
                                     inv: seq<int>, inv': seq<int>)
    requires 0 < logN <= CONST_PROOF_SIZE_LOG_N && |vk| == NUMBER_PRECOMPUTED && proof.Valid() && ch.Valid()
    requires AreInverses(p, Denominators(logN, ch, Points(ch.r, logN)), inv)
    requires AreInverses(p, Denominators(logN, ch, Points(ch.r, logN)), inv')
    requires OpeningHolds(p, tau, logN, vk, proof, ch, inv)
    ensures OpeningHolds(p, tau, logN, vk, proof, ch, inv')
  {
    InversesAreUnique(p, Denominators(logN, ch, Points(ch.r, logN)), inv, inv');
    OpeningConstantCong(p, logN, ch, proof, inv, inv');
    var s := Scalars(logN, ch, inv, OpeningConstant(logN, ch, proof, inv));
    var s' := Scalars(logN, ch, inv', OpeningConstant(logN, ch, proof, inv'));
    var c := Commitments(vk, proof);
    ScalarsCong(p, logN, ch, inv, inv', OpeningConstant(logN, ch, proof, inv), OpeningConstant(logN, ch, proof, inv'));
    forall i | 0 <= i < TOTAL ensures Cong(p, s[i], s'[i]) {
      assert CongruentAt(p, s, s', i);
    }
    DotCong(p, c, s, s', TOTAL);
    DotCommutes(c, s, TOTAL);
    DotCommutes(c, s', TOTAL);
    CongSym(p, Dot(s, c, TOTAL), Dot(s', c, TOTAL));
    CongTrans(p, Dot(s', c, TOTAL), Dot(s, c, TOTAL), tau * proof.kzgQuotient);
  }

  /** Running the verifier on an honest opening: it passes exactly when no denominator vanishes. */
  method VerifyHonestOpening(p: Prime, tau: int, logN: nat, key: VerifyingKey, proof: Proof, ch: Challenges,
                             ghost fs: seq<seq<int>>, ghost proverInv: seq<int>)
      returns (r: Outcome)
    requires 0 < logN <= CONST_PROOF_SIZE_LOG_N && proof.Valid() && ch.Valid()
    requires AreEntities(p, logN, fs) && |proverInv| == BatchSize(logN)
    requires AllNonzero(p, Denominators(logN, ch, Points(ch.r, logN))) ==>
      AreInverses(p, Denominators(logN, ch, Points(ch.r, logN)), proverInv)
          && IsHonest(p, tau, logN, fs, key.Commitments(), proof, ch, proverInv)
    ensures r.Pass? <==> AllNonzero(p, Denominators(logN, ch, Points(ch.r, logN)))
    ensures r.Fail? ==> r == Fail(INVERSION_ERROR)
  {
    var inv;
    r, inv := VerifyShplemini(p, tau, logN, key, proof, ch);
    if r != Fail(INVERSION_ERROR) {
      HonestOpeningHolds(p, tau, logN, fs, key.Commitments(), proof, ch, proverInv);
      VerdictIndependentOfInverses(p, tau, logN, key.Commitments(), proof, ch, proverInv, inv);
    }
  }
}
