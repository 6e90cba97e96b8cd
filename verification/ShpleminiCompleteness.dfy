/** The opening an honest prover sends is accepted, whenever the denominators can be inverted. */
module ShpleminiCompleteness {
  import opened PrimeField
  import opened Sums
  import opened Polynomials
  import opened BatchInversion
  import opened Gemini
  import opened Shplonk
  import opened Shplemini
  import opened ShpleminiOpening
  import opened ProofShape

  // ----- what the prover commits to

  /** The folds of the batch, from the second round on. */
  ghost function HonestFolds(logN: nat, fs: seq<seq<int>>, ch: Challenges): (s: seq<seq<int>>)
    requires |fs| == NUMBER_UNSHIFTED && forall i :: 0 <= i < NUMBER_UNSHIFTED ==> |fs[i]| == Pow2(logN)
    requires ch.Valid() && 0 < logN <= CONST_PROOF_SIZE_LOG_N
    ensures |s| == logN - 1
    ensures forall i :: 0 <= i < |s| ==> s[i] == FoldAt(Folded(logN, fs, ch.rho), ch.us, logN, i + 1)
  {
    seq(logN - 1, i requires 0 <= i < logN - 1 => FoldAt(Folded(logN, fs, ch.rho), ch.us, logN, i + 1))
  }

  /** The polynomials of the Shplonk claims at r^(2^j) and at -r^(2^j).  In round 0 they stand for
      F + G/r and F - G/r, which agree with the folded polynomial at r and at -r. */
  ghost function PlusPoly(logN: nat, fs: seq<seq<int>>, ch: Challenges, rInv: int, j: nat): seq<int>
    requires |fs| == NUMBER_UNSHIFTED && forall i :: 0 <= i < NUMBER_UNSHIFTED ==> |fs[i]| == Pow2(logN)
    requires ch.Valid() && j < logN <= CONST_PROOF_SIZE_LOG_N
  {
    if j == 0 then Add(Unshifted(fs, ch.rho), Scale(rInv, ToBeShifted(fs, ch.rho)))
    else FoldAt(Folded(logN, fs, ch.rho), ch.us, logN, j)
  }

  ghost function PlusPolys(logN: nat, fs: seq<seq<int>>, ch: Challenges, rInv: int): (s: seq<seq<int>>)
    requires |fs| == NUMBER_UNSHIFTED && forall i :: 0 <= i < NUMBER_UNSHIFTED ==> |fs[i]| == Pow2(logN)
    requires ch.Valid() && 0 < logN <= CONST_PROOF_SIZE_LOG_N
    ensures |s| == logN && forall j :: 0 <= j < logN ==> s[j] == PlusPoly(logN, fs, ch, rInv, j)
  {
    var s := RoundPolys(fs, HonestFolds(logN, fs, ch), ch.rho, rInv);
    assert forall j :: 0 < j < logN ==> s[j] == HonestFolds(logN, fs, ch)[j - 1];
    s
  }

  // the claims of an honest opening, for a choice `inv` of inverses of the denominators
  ghost predicate IsHonest(p: Prime, tau: int, logN: nat, fs: seq<seq<int>>, vk: seq<int>, proof: Proof, ch: Challenges,
                           inv: seq<int>)
    requires 0 < logN <= CONST_PROOF_SIZE_LOG_N && |vk| == NUMBER_PRECOMPUTED && proof.Valid() && ch.Valid()
    requires AreEntities(p, logN, fs) && |inv| == BatchSize(logN)
  {
    && CommitTo(p, tau, fs, vk, proof)
    && EvaluationsHonest(p, fs, proof, ch.us[..logN])
    && FoldEvaluationsHonest(p, logN, fs, proof, ch)
    && FoldCommitmentsHonest(p, tau, logN, fs, proof, ch)
    && Cong(p, proof.shplonkQ, Eval(HonestQuotient(logN, fs, ch, inv[2]), tau))
    && Cong(p, proof.kzgQuotient, Eval(Quotient(HonestClaim(logN, fs, ch, proof, inv), ch.z), tau))
  }

  ghost predicate FoldEvaluationsHonest(p: Prime, logN: nat, fs: seq<seq<int>>, proof: Proof, ch: Challenges)
    requires proof.Valid() && ch.Valid() && AreEntities(p, logN, fs) && logN <= CONST_PROOF_SIZE_LOG_N
  {
    TrueAtNegatives(p, logN, ch, Folded(logN, fs, ch.rho), proof.aEvaluations)
  }

  /** values[j] is the j-th fold of a at -r^(2^j). */
  ghost predicate TrueAtNegatives(p: Prime, logN: nat, ch: Challenges, a: seq<int>, values: seq<int>)
    requires logN <= |ch.us| && logN <= |values| && |a| == Pow2(logN)
  {
    forall j :: 0 <= j < logN ==> Cong(p, values[j], Eval(FoldAt(a, ch.us, logN, j), -SquareChain(ch.r, j)))
  }

  ghost predicate FoldCommitmentsHonest(p: Prime, tau: int, logN: nat, fs: seq<seq<int>>, proof: Proof, ch: Challenges)
    requires proof.Valid() && ch.Valid() && AreEntities(p, logN, fs) && logN <= CONST_PROOF_SIZE_LOG_N
  {
    forall j :: 0 < j < logN ==> Cong(p, proof.foldComms[j - 1],
                                      Eval(FoldAt(Folded(logN, fs, ch.rho), ch.us, logN, j), tau))
  }

  ghost predicate EvaluationsHonest(p: Prime, fs: seq<seq<int>>, proof: Proof, us: seq<int>)
    requires proof.Valid() && |fs| == NUMBER_UNSHIFTED && forall i :: 0 <= i < NUMBER_UNSHIFTED ==> |fs[i]| > 0
  {
    forall i :: 0 <= i < NUMBER_OF_ENTITIES ==> Cong(p, proof.evaluations[i], MultilinearAt((fs + Shifts(fs))[i], us))
  }

  ghost function HonestQuotient(logN: nat, fs: seq<seq<int>>, ch: Challenges, rInv: int): seq<int>
    requires |fs| == NUMBER_UNSHIFTED && forall i :: 0 <= i < NUMBER_UNSHIFTED ==> |fs[i]| == Pow2(logN)
    requires ch.Valid() && 0 < logN <= CONST_PROOF_SIZE_LOG_N
  {
    BatchedQuotient(ch.nu, Points(ch.r, logN), PlusPolys(logN, fs, ch, rInv), PlusPolys(logN, fs, ch, -rInv), logN)
  }

  ghost function HonestClaim(logN: nat, fs: seq<seq<int>>, ch: Challenges, proof: Proof, inv: seq<int>): seq<int>
    requires |fs| == NUMBER_UNSHIFTED && forall i :: 0 <= i < NUMBER_UNSHIFTED ==> |fs[i]| == Pow2(logN)
    requires ch.Valid() && 0 < logN <= CONST_PROOF_SIZE_LOG_N && proof.Valid() && |inv| == BatchSize(logN)
  {
    OpeningPoly(logN, fs, HonestFolds(logN, fs, ch), HonestQuotient(logN, fs, ch, inv[2]), ch, inv,
                OpeningConstant(logN, ch, proof, inv))
  }

  // ----- the values of the folded polynomial

  lemma FoldedSplits(logN: nat, fs: seq<seq<int>>, rho: int, x: int)
    requires |fs| == NUMBER_UNSHIFTED && forall i :: 0 <= i < NUMBER_UNSHIFTED ==> |fs[i]| == Pow2(logN)
    ensures Eval(Folded(logN, fs, rho), x) == Eval(Unshifted(fs, rho), x)
      + Dot(Powers(rho, 1, NUMBER_UNSHIFTED, NUMBER_TO_BE_SHIFTED), EvalAll(Shifts(fs), x), NUMBER_TO_BE_SHIFTED)
  {
    var shifts := Shifts(fs);
    var w, w1, w2 := Powers(rho, 1, 0, NUMBER_OF_ENTITIES), Powers(rho, 1, 0, NUMBER_UNSHIFTED),
        Powers(rho, 1, NUMBER_UNSHIFTED, NUMBER_TO_BE_SHIFTED);
    EvalBatch(fs + shifts, w, NUMBER_OF_ENTITIES, x);
    EvalBatch(fs, w1, NUMBER_UNSHIFTED, x);
    assert w == w1 + w2;
    assert EvalAll(fs + shifts, x) == EvalAll(fs, x) + EvalAll(shifts, x);
    DotConcat(w1, EvalAll(fs, x), w2, EvalAll(shifts, x), NUMBER_TO_BE_SHIFTED);
  }

  lemma ShiftsTimesX(p: Prime, logN: nat, fs: seq<seq<int>>, rho: int, x: int)
    requires AreEntities(p, logN, fs)
    ensures Cong(p, x * Dot(Powers(rho, 1, NUMBER_UNSHIFTED, NUMBER_TO_BE_SHIFTED), EvalAll(Shifts(fs), x),
                            NUMBER_TO_BE_SHIFTED),
                 Eval(ToBeShifted(fs, rho), x))
  {
    var shifts, shifted := Shifts(fs), fs[NUMBER_PRECOMPUTED..NUMBER_PRECOMPUTED + NUMBER_TO_BE_SHIFTED];
    var w2 := Powers(rho, 1, NUMBER_UNSHIFTED, NUMBER_TO_BE_SHIFTED);
    EvalBatch(shifted, w2, NUMBER_TO_BE_SHIFTED, x);
    var scaled := seq(NUMBER_TO_BE_SHIFTED, k requires 0 <= k < NUMBER_TO_BE_SHIFTED => x * EvalAll(shifts, x)[k]);
    forall k | 0 <= k < NUMBER_TO_BE_SHIFTED ensures Cong(p, scaled[k], EvalAll(shifted, x)[k]) {
      var f := fs[NUMBER_PRECOMPUTED + k];
      ShiftTimesX(p, f, x);
      var e := EvalAll(shifts, x)[k];
      assert e == Eval(Shift(f), x) && scaled[k] == x * e;
      assert EvalAll(shifted, x)[k] == Eval(f, x);
    }
    DotCong(p, w2, scaled, EvalAll(shifted, x), NUMBER_TO_BE_SHIFTED);
    DotScaleRight(x, w2, EvalAll(shifts, x), scaled, NUMBER_TO_BE_SHIFTED);
  }

  /** x times the folded polynomial at x is x * F(x) + G(x). */
  lemma FoldedTimesX(p: Prime, logN: nat, fs: seq<seq<int>>, rho: int, x: int)
    requires AreEntities(p, logN, fs)
    ensures Cong(p, x * Eval(Folded(logN, fs, rho), x), x * Eval(Unshifted(fs, rho), x) + Eval(ToBeShifted(fs, rho), x))
  {
    FoldedSplits(logN, fs, rho, x);
    ShiftsTimesX(p, logN, fs, rho, x);
    SumTimesX(p, x, Eval(Unshifted(fs, rho), x),
              Dot(Powers(rho, 1, NUMBER_UNSHIFTED, NUMBER_TO_BE_SHIFTED), EvalAll(Shifts(fs), x), NUMBER_TO_BE_SHIFTED),
              Eval(ToBeShifted(fs, rho), x));
  }

  lemma SumTimesX(p: Prime, x: int, u: int, v: int, g: int)
    requires Cong(p, x * v, g)
    ensures Cong(p, x * (u + v), x * u + g)
  {
    assert x * (u + v) == x * u + x * v;
    CongRefl(p, x * u);
    CongAdd(p, x * u, x * u, x * v, g);
  }

  lemma {:induction false} DotScaleRight(k: int, a: seq<int>, b: seq<int>, b': seq<int>, n: nat)
    requires n <= |a| && n <= |b| && n <= |b'|
    requires forall i :: 0 <= i < n ==> b'[i] == k * b[i]
    ensures Dot(a, b', n) == k * Dot(a, b, n)
  {
    if n > 0 {
      DotScaleRight(k, a, b, b', n - 1);
      assert a[n - 1] * (k * b[n - 1]) == k * (a[n - 1] * b[n - 1]);
      assert k * (Dot(a, b, n - 1) + a[n - 1] * b[n - 1]) == k * Dot(a, b, n - 1) + k * (a[n - 1] * b[n - 1]);
    }
  }

  lemma {:induction false} EvalAppendZero(f: seq<int>, x: int)
    ensures Eval(f + [0], x) == Eval(f, x)
  {
    if f == [] {
      var zero: seq<int> := [0];
      assert f + [0] == zero && zero[1..] == [] && x * 0 == 0;
    } else {
      EvalAppendZero(f[1..], x);
      assert (f + [0])[1..] == f[1..] + [0];
    }
  }

  lemma ShiftTimesX(p: Prime, f: seq<int>, x: int)
    requires f != [] && Cong(p, f[0], 0)
    ensures Cong(p, x * Eval(Shift(f), x), Eval(f, x))
  {
    EvalAppendZero(f[1..], x);
    CongRefl(p, Eval(f, x));
    CongAdd(p, Eval(f, x), Eval(f, x), f[0], 0);
  }

  /** At s == r or s == -r, with i an inverse of s, the folded polynomial takes the value of F + i * G. */
  lemma FoldedAtPoint(p: Prime, logN: nat, fs: seq<seq<int>>, rho: int, s: int, i: int)
    requires AreEntities(p, logN, fs) && Cong(p, s * i, 1)
    ensures Cong(p, Eval(Folded(logN, fs, rho), s), Eval(Add(Unshifted(fs, rho), Scale(i, ToBeShifted(fs, rho))), s))
  {
    var f, g, a := Eval(Unshifted(fs, rho), s), Eval(ToBeShifted(fs, rho), s), Eval(Folded(logN, fs, rho), s);
    EvalScale(i, ToBeShifted(fs, rho), s);
    EvalAdd(Unshifted(fs, rho), Scale(i, ToBeShifted(fs, rho)), s);
    FoldedTimesX(p, logN, fs, rho, s);
    DivideByPoint(p, s, i, a, f, g);
  }

  lemma DivideByPoint(p: Prime, s: int, i: int, a: int, f: int, g: int)
    requires Cong(p, s * i, 1) && Cong(p, s * a, s * f + g)
    ensures Cong(p, a, f + i * g)
  {
    assert Cong(p, i * s, 1) by {
      assert i * s == s * i;
    }
    InverseIsNonzero(p, i, s);
    CongScale(p, s * i, 1, g);
    CongSym(p, s * i * g, 1 * g);
    assert s * (f + i * g) == s * f + s * i * g;
    CongRefl(p, s * f);
    CongAdd(p, s * f, s * f, g, s * i * g);
    CongTrans(p, s * a, s * f + g, s * (f + i * g));
    Cancel(p, s, a, f + i * g);
  }

  // ----- the recovered values

  lemma {:induction false} FoldPrefix(a: seq<int>, us: seq<int>, n: nat, j: nat)
    requires |a| == Pow2(n) && j <= n <= |us|
    ensures FoldAt(a, us, n, j) == FoldAt(a, us[..n], n, j)
  {
    if j > 0 {
      FoldPrefix(a, us, n, j - 1);
    }
  }

  /** The batched sumcheck evaluations are the multilinear value of the folded polynomial. */
  lemma BatchedEvaluation(p: Prime, logN: nat, fs: seq<seq<int>>, proof: Proof, rho: int, us: seq<int>)
    requires AreEntities(p, logN, fs) && proof.Valid()
    requires Pow2(logN) >= 1
    requires EvaluationsHonest(p, fs, proof, us)
    ensures Cong(p, Dot(proof.evaluations, Powers(rho, 1, 0, NUMBER_OF_ENTITIES), NUMBER_OF_ENTITIES),
                 MultilinearAt(Folded(logN, fs, rho), us))
  {
    var all, w := fs + Shifts(fs), Powers(rho, 1, 0, NUMBER_OF_ENTITIES);
    MultilinearBatch(all, w, us, NUMBER_OF_ENTITIES, Pow2(logN));
    DotCommutes(proof.evaluations, w, NUMBER_OF_ENTITIES);
    DotCong(p, w, proof.evaluations, MultilinearAll(all, us), NUMBER_OF_ENTITIES);
  }

  lemma {:induction false} DotCommutes(a: seq<int>, b: seq<int>, n: nat)
    requires n <= |a| && n <= |b|
    ensures Dot(a, b, n) == Dot(b, a, n)
  {
    if n > 0 {
      DotCommutes(a, b, n - 1);
      assert a[n - 1] * b[n - 1] == b[n - 1] * a[n - 1];
    }
  }

  /** Gemini fold recovery: from the multilinear value and the true values at -r^(2^j), the fold loop
      recovers every value at r^(2^j). */
  lemma {:induction false} FoldRecovery(p: Prime, logN: nat, ch: Challenges, a: seq<int>, aEvaluations: seq<int>,
                                        inv: seq<int>, evalAcc: int, j: nat)
    requires 0 < logN <= |ch.us| && logN <= |aEvaluations| && j <= logN && |a| == Pow2(logN)
    requires AreInverses(p, Denominators(logN, ch, Points(ch.r, logN)), inv)
    requires Cong(p, evalAcc, MultilinearAt(a, ch.us[..logN]))
    requires TrueAtNegatives(p, logN, ch, a, aEvaluations)
    ensures Cong(p, FoldValue(logN, ch, Points(ch.r, logN), aEvaluations, inv, evalAcc, j),
                 Eval(FoldAt(a, ch.us, logN, j), SquareChain(ch.r, j)))
    decreases logN - j
  {
    var rs := Points(ch.r, logN);
    if j == logN {
      FoldPrefix(a, ch.us, logN, logN);
      LastFold(a, ch.us[..logN], logN, SquareChain(ch.r, j));
    } else {
      FoldRecovery(p, logN, ch, a, aEvaluations, inv, evalAcc, j + 1);
      FoldRecoveryStep(p, logN, ch, a, aEvaluations, inv, evalAcc, j);
    }
  }

  lemma FoldRecoveryStep(p: Prime, logN: nat, ch: Challenges, a: seq<int>, aEvaluations: seq<int>, inv: seq<int>,
                         evalAcc: int, j: nat)
    requires 0 < logN <= |ch.us| && logN <= |aEvaluations| && j < logN && |a| == Pow2(logN)
    requires AreInverses(p, Denominators(logN, ch, Points(ch.r, logN)), inv)
    requires TrueAtNegatives(p, logN, ch, a, aEvaluations)
    requires Cong(p, FoldValue(logN, ch, Points(ch.r, logN), aEvaluations, inv, evalAcc, j + 1),
                  Eval(FoldAt(a, ch.us, logN, j + 1), SquareChain(ch.r, j + 1)))
    ensures Cong(p, FoldValue(logN, ch, Points(ch.r, logN), aEvaluations, inv, evalAcc, j),
                 Eval(FoldAt(a, ch.us, logN, j), SquareChain(ch.r, j)))
  {
    var rs := Points(ch.r, logN);
    InverseFacts(p, logN, ch, rs, inv, j);
    RecoverStep(p, logN, ch, a, aEvaluations[j], inv[FoldIndex(logN, j)],
                FoldValue(logN, ch, rs, aEvaluations, inv, evalAcc, j + 1), j, rs[j]);
  }

  lemma RecoverStep(p: Prime, logN: nat, ch: Challenges, a: seq<int>, neg: int, inv: int, cur: int, j: nat, s: int)
    requires j < logN <= |ch.us| && |a| == Pow2(logN) && s == SquareChain(ch.r, j)
    requires Cong(p, (s * (1 - ch.us[j]) + ch.us[j]) * inv, 1)
    requires Cong(p, neg, Eval(FoldAt(a, ch.us, logN, j), -SquareChain(ch.r, j)))
    requires Cong(p, cur, Eval(FoldAt(a, ch.us, logN, j + 1), SquareChain(ch.r, j + 1)))
    ensures Cong(p, FoldStep(s, ch.us[j], cur, neg, inv), Eval(FoldAt(a, ch.us, logN, j), s))
  {
    assert SquareChain(ch.r, j + 1) == s * s;
    RecoverPositive(p, FoldAt(a, ch.us, logN, j), ch.us[j], s, cur, neg, inv);
  }

  /** In an honest opening the values recovered at r^(2^j) are those of the plus polynomials. */
  lemma PositiveClaimsHold(p: Prime, logN: nat, fs: seq<seq<int>>, aEvaluations: seq<int>, ch: Challenges,
                           inv: seq<int>, evalAcc: int, j: nat)
    requires j < logN <= CONST_PROOF_SIZE_LOG_N && logN <= |aEvaluations| && ch.Valid() && AreEntities(p, logN, fs)
    requires AreInverses(p, Denominators(logN, ch, Points(ch.r, logN)), inv)
    requires TrueAtNegatives(p, logN, ch, Folded(logN, fs, ch.rho), aEvaluations)
    requires Cong(p, evalAcc, MultilinearAt(Folded(logN, fs, ch.rho), ch.us[..logN]))
    ensures IsValueAt(p, FoldValue(logN, ch, Points(ch.r, logN), aEvaluations, inv, evalAcc, j),
                      PlusPoly(logN, fs, ch, inv[2], j), SquareChain(ch.r, j))
  {
    FoldRecovery(p, logN, ch, Folded(logN, fs, ch.rho), aEvaluations, inv, evalAcc, j);
    if j == 0 {
      RInverse(p, logN, ch, inv);
      FoldedAtPoint(p, logN, fs, ch.rho, ch.r, inv[2]);
      CongTrans(p, FoldValue(logN, ch, Points(ch.r, logN), aEvaluations, inv, evalAcc, 0),
                Eval(Folded(logN, fs, ch.rho), ch.r), Eval(PlusPoly(logN, fs, ch, inv[2], 0), ch.r));
    }
  }

  /** And the values sent for -r^(2^j) are those of the minus polynomials. */
  lemma NegativeClaimsHold(p: Prime, logN: nat, fs: seq<seq<int>>, aEvaluations: seq<int>, ch: Challenges,
                           inv: seq<int>, j: nat)
    requires j < logN <= CONST_PROOF_SIZE_LOG_N && logN <= |aEvaluations| && ch.Valid() && AreEntities(p, logN, fs)
    requires AreInverses(p, Denominators(logN, ch, Points(ch.r, logN)), inv)
    requires TrueAtNegatives(p, logN, ch, Folded(logN, fs, ch.rho), aEvaluations)
    ensures IsValueAt(p, aEvaluations[j], PlusPoly(logN, fs, ch, -inv[2], j), -SquareChain(ch.r, j))
  {
    if j == 0 {
      var rInv := inv[2];
      RInverse(p, logN, ch, inv);
      assert -ch.r * -rInv == ch.r * rInv;
      FoldedAtPoint(p, logN, fs, ch.rho, -ch.r, -rInv);
      CongTrans(p, aEvaluations[0], Eval(Folded(logN, fs, ch.rho), -ch.r),
                Eval(PlusPoly(logN, fs, ch, -rInv, 0), -ch.r));
    }
  }

  lemma RInverse(p: Prime, logN: nat, ch: Challenges, inv: seq<int>)
    requires 0 < logN <= |ch.us|
    requires AreInverses(p, Denominators(logN, ch, Points(ch.r, logN)), inv)
    ensures Cong(p, ch.r * inv[2], 1)
  {
    InverseFacts(p, logN, ch, Points(ch.r, logN), inv, 0);
  }

  // ----- completeness

  lemma DenominatorsInvert(p: Prime, logN: nat, ch: Challenges, inv: seq<int>)
    requires 0 < logN <= |ch.us|
    requires AreInverses(p, Denominators(logN, ch, Points(ch.r, logN)), inv)
    ensures Inverts(p, ch.z, Points(ch.r, logN), PosInverses(logN, inv), NegInverses(logN, inv))
  {
    var rs := Points(ch.r, logN);
    forall j | 0 <= j < logN
      ensures Cong(p, (ch.z - rs[j]) * PosInverses(logN, inv)[j], 1)
              && Cong(p, (ch.z + rs[j]) * NegInverses(logN, inv)[j], 1)
    {
      InverseFacts(p, logN, ch, rs, inv, j);
    }
  }

  /** Every claim of an honest opening holds. */
  lemma HonestClaimsHold(p: Prime, logN: nat, fs: seq<seq<int>>, aEvaluations: seq<int>, ch: Challenges, inv: seq<int>,
                         evalAcc: int)
    requires 0 < logN <= CONST_PROOF_SIZE_LOG_N && logN <= |aEvaluations| && ch.Valid() && AreEntities(p, logN, fs)
    requires AreInverses(p, Denominators(logN, ch, Points(ch.r, logN)), inv)
    requires TrueAtNegatives(p, logN, ch, Folded(logN, fs, ch.rho), aEvaluations)
    requires Cong(p, evalAcc, MultilinearAt(Folded(logN, fs, ch.rho), ch.us[..logN]))
    ensures ClaimsHold(p, Points(ch.r, logN), PlusPolys(logN, fs, ch, inv[2]), PlusPolys(logN, fs, ch, -inv[2]),
                       FoldValues(logN, ch, Points(ch.r, logN), aEvaluations, inv, evalAcc), aEvaluations)
  {
    var plus, minus, rs := PlusPolys(logN, fs, ch, inv[2]), PlusPolys(logN, fs, ch, -inv[2]), Points(ch.r, logN);
    var values := FoldValues(logN, ch, rs, aEvaluations, inv, evalAcc);
    forall j | 0 <= j < logN ensures ClaimHolds(p, rs[j], plus[j], minus[j], values[j], aEvaluations[j]) {
      HonestClaimHolds(p, logN, fs, aEvaluations, ch, inv, evalAcc, j);
    }
  }

  lemma HonestClaimHolds(p: Prime, logN: nat, fs: seq<seq<int>>, aEvaluations: seq<int>, ch: Challenges, inv: seq<int>,
                         evalAcc: int, j: nat)
    requires j < logN <= CONST_PROOF_SIZE_LOG_N && logN <= |aEvaluations| && ch.Valid() && AreEntities(p, logN, fs)
    requires AreInverses(p, Denominators(logN, ch, Points(ch.r, logN)), inv)
    requires TrueAtNegatives(p, logN, ch, Folded(logN, fs, ch.rho), aEvaluations)
    requires Cong(p, evalAcc, MultilinearAt(Folded(logN, fs, ch.rho), ch.us[..logN]))
    ensures ClaimHolds(p, SquareChain(ch.r, j), PlusPoly(logN, fs, ch, inv[2], j), PlusPoly(logN, fs, ch, -inv[2], j),
                       FoldValue(logN, ch, Points(ch.r, logN), aEvaluations, inv, evalAcc, j), aEvaluations[j])
  {
    PositiveClaimsHold(p, logN, fs, aEvaluations, ch, inv, evalAcc, j);
    NegativeClaimsHold(p, logN, fs, aEvaluations, ch, inv, j);
  }

  lemma HonestClaimVanishes(p: Prime, logN: nat, fs: seq<seq<int>>, proof: Proof, ch: Challenges, inv: seq<int>)
    requires 0 < logN <= CONST_PROOF_SIZE_LOG_N && proof.Valid() && ch.Valid() && AreEntities(p, logN, fs)
    requires AreInverses(p, Denominators(logN, ch, Points(ch.r, logN)), inv)
    requires EvaluationsHonest(p, fs, proof, ch.us[..logN]) && FoldEvaluationsHonest(p, logN, fs, proof, ch)
    ensures Cong(p, Eval(HonestClaim(logN, fs, ch, proof, inv), ch.z), 0)
  {
    var evalAcc := Dot(proof.evaluations, Powers(ch.rho, 1, 0, NUMBER_OF_ENTITIES), NUMBER_OF_ENTITIES);
    assert Pow2(logN) >= 1;
    BatchedEvaluation(p, logN, fs, proof, ch.rho, ch.us[..logN]);
    HonestClaimsHold(p, logN, fs, proof.aEvaluations, ch, inv, evalAcc);
    TrueClaimsVanishTogether(p, logN, fs, proof, ch, inv,
                             FoldValues(logN, ch, Points(ch.r, logN), proof.aEvaluations, inv, evalAcc));
  }

  lemma TrueClaimsVanishTogether(p: Prime, logN: nat, fs: seq<seq<int>>, proof: Proof, ch: Challenges, inv: seq<int>,
                                 values: seq<int>)
    requires 0 < logN <= CONST_PROOF_SIZE_LOG_N && proof.Valid() && ch.Valid() && AreEntities(p, logN, fs)
             && |values| == logN
    requires AreInverses(p, Denominators(logN, ch, Points(ch.r, logN)), inv)
    requires OpeningConstant(logN, ch, proof, inv)
          == ConstantTerm(ch.nu, PosInverses(logN, inv), NegInverses(logN, inv), values, proof.aEvaluations, logN)
    requires ClaimsHold(p, Points(ch.r, logN), PlusPolys(logN, fs, ch, inv[2]), PlusPolys(logN, fs, ch, -inv[2]),
                        values, proof.aEvaluations)
    ensures Cong(p, Eval(HonestClaim(logN, fs, ch, proof, inv), ch.z), 0)
  {
    var rs, pos, neg := Points(ch.r, logN), PosInverses(logN, inv), NegInverses(logN, inv);
    var plus, minus := PlusPolys(logN, fs, ch, inv[2]), PlusPolys(logN, fs, ch, -inv[2]);
    DenominatorsInvert(p, logN, ch, inv);
    TrueBatchVanishes(p, ch.z, ch.nu, rs, pos, neg, plus, minus, values, proof.aEvaluations,
                      OpeningConstant(logN, ch, proof, inv));
  }

  /** The multi-scalar multiplication of an honest opening, with any constant term. */
  lemma HonestMsm(p: Prime, tau: int, logN: nat, fs: seq<seq<int>>, vk: seq<int>, proof: Proof, ch: Challenges,
                  inv: seq<int>, constant: int)
    requires 0 < logN <= CONST_PROOF_SIZE_LOG_N && |vk| == NUMBER_PRECOMPUTED && proof.Valid() && ch.Valid()
    requires AreEntities(p, logN, fs) && |inv| == BatchSize(logN)
    requires CommitTo(p, tau, fs, vk, proof) && FoldCommitmentsHonest(p, tau, logN, fs, proof, ch)
    requires Cong(p, proof.shplonkQ, Eval(HonestQuotient(logN, fs, ch, inv[2]), tau))
    ensures
      var claim := OpeningPoly(logN, fs, HonestFolds(logN, fs, ch), HonestQuotient(logN, fs, ch, inv[2]), ch, inv,
                               constant);
      Cong(p, Dot(Scalars(logN, ch, inv, constant), Commitments(vk, proof), TOTAL),
           Eval(claim, tau) + ch.z * proof.kzgQuotient)
  {
    var folds := HonestFolds(logN, fs, ch);
    forall i | 0 <= i < |folds| ensures Cong(p, proof.foldComms[i], Eval(folds[i], tau)) {
      assert Cong(p, proof.foldComms[i + 1 - 1], Eval(FoldAt(Folded(logN, fs, ch.rho), ch.us, logN, i + 1), tau));
    }
    MsmIsOpening(p, tau, logN, fs, folds, HonestQuotient(logN, fs, ch, inv[2]), vk, proof, ch, inv, constant);
  }

  lemma PairingFromClaim(p: Prime, msm: int, claim: int, z: int, tau: int, w: int, w': int)
    requires Cong(p, msm, claim + z * w) && Cong(p, w, w') && Cong(p, claim + z * w', tau * w')
    ensures Cong(p, msm, tau * w)
  {
    CongScale(p, w, w', z);
    CongScale(p, w, w', tau);
    CongSym(p, tau * w, tau * w');
    CongRefl(p, claim);
    CongAdd(p, claim, claim, z * w, z * w');
    CongTrans(p, msm, claim + z * w, claim + z * w');
    CongTrans(p, msm, claim + z * w', tau * w');
    CongTrans(p, msm, tau * w', tau * w);
  }

  /** An honest opening satisfies the pairing equation, with the prover's own inverses. */
  lemma HonestOpeningHolds(p: Prime, tau: int, logN: nat, fs: seq<seq<int>>, vk: seq<int>, proof: Proof, ch: Challenges,
                           inv: seq<int>)
    requires 0 < logN <= CONST_PROOF_SIZE_LOG_N && |vk| == NUMBER_PRECOMPUTED && proof.Valid() && ch.Valid()
    requires AreEntities(p, logN, fs)
    requires AreInverses(p, Denominators(logN, ch, Points(ch.r, logN)), inv)
    requires IsHonest(p, tau, logN, fs, vk, proof, ch, inv)
    ensures OpeningHolds(p, tau, logN, vk, proof, ch, inv)
  {
    var constant, claim := OpeningConstant(logN, ch, proof, inv), HonestClaim(logN, fs, ch, proof, inv);
    HonestMsm(p, tau, logN, fs, vk, proof, ch, inv, constant);
    HonestClaimVanishes(p, logN, fs, proof, ch, inv);
    TrueQuotientPairs(p, claim, ch.z, tau);
    PairingFromClaim(p, Dot(Scalars(logN, ch, inv, constant), Commitments(vk, proof), TOTAL), Eval(claim, tau), ch.z,
                     tau, proof.kzgQuotient, Eval(Quotient(claim, ch.z), tau));
  }
}
