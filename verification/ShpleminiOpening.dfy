/** What the verifier's multi-scalar multiplication computes, whatever polynomials were committed to. */
module ShpleminiOpening {
  import opened PrimeField
  import opened Sums
  import opened Polynomials
  import opened Gemini
  import opened Shplonk
  import opened Shplemini
  import opened ProofShape

  // ----- what the prover commits to

  /** f divided by X, for f without constant term. */
  function Shift(f: seq<int>): seq<int>
    requires f != []
  {
    f[1..] + [0]
  }

  /** 35 polynomials of length 2^logN; those of the five shifted ones have no constant term. */
  ghost predicate AreEntities(p: Prime, logN: nat, fs: seq<seq<int>>) {
    && |fs| == NUMBER_UNSHIFTED
    && (forall i :: 0 <= i < NUMBER_UNSHIFTED ==> |fs[i]| == Pow2(logN))
    && (forall i :: NUMBER_PRECOMPUTED <= i < NUMBER_PRECOMPUTED + NUMBER_TO_BE_SHIFTED ==> Cong(p, fs[i][0], 0))
  }

  ghost function Shifts(fs: seq<seq<int>>): (s: seq<seq<int>>)
    requires |fs| == NUMBER_UNSHIFTED && forall i :: 0 <= i < NUMBER_UNSHIFTED ==> |fs[i]| > 0
    ensures |s| == NUMBER_TO_BE_SHIFTED
    ensures forall k :: 0 <= k < |s| ==> s[k] == Shift(fs[NUMBER_PRECOMPUTED + k])
  {
    seq(NUMBER_TO_BE_SHIFTED, k requires 0 <= k < NUMBER_TO_BE_SHIFTED => Shift(fs[NUMBER_PRECOMPUTED + k]))
  }

  /** w[0] * fs[0] + ... + w[n-1] * fs[n-1] */
  function Batch(fs: seq<seq<int>>, w: seq<int>, n: nat): seq<int>
    requires n <= |fs| && n <= |w|
  {
    if n == 0 then [] else Add(Batch(fs, w, n - 1), Scale(w[n - 1], fs[n - 1]))
  }

  ghost function EvalAll(fs: seq<seq<int>>, x: int): (s: seq<int>)
    ensures |s| == |fs| && forall i :: 0 <= i < |fs| ==> s[i] == Eval(fs[i], x)
  {
    seq(|fs|, i requires 0 <= i < |fs| => Eval(fs[i], x))
  }

  ghost function MultilinearAll(fs: seq<seq<int>>, us: seq<int>): (s: seq<int>)
    ensures |s| == |fs| && forall i :: 0 <= i < |fs| ==> s[i] == MultilinearAt(fs[i], us)
  {
    seq(|fs|, i requires 0 <= i < |fs| => MultilinearAt(fs[i], us))
  }

  lemma {:induction false} EvalBatch(fs: seq<seq<int>>, w: seq<int>, n: nat, x: int)
    requires n <= |fs| && n <= |w|
    ensures Eval(Batch(fs, w, n), x) == Dot(w, EvalAll(fs, x), n)
  {
    if n > 0 {
      EvalBatch(fs, w, n - 1, x);
      EvalScale(w[n - 1], fs[n - 1], x);
      EvalAdd(Batch(fs, w, n - 1), Scale(w[n - 1], fs[n - 1]), x);
    }
  }

  lemma {:induction false} MultilinearBatch(fs: seq<seq<int>>, w: seq<int>, us: seq<int>, n: nat, len: nat)
    requires n <= |fs| && n <= |w|
    requires forall i :: 0 <= i < |fs| ==> |fs[i]| == len
    ensures n > 0 ==> |Batch(fs, w, n)| == len
    ensures MultilinearAt(Batch(fs, w, n), us) == Dot(w, MultilinearAll(fs, us), n)
  {
    if n > 0 {
      var b, s := Batch(fs, w, n - 1), Scale(w[n - 1], fs[n - 1]);
      MultilinearBatch(fs, w, us, n - 1, len);
      EvalScale(w[n - 1], fs[n - 1], 0);
      WeightedScale(w[n - 1], fs[n - 1], us, 0);
      EvalAdd(b, s, 0);
      if n > 1 {
        WeightedAdd(b, s, us, 0);
      } else {
        assert Add(b, s) == s;
      }
    }
  }

  /** The batch of all 40 entities: the polynomial that is folded. */
  ghost function Folded(logN: nat, fs: seq<seq<int>>, rho: int): (a: seq<int>)
    requires |fs| == NUMBER_UNSHIFTED && forall i :: 0 <= i < NUMBER_UNSHIFTED ==> |fs[i]| == Pow2(logN)
    ensures |a| == Pow2(logN)
  {
    assert Pow2(logN) >= 1;
    MultilinearBatch(fs + Shifts(fs), Powers(rho, 1, 0, NUMBER_OF_ENTITIES), [], NUMBER_OF_ENTITIES, Pow2(logN));
    Batch(fs + Shifts(fs), Powers(rho, 1, 0, NUMBER_OF_ENTITIES), NUMBER_OF_ENTITIES)
  }

  /** The batch of the 35 committed polynomials, and of the five that are shifted. */
  ghost function Unshifted(fs: seq<seq<int>>, rho: int): seq<int>
    requires |fs| == NUMBER_UNSHIFTED
  {
    Batch(fs, Powers(rho, 1, 0, NUMBER_UNSHIFTED), NUMBER_UNSHIFTED)
  }

  ghost function ToBeShifted(fs: seq<seq<int>>, rho: int): seq<int>
    requires |fs| == NUMBER_UNSHIFTED
  {
    Batch(fs[NUMBER_PRECOMPUTED..NUMBER_PRECOMPUTED + NUMBER_TO_BE_SHIFTED],
          Powers(rho, 1, NUMBER_UNSHIFTED, NUMBER_TO_BE_SHIFTED), NUMBER_TO_BE_SHIFTED)
  }

  /** The 35 commitments are those of fs. */
  ghost predicate CommitTo(p: Prime, tau: int, fs: seq<seq<int>>, vk: seq<int>, proof: Proof)
    requires |vk| == NUMBER_PRECOMPUTED && proof.Valid() && |fs| == NUMBER_UNSHIFTED
  {
    forall i :: 0 <= i < NUMBER_UNSHIFTED ==> Cong(p, (vk + proof.witnessComms)[i], Eval(fs[i], tau))
  }

  // ----- the multi-scalar multiplication

  lemma MsmSplits(logN: nat, vk: seq<int>, proof: Proof, ch: Challenges, inv: seq<int>, constant: int)
    requires 0 < logN <= CONST_PROOF_SIZE_LOG_N && |vk| == NUMBER_PRECOMPUTED && proof.Valid()
             && |inv| == BatchSize(logN)
    ensures Dot(Scalars(logN, ch, inv, constant), Commitments(vk, proof), TOTAL)
      == proof.shplonkQ + Dot(MergedScalars(ch, inv), vk + proof.witnessComms, NUMBER_UNSHIFTED)
         + Dot(FoldScalars(logN, ch, inv), proof.foldComms, CONST_PROOF_SIZE_LOG_N - 1) + constant
             + ch.z * proof.kzgQuotient
  {
    var one, q: seq<int> := [1], [proof.shplonkQ];
    var m, c := MergedScalars(ch, inv), vk + proof.witnessComms;
    var f, d := FoldScalars(logN, ch, inv), proof.foldComms;
    var s, t := [constant, ch.z], [1, proof.kzgQuotient];
    DotConcat(one, q, m, c, NUMBER_UNSHIFTED);
    DotConcat(one + m, q + c, f, d, CONST_PROOF_SIZE_LOG_N - 1);
    DotConcat(one + m + f, q + c + d, s, t, 2);
    assert Dot(one, q, 0) == 0 && Dot(one, q, 1) == 1 * proof.shplonkQ;
    assert Dot(s, t, 0) == 0 && Dot(s, t, 1) == constant * 1 && Dot(s, t, 2) == constant * 1 + ch.z * proof.kzgQuotient;
  }

  lemma MergedDot(ch: Challenges, inv: seq<int>, c: seq<int>)
    requires |inv| >= 3 && |c| == NUMBER_UNSHIFTED
    ensures Dot(MergedScalars(ch, inv), c, NUMBER_UNSHIFTED)
      == -(ch.nu * inv[1] + inv[0]) * Dot(Powers(ch.rho, 1, 0, NUMBER_UNSHIFTED), c, NUMBER_UNSHIFTED)
       + -(inv[2] * (inv[0] - ch.nu * inv[1])) * Dot(Powers(ch.rho, 1, NUMBER_UNSHIFTED, NUMBER_TO_BE_SHIFTED),
                                                     c[27..32], NUMBER_TO_BE_SHIFTED)
  {
    MergedDotFor(ch.rho, ch.nu * inv[1] + inv[0], inv[2] * (inv[0] - ch.nu * inv[1]), MergedScalars(ch, inv), c);
  }

  lemma MergedDotFor(rho: int, unshifted: int, shifted: int, m: seq<int>, c: seq<int>)
    requires |m| == |c| == NUMBER_UNSHIFTED
    requires forall i :: 0 <= i < NUMBER_UNSHIFTED ==> m[i] == MergedScalar(rho, unshifted, shifted, i)
    ensures Dot(m, c, NUMBER_UNSHIFTED)
      == -unshifted * Dot(Powers(rho, 1, 0, NUMBER_UNSHIFTED), c, NUMBER_UNSHIFTED)
       + -shifted * Dot(Powers(rho, 1, NUMBER_UNSHIFTED, NUMBER_TO_BE_SHIFTED), c[27..32], NUMBER_TO_BE_SHIFTED)
  {
    var v1 := Powers(rho, -unshifted, 0, NUMBER_UNSHIFTED);
    var mid := Powers(rho, -shifted, NUMBER_UNSHIFTED, NUMBER_TO_BE_SHIFTED);
    var zero27, zero3 := seq(27, _ => 0), seq(3, _ => 0);
    var v2 := zero27 + mid + zero3;
    assert |v2| == NUMBER_UNSHIFTED;
    forall i | 0 <= i < NUMBER_UNSHIFTED ensures m[i] == v1[i] + v2[i] {
    }
    DotAdd(v1, v2, m, c, NUMBER_UNSHIFTED);
    DotScale(-unshifted, Powers(rho, 1, 0, NUMBER_UNSHIFTED), v1, c, NUMBER_UNSHIFTED);
    DotScale(-shifted, Powers(rho, 1, NUMBER_UNSHIFTED, NUMBER_TO_BE_SHIFTED), mid, c[27..32], NUMBER_TO_BE_SHIFTED);
    assert c == c[..27] + c[27..32] + c[32..];
    DotConcat(zero27, c[..27], mid, c[27..32], NUMBER_TO_BE_SHIFTED);
    DotConcat(zero27 + mid, c[..27] + c[27..32], zero3, c[32..], 3);
    DotZeros(zero27, c[..27], 27);
    DotZeros(zero3, c[32..], 3);
  }

  lemma {:induction false} DotZeroTail(a: seq<int>, b: seq<int>, m: nat, n: nat)
    requires m <= n <= |a| && n <= |b|
    requires forall i :: m <= i < n ==> a[i] == 0
    ensures Dot(a, b, n) == Dot(a, b, m)
  {
    if m < n {
      DotZeroTail(a, b, m, n - 1);
    }
  }

  /** The weights of round 0 applied to F and G. */
  ghost function Shares(fs: seq<seq<int>>, ch: Challenges, inv: seq<int>, x: int): int
    requires |fs| == NUMBER_UNSHIFTED && |inv| >= 3
  {
    (ch.nu * inv[1] + inv[0]) * Eval(Unshifted(fs, ch.rho), x)
        + inv[2] * (inv[0] - ch.nu * inv[1]) * Eval(ToBeShifted(fs, ch.rho), x)
  }

  /** Round 0 carries the two shares of the committed polynomials. */
  lemma EvalPlus(c: int, f: seq<int>, g: seq<int>, x: int)
    ensures Eval(Add(f, Scale(c, g)), x) == Eval(f, x) + c * Eval(g, x)
  {
    EvalScale(c, g, x);
    EvalAdd(f, Scale(c, g), x);
  }

  /** The polynomials of the Shplonk claims: F + rInv * G in round 0, then the committed folds. */
  ghost function RoundPolys(fs: seq<seq<int>>, folds: seq<seq<int>>, rho: int, rInv: int): (s: seq<seq<int>>)
    requires |fs| == NUMBER_UNSHIFTED
    ensures |s| == |folds| + 1 && forall j :: 0 < j < |s| ==> s[j] == folds[j - 1]
  {
    [Add(Unshifted(fs, rho), Scale(rInv, ToBeShifted(fs, rho)))] + folds
  }

  lemma WeightedRoundZero(logN: nat, fs: seq<seq<int>>, folds: seq<seq<int>>, ch: Challenges, inv: seq<int>, x: int)
    requires logN > 0 && |inv| == BatchSize(logN) && |fs| == NUMBER_UNSHIFTED && |folds| == logN - 1
    ensures Eval(WeightedPolys(ch.nu, PosInverses(logN, inv), NegInverses(logN, inv),
                               RoundPolys(fs, folds, ch.rho, inv[2]), RoundPolys(fs, folds, ch.rho, -inv[2]), 1), x)
         == Shares(fs, ch, inv, x)
  {
    var pos, neg := PosInverses(logN, inv), NegInverses(logN, inv);
    var plus, minus := RoundPolys(fs, folds, ch.rho, inv[2]), RoundPolys(fs, folds, ch.rho, -inv[2]);
    var f, g := Unshifted(fs, ch.rho), ToBeShifted(fs, ch.rho);
    assert WeightedPolys(ch.nu, pos, neg, plus, minus, 0) == [];
    FirstConstant(ch.nu, pos, neg, [0], [0]);
    EvalPlus(inv[2], f, g, x);
    EvalPlus(-inv[2], f, g, x);
    WeightedPolysStep(ch.nu, pos, neg, plus, minus, 0, x);
    SharesOfRoundZero(inv[0], ch.nu * inv[1], inv[2], Eval(f, x), Eval(g, x), PositiveWeight(ch.nu, pos, 0),
                      NegativeWeight(ch.nu, neg, 0), Eval(plus[0], x), Eval(minus[0], x),
                      Eval(WeightedPolys(ch.nu, pos, neg, plus, minus, 1), x));
  }

  lemma SharesOfRoundZero(a: int, b: int, i: int, f: int, g: int, wp: int, wm: int, plus: int, minus: int, total: int)
    requires wp == a && wm == b && plus == f + i * g && minus == f + -i * g
    requires total == wp * plus + wm * minus
    ensures total == (b + a) * f + i * (a - b) * g
  {
  }

  /** The 35 commitments contribute minus the two shares of round 0. */
  lemma CommittedShares(p: Prime, tau: int, logN: nat, fs: seq<seq<int>>, vk: seq<int>, proof: Proof, ch: Challenges,
                        inv: seq<int>)
    requires |vk| == NUMBER_PRECOMPUTED && proof.Valid() && |fs| == NUMBER_UNSHIFTED && |inv| >= 3
    requires CommitTo(p, tau, fs, vk, proof)
    ensures Cong(p, Dot(MergedScalars(ch, inv), vk + proof.witnessComms, NUMBER_UNSHIFTED),
                 -Shares(fs, ch, inv, tau))
  {
    var c, m, e := vk + proof.witnessComms, MergedScalars(ch, inv), EvalAll(fs, tau);
    DotCong(p, m, c, e, NUMBER_UNSHIFTED);
    MergedDot(ch, inv, e);
    EvalBatch(fs, Powers(ch.rho, 1, 0, NUMBER_UNSHIFTED), NUMBER_UNSHIFTED, tau);
    EvalBatch(fs[27..32], Powers(ch.rho, 1, NUMBER_UNSHIFTED, NUMBER_TO_BE_SHIFTED), NUMBER_TO_BE_SHIFTED, tau);
    assert EvalAll(fs[27..32], tau) == e[27..32];
    NegateShares(ch.nu * inv[1] + inv[0], inv[2] * (inv[0] - ch.nu * inv[1]), Eval(Unshifted(fs, ch.rho), tau),
                 Eval(ToBeShifted(fs, ch.rho), tau));
  }

  lemma NegateShares(u: int, s: int, f: int, g: int)
    ensures -u * f + -s * g == -(u * f + s * g)
  {
  }

  /** The fold commitments of the first rounds are those of folds; the others are dummies. */
  ghost predicate FoldsCommitTo(p: Prime, tau: int, folds: seq<seq<int>>, proof: Proof)
    requires proof.Valid() && |folds| < CONST_PROOF_SIZE_LOG_N
  {
    forall i :: 0 <= i < |folds| ==> Cong(p, proof.foldComms[i], Eval(folds[i], tau))
  }

  /** The fold commitments, dummies included, contribute the folds at tau under the fold scalars. */
  lemma CommittedFolds(p: Prime, tau: int, logN: nat, folds: seq<seq<int>>, proof: Proof, ch: Challenges, inv: seq<int>)
    requires 0 < logN <= CONST_PROOF_SIZE_LOG_N && proof.Valid() && |folds| == logN - 1 && |inv| == BatchSize(logN)
    requires FoldsCommitTo(p, tau, folds, proof)
    ensures Cong(p, Dot(FoldScalars(logN, ch, inv), proof.foldComms, CONST_PROOF_SIZE_LOG_N - 1),
                 Dot(FoldScalars(logN, ch, inv), EvalAll(folds, tau), logN - 1))
  {
    DotZeroTail(FoldScalars(logN, ch, inv), proof.foldComms, logN - 1, CONST_PROOF_SIZE_LOG_N - 1);
    DotCong(p, FoldScalars(logN, ch, inv), proof.foldComms, EvalAll(folds, tau), logN - 1);
  }

  lemma RoundWeights(logN: nat, fs: seq<seq<int>>, folds: seq<seq<int>>, ch: Challenges, inv: seq<int>, x: int)
    requires 0 < logN <= CONST_PROOF_SIZE_LOG_N && |inv| == BatchSize(logN)
    requires |fs| == NUMBER_UNSHIFTED && |folds| == logN - 1
    ensures Eval(WeightedPolys(ch.nu, PosInverses(logN, inv), NegInverses(logN, inv),
                               RoundPolys(fs, folds, ch.rho, inv[2]), RoundPolys(fs, folds, ch.rho, -inv[2]), logN), x)
         == Shares(fs, ch, inv, x) - Dot(FoldScalars(logN, ch, inv), EvalAll(folds, x), logN - 1)
  {
    var pos, neg := PosInverses(logN, inv), NegInverses(logN, inv);
    var plus, minus := RoundPolys(fs, folds, ch.rho, inv[2]), RoundPolys(fs, folds, ch.rho, -inv[2]);
    var scalars := FoldScalars(logN, ch, inv);
    WeightedRoundZero(logN, fs, folds, ch, inv, x);
    forall j | 0 < j < logN
      ensures scalars[j - 1] == -(PositiveWeight(ch.nu, pos, j) + NegativeWeight(ch.nu, neg, j))
    {
      assert scalars[j - 1] == FoldScalar(logN, ch.nu, pos, neg, j - 1);
    }
    WeightedFolds(ch.nu, pos, neg, plus, minus, scalars, EvalAll(folds, x), x, logN);
  }

  /** The polynomial whose vanishing at z the KZG quotient proves: q - weighted polynomials + constant. */
  ghost function OpeningPoly(logN: nat, fs: seq<seq<int>>, folds: seq<seq<int>>, q: seq<int>, ch: Challenges,
                             inv: seq<int>, constant: int): seq<int>
    requires 0 < logN && |inv| == BatchSize(logN) && |fs| == NUMBER_UNSHIFTED && |folds| == logN - 1
  {
    Add(q, Add(Scale(-1, WeightedPolys(ch.nu, PosInverses(logN, inv), NegInverses(logN, inv),
                                       RoundPolys(fs, folds, ch.rho, inv[2]),
                                       RoundPolys(fs, folds, ch.rho, -inv[2]), logN)),
               [constant]))
  }

  /** Its value, from the values of its ingredients. */
  ghost function OpeningParts(logN: nat, fs: seq<seq<int>>, folds: seq<seq<int>>, q: seq<int>, ch: Challenges,
                              inv: seq<int>, constant: int, x: int): int
    requires 0 < logN <= CONST_PROOF_SIZE_LOG_N && |inv| == BatchSize(logN)
    requires |fs| == NUMBER_UNSHIFTED && |folds| == logN - 1
  {
    Eval(q, x) - (Shares(fs, ch, inv, x) - Dot(FoldScalars(logN, ch, inv), EvalAll(folds, x), logN - 1)) + constant
  }

  lemma EvalOpeningPoly(logN: nat, fs: seq<seq<int>>, folds: seq<seq<int>>, q: seq<int>, ch: Challenges, inv: seq<int>,
                        constant: int, x: int)
    requires 0 < logN <= CONST_PROOF_SIZE_LOG_N && |inv| == BatchSize(logN)
    requires |fs| == NUMBER_UNSHIFTED && |folds| == logN - 1
    ensures Eval(OpeningPoly(logN, fs, folds, q, ch, inv, constant), x)
         == OpeningParts(logN, fs, folds, q, ch, inv, constant, x)
  {
    RoundWeights(logN, fs, folds, ch, inv, x);
    EvalDifference(q, WeightedPolys(ch.nu, PosInverses(logN, inv), NegInverses(logN, inv),
                                    RoundPolys(fs, folds, ch.rho, inv[2]), RoundPolys(fs, folds, ch.rho, -inv[2]),
                                    logN),
                   constant, x);
    SameParts(Eval(OpeningPoly(logN, fs, folds, q, ch, inv, constant), x), Eval(q, x),
              Shares(fs, ch, inv, x) - Dot(FoldScalars(logN, ch, inv), EvalAll(folds, x), logN - 1), constant,
              OpeningParts(logN, fs, folds, q, ch, inv, constant, x));
  }

  lemma SameParts(opening: int, quotient: int, weighted: int, constant: int, parts: int)
    requires opening == quotient - weighted + constant && parts == quotient - weighted + constant
    ensures opening == parts
  {
  }

  /** What the commitments of the verifying key, the witness and the folds contribute. */
  ghost function CommittedPart(logN: nat, vk: seq<int>, proof: Proof, ch: Challenges, inv: seq<int>): int
    requires 0 < logN <= CONST_PROOF_SIZE_LOG_N && |vk| == NUMBER_PRECOMPUTED && proof.Valid()
    requires |inv| == BatchSize(logN)
  {
    Dot(MergedScalars(ch, inv), vk + proof.witnessComms, NUMBER_UNSHIFTED)
    + Dot(FoldScalars(logN, ch, inv), proof.foldComms, CONST_PROOF_SIZE_LOG_N - 1)
  }

  /** All commitments of an opening are those of given polynomials. */
  ghost predicate Commits(p: Prime, tau: int, fs: seq<seq<int>>, folds: seq<seq<int>>, q: seq<int>, vk: seq<int>,
                          proof: Proof)
    requires |vk| == NUMBER_PRECOMPUTED && proof.Valid() && |fs| == NUMBER_UNSHIFTED
    requires |folds| < CONST_PROOF_SIZE_LOG_N
  {
    CommitTo(p, tau, fs, vk, proof) && FoldsCommitTo(p, tau, folds, proof) && Cong(p, proof.shplonkQ, Eval(q, tau))
  }

  lemma CommittedSum(p: Prime, tau: int, logN: nat, fs: seq<seq<int>>, folds: seq<seq<int>>, q: seq<int>, vk: seq<int>,
                     proof: Proof, ch: Challenges, inv: seq<int>)
    requires 0 < logN <= CONST_PROOF_SIZE_LOG_N && |vk| == NUMBER_PRECOMPUTED && proof.Valid()
    requires |fs| == NUMBER_UNSHIFTED && |folds| == logN - 1 && |inv| == BatchSize(logN)
    requires Commits(p, tau, fs, folds, q, vk, proof)
    ensures Cong(p, CommittedPart(logN, vk, proof, ch, inv),
                 -Shares(fs, ch, inv, tau) + Dot(FoldScalars(logN, ch, inv), EvalAll(folds, tau), logN - 1))
  {
    CommittedShares(p, tau, logN, fs, vk, proof, ch, inv);
    CommittedFolds(p, tau, logN, folds, proof, ch, inv);
    CongAdd(p, Dot(MergedScalars(ch, inv), vk + proof.witnessComms, NUMBER_UNSHIFTED), -Shares(fs, ch, inv, tau),
            Dot(FoldScalars(logN, ch, inv), proof.foldComms, CONST_PROOF_SIZE_LOG_N - 1),
            Dot(FoldScalars(logN, ch, inv), EvalAll(folds, tau), logN - 1));
  }

  lemma MsmParts(logN: nat, vk: seq<int>, proof: Proof, ch: Challenges, inv: seq<int>, constant: int)
    requires 0 < logN <= CONST_PROOF_SIZE_LOG_N && |vk| == NUMBER_PRECOMPUTED && proof.Valid()
    requires |inv| == BatchSize(logN)
    ensures Dot(Scalars(logN, ch, inv, constant), Commitments(vk, proof), TOTAL)
         == proof.shplonkQ + CommittedPart(logN, vk, proof, ch, inv) + constant + ch.z * proof.kzgQuotient
  {
    MsmSplits(logN, vk, proof, ch, inv, constant);
  }

  lemma OpeningSum(p: Prime, tau: int, logN: nat, fs: seq<seq<int>>, folds: seq<seq<int>>, q: seq<int>, vk: seq<int>,
                   proof: Proof, ch: Challenges, inv: seq<int>, constant: int)
    requires 0 < logN <= CONST_PROOF_SIZE_LOG_N && |vk| == NUMBER_PRECOMPUTED && proof.Valid()
    requires |fs| == NUMBER_UNSHIFTED && |folds| == logN - 1 && |inv| == BatchSize(logN)
    requires Commits(p, tau, fs, folds, q, vk, proof)
    ensures Cong(p, proof.shplonkQ + CommittedPart(logN, vk, proof, ch, inv) + constant,
                 OpeningParts(logN, fs, folds, q, ch, inv, constant, tau))
  {
    CommittedSum(p, tau, logN, fs, folds, q, vk, proof, ch, inv);
    AddUp(p, proof.shplonkQ, Eval(q, tau), CommittedPart(logN, vk, proof, ch, inv), Shares(fs, ch, inv, tau),
          Dot(FoldScalars(logN, ch, inv), EvalAll(folds, tau), logN - 1), constant,
          OpeningParts(logN, fs, folds, q, ch, inv, constant, tau));
  }

  lemma AddUp(p: Prime, q: int, q': int, m: int, s: int, f: int, c: int, whole: int)
    requires Cong(p, q, q') && Cong(p, m, -s + f) && whole == q' - (s - f) + c
    ensures Cong(p, q + m + c, whole)
  {
    CongAdd(p, q, q', m, -s + f);
    CongRefl(p, c);
    CongAdd(p, q + m, q' + (-s + f), c, c);
  }

  /** The multi-scalar multiplication is the opening polynomial at tau plus z times the KZG commitment, for
      any committed polynomials. */
  lemma MsmIsOpening(p: Prime, tau: int, logN: nat, fs: seq<seq<int>>, folds: seq<seq<int>>, q: seq<int>, vk: seq<int>,
                     proof: Proof, ch: Challenges, inv: seq<int>, constant: int)
    requires 0 < logN <= CONST_PROOF_SIZE_LOG_N && |vk| == NUMBER_PRECOMPUTED && proof.Valid()
    requires |fs| == NUMBER_UNSHIFTED && |folds| == logN - 1 && |inv| == BatchSize(logN)
    requires Commits(p, tau, fs, folds, q, vk, proof)
    ensures Cong(p, Dot(Scalars(logN, ch, inv, constant), Commitments(vk, proof), TOTAL),
                 Eval(OpeningPoly(logN, fs, folds, q, ch, inv, constant), tau) + ch.z * proof.kzgQuotient)
  {
    MsmParts(logN, vk, proof, ch, inv, constant);
    OpeningSum(p, tau, logN, fs, folds, q, vk, proof, ch, inv, constant);
    EvalOpeningPoly(logN, fs, folds, q, ch, inv, constant, tau);
    CongRefl(p, ch.z * proof.kzgQuotient);
    CongAdd(p, proof.shplonkQ + CommittedPart(logN, vk, proof, ch, inv) + constant,
            OpeningParts(logN, fs, folds, q, ch, inv, constant, tau),
            ch.z * proof.kzgQuotient, ch.z * proof.kzgQuotient);
  }
}
