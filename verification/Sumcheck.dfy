/** The sumcheck verifier, and what its verdict means for the polynomial it talks about. */
module Sumcheck {
  import opened PrimeField
  import opened Polynomials
  import opened Barycentric
  import opened ProofShape
  import opened Results

  // ----- polynomials in several variables

  /** A polynomial: a constant, or one in its first variable with polynomials in the others as coefficients. */
  datatype MultiPoly = Constant(c: int) | InFirst(coeffs: seq<MultiPoly>)

  /** n variables, degree at most 7 in each. */
  ghost predicate HasShape(g: MultiPoly, n: nat) {
    match g
    case Constant(_) => n == 0
    case InFirst(cs) => n > 0 && |cs| <= BATCHED_RELATION_PARTIAL_LENGTH && AllHaveShape(cs, n - 1)
  }

  ghost predicate AllHaveShape(gs: seq<MultiPoly>, n: nat) {
    gs == [] || (HasShape(gs[0], n) && AllHaveShape(gs[1..], n))
  }

  ghost function EvalAt(g: MultiPoly, point: seq<int>): int
    requires HasShape(g, |point|)
  {
    match g
    case Constant(c) => c
    case InFirst(cs) => Eval(EvalsAt(cs, point[1..]), point[0])
  }

  ghost function EvalsAt(gs: seq<MultiPoly>, point: seq<int>): seq<int>
    requires AllHaveShape(gs, |point|)
  {
    if gs == [] then [] else [EvalAt(gs[0], point)] + EvalsAt(gs[1..], point)
  }

  /** The sum of g over all corners of the hypercube that extend the given prefix. */
  ghost function CubeSum(g: MultiPoly, n: nat, prefix: seq<int>): int
    requires HasShape(g, n) && |prefix| <= n
    decreases n - |prefix|
  {
    if |prefix| == n then EvalAt(g, prefix)
    else CubeSum(g, n, prefix + [0]) + CubeSum(g, n, prefix + [1])
  }

  /** The same sum by recursion on the polynomial. */
  ghost function PartialSum(g: MultiPoly, n: nat, prefix: seq<int>): int
    requires HasShape(g, n) && |prefix| <= n
  {
    match g
    case Constant(c) => c
    case InFirst(cs) =>
      if prefix == [] then
        var s := PartialSums(cs, n - 1, []);
        Eval(s, 0) + Eval(s, 1)
      else Eval(PartialSums(cs, n - 1, prefix[1..]), prefix[0])
  }

  ghost function PartialSums(gs: seq<MultiPoly>, n: nat, prefix: seq<int>): seq<int>
    requires AllHaveShape(gs, n) && |prefix| <= n
  {
    if gs == [] then [] else [PartialSum(gs[0], n, prefix)] + PartialSums(gs[1..], n, prefix)
  }

  /** Fixing the next variable to 0 and to 1 splits the sum. */
  lemma {:induction false} SumSplits(g: MultiPoly, n: nat, prefix: seq<int>)
    requires HasShape(g, n) && |prefix| < n
    ensures PartialSum(g, n, prefix) == PartialSum(g, n, prefix + [0]) + PartialSum(g, n, prefix + [1])
    decreases g
  {
    if prefix == [] {
      assert forall b :: (prefix + [b])[1..] == [];
    } else {
      assert forall b :: (prefix + [b])[1..] == prefix[1..] + [b];
      SumsSplit(g.coeffs, n - 1, prefix[1..], prefix[0]);
    }
  }

  lemma {:induction false} SumsSplit(gs: seq<MultiPoly>, n: nat, prefix: seq<int>, x: int)
    requires AllHaveShape(gs, n) && |prefix| < n
    ensures Eval(PartialSums(gs, n, prefix), x) == Eval(PartialSums(gs, n, prefix + [0]), x)
            + Eval(PartialSums(gs, n, prefix + [1]), x)
    decreases gs
  {
    if gs != [] {
      SumSplits(gs[0], n, prefix);
      SumsSplit(gs[1..], n, prefix, x);
      var a, b, c := Eval(PartialSums(gs[1..], n, prefix), x), Eval(PartialSums(gs[1..], n, prefix + [0]), x),
          Eval(PartialSums(gs[1..], n, prefix + [1]), x);
      assert x * a == x * b + x * c;
    }
  }

  lemma {:induction false} FullPrefixEvaluates(g: MultiPoly, point: seq<int>)
    requires HasShape(g, |point|)
    ensures PartialSum(g, |point|, point) == EvalAt(g, point)
    decreases g
  {
    if g.InFirst? {
      FullPrefixesEvaluate(g.coeffs, point[1..]);
    }
  }

  lemma {:induction false} FullPrefixesEvaluate(gs: seq<MultiPoly>, point: seq<int>)
    requires AllHaveShape(gs, |point|)
    ensures PartialSums(gs, |point|, point) == EvalsAt(gs, point)
    decreases gs
  {
    if gs != [] {
      FullPrefixEvaluates(gs[0], point);
      FullPrefixesEvaluate(gs[1..], point);
    }
  }

  lemma {:induction false} PartialSumIsCubeSum(g: MultiPoly, n: nat, prefix: seq<int>)
    requires HasShape(g, n) && |prefix| <= n
    ensures PartialSum(g, n, prefix) == CubeSum(g, n, prefix)
    decreases n - |prefix|
  {
    if |prefix| == n {
      FullPrefixEvaluates(g, prefix);
    } else {
      SumSplits(g, n, prefix);
      PartialSumIsCubeSum(g, n, prefix + [0]);
      PartialSumIsCubeSum(g, n, prefix + [1]);
    }
  }

  // ----- the true round polynomials

  function Combine(fs: seq<seq<int>>, x: int): seq<int> {
    if fs == [] then [] else Add(fs[0], Scale(x, Combine(fs[1..], x)))
  }

  /** Coefficients of X -> the sum with the prefix followed by X. */
  ghost function RoundPoly(g: MultiPoly, n: nat, prefix: seq<int>): seq<int>
    requires HasShape(g, n) && |prefix| < n
  {
    if prefix == [] then PartialSums(g.coeffs, n - 1, [])
    else Combine(RoundPolys(g.coeffs, n - 1, prefix[1..]), prefix[0])
  }

  ghost function RoundPolys(gs: seq<MultiPoly>, n: nat, prefix: seq<int>): seq<seq<int>>
    requires AllHaveShape(gs, n) && |prefix| < n
  {
    if gs == [] then [] else [RoundPoly(gs[0], n, prefix)] + RoundPolys(gs[1..], n, prefix)
  }

  lemma {:induction false} PartialSumsLength(gs: seq<MultiPoly>, n: nat, prefix: seq<int>)
    requires AllHaveShape(gs, n) && |prefix| <= n
    ensures |PartialSums(gs, n, prefix)| == |gs|
  {
    if gs != [] {
      PartialSumsLength(gs[1..], n, prefix);
    }
  }

  lemma {:induction false} RoundPolyIsPartialSum(g: MultiPoly, n: nat, prefix: seq<int>, x: int)
    requires HasShape(g, n) && |prefix| < n
    ensures Eval(RoundPoly(g, n, prefix), x) == PartialSum(g, n, prefix + [x])
    ensures |RoundPoly(g, n, prefix)| <= 8
    decreases g
  {
    if prefix == [] {
      assert (prefix + [x])[1..] == [];
      PartialSumsLength(g.coeffs, n - 1, []);
    } else {
      assert (prefix + [x])[1..] == prefix[1..] + [x];
      RoundPolysArePartialSums(g.coeffs, n - 1, prefix[1..], prefix[0], x);
    }
  }

  lemma {:induction false} RoundPolysArePartialSums(gs: seq<MultiPoly>, n: nat, prefix: seq<int>, y: int, x: int)
    requires AllHaveShape(gs, n) && |prefix| < n
    ensures Eval(Combine(RoundPolys(gs, n, prefix), y), x) == Eval(PartialSums(gs, n, prefix + [x]), y)
    ensures |Combine(RoundPolys(gs, n, prefix), y)| <= 8
    decreases gs
  {
    if gs != [] {
      RoundPolyIsPartialSum(gs[0], n, prefix, x);
      RoundPolysArePartialSums(gs[1..], n, prefix, y, x);
      var rest := Combine(RoundPolys(gs[1..], n, prefix), y);
      assert RoundPolys(gs, n, prefix)[1..] == RoundPolys(gs[1..], n, prefix);
      EvalScale(y, rest, x);
      EvalAdd(RoundPoly(gs[0], n, prefix), Scale(y, rest), x);
      assert PartialSums(gs, n, prefix + [x])[1..] == PartialSums(gs[1..], n, prefix + [x]);
    }
  }

  // ----- the verifier

  function CheckSum(p: Prime, univariate: seq<int>, target: int): bool
    requires |univariate| >= 2
  {
    Cong(p, univariate[0] + univariate[1], target)
  }

  function PartiallyEvaluatePow(gateChallenge: int, pow: int, roundChallenge: int): int {
    pow * (1 + roundChallenge * (gateChallenge - 1))
  }

  ghost predicate AreUnivariates(unis: seq<seq<int>>, n: nat) {
    n <= |unis| && forall i :: 0 <= i < n ==> |unis[i]| == BATCHED_RELATION_PARTIAL_LENGTH
  }

  /** What round i must sum to. */
  ghost function RoundTarget(p: Prime, unis: seq<seq<int>>, us: seq<int>, i: nat): int
    requires p > 7 && AreUnivariates(unis, i) && i <= |us|
  {
    if i == 0 then 0 else Eval(Interpolant(p, unis[i - 1]), us[i - 1])
  }

  ghost predicate RoundPasses(p: Prime, unis: seq<seq<int>>, us: seq<int>, i: nat)
    requires p > 7 && AreUnivariates(unis, i + 1) && i < |us|
  {
    Cong(p, unis[i][0] + unis[i][1], RoundTarget(p, unis, us, i))
  }

  /** Every round's sum meets its target. */
  ghost predicate AllPass(p: Prime, unis: seq<seq<int>>, us: seq<int>, n: nat)
    requires p > 7 && AreUnivariates(unis, n) && n <= |us|
  {
    forall i :: 0 <= i < n ==> RoundPasses(p, unis, us, i)
  }

  function GateSeparator(betas: seq<int>, us: seq<int>, n: nat): int
    requires n <= |betas| && n <= |us|
  {
    if n == 0 then 1 else GateSeparator(betas, us, n - 1) * (1 + us[n - 1] * (betas[n - 1] - 1))
  }

  /** All rounds pass and the relation value at the challenges meets the last target. */
  ghost predicate Accepts(p: Prime, unis: seq<seq<int>>, us: seq<int>, n: nat, relationValue: int)
    requires p > 7 && AreUnivariates(unis, n) && n <= |us|
  {
    AllPass(p, unis, us, n) && Cong(p, relationValue, RoundTarget(p, unis, us, n))
  }

  /** One turn of the loop: the check of the round's sum, then the next target. */
  method RunRound(p: Prime, unis: seq<seq<int>>, us: seq<int>, round: nat, target: int)
      returns (passed: bool, next: int)
    requires p > 7 && round < |unis| && round < |us| && AreUnivariates(unis, round + 1)
    requires Cong(p, target, RoundTarget(p, unis, us, round))
    ensures passed <==> RoundPasses(p, unis, us, round)
    ensures passed ==> Cong(p, next, RoundTarget(p, unis, us, round + 1))
  {
    CongOnRight(p, unis[round][0] + unis[round][1], target, RoundTarget(p, unis, us, round));
    passed, next := CheckSum(p, unis[round], target), target;
    if passed {
      var computed := ComputeNextTargetSum(p, unis[round], us[round]);
      next := computed.value;
    }
  }

  /** The loop over the rounds, which stops at the first failure. */
  method RunRounds(p: Prime, logN: nat, unis: seq<seq<int>>, us: seq<int>, betas: seq<int>)
      returns (passed: bool, target: int, pow: int)
    requires p > 7 && AreUnivariates(unis, logN) && logN <= |us| && logN <= |betas|
    ensures passed <==> AllPass(p, unis, us, logN)
    ensures passed ==> Cong(p, target, RoundTarget(p, unis, us, logN)) && pow == GateSeparator(betas, us, logN)
  {
    passed, target, pow := true, 0, 1;
    CongRefl(p, 0);
    for round := 0 to logN
      invariant Cong(p, target, RoundTarget(p, unis, us, round))
      invariant pow == GateSeparator(betas, us, round)
      invariant passed && AllPass(p, unis, us, round)
    {
      passed, target := RunRound(p, unis, us, round, target);
      if !passed {
        return;
      }
      pow := PartiallyEvaluatePow(betas[round], pow, us[round]);
    }
  }

  /** `relation` is the batched value of all subrelations at the claimed evaluations, given the gate separator. */
  method VerifySumcheck(p: Prime, logN: nat, unis: seq<seq<int>>, us: seq<int>, betas: seq<int>, relation: int -> int)
      returns (r: Outcome)
    requires p > 7 && AreUnivariates(unis, CONST_PROOF_SIZE_LOG_N)
    requires |us| == |betas| == CONST_PROOF_SIZE_LOG_N
    ensures r == Fail("sumcheck: log_circuit_size out of range") <==> logN == 0 || logN > 28
    ensures 0 < logN <= CONST_PROOF_SIZE_LOG_N ==>
      && (r.Pass? <==> Accepts(p, unis, us, logN, relation(GateSeparator(betas, us, logN))))
      && (r == Fail("round failed") <==> !AllPass(p, unis, us, logN))
  {
    if logN == 0 || logN > CONST_PROOF_SIZE_LOG_N {
      return Fail("sumcheck: log_circuit_size out of range");
    }
    var passed, target, pow := RunRounds(p, logN, unis, us, betas);
    if !passed {
      return Fail("round failed");
    }
    CongOnRight(p, relation(pow), target, RoundTarget(p, unis, us, logN));
    if Cong(p, relation(pow), target) {
      return Pass;
    } else {
      return Fail("sumcheck final mismatch");
    }
  }

  lemma CongOnRight(p: Prime, a: int, b: int, c: int)
    requires Cong(p, b, c)
    ensures Cong(p, a, b) <==> Cong(p, a, c)
  {
    CongSym(p, b, c);
    if Cong(p, a, b) {
      CongTrans(p, a, b, c);
    }
    if Cong(p, a, c) {
      CongTrans(p, a, c, b);
    }
  }

  // ----- soundness

  /** The univariate sent in round |prefix| is not the true one. */
  ghost predicate Cheats(p: Prime, g: MultiPoly, n: nat, prefix: seq<int>, univariate: seq<int>)
    requires HasShape(g, n) && |prefix| < n && |univariate| == 8
  {
    exists k :: 0 <= k < 8 && !Cong(p, univariate[k], PartialSum(g, n, prefix + [k]))
  }

  /** Yet it takes the true value at x. */
  ghost predicate Fools(p: Prime, g: MultiPoly, n: nat, prefix: seq<int>, univariate: seq<int>, x: int)
    requires p > 7 && HasShape(g, n) && |prefix| < n && |univariate| == 8
  {
    Cong(p, Eval(Interpolant(p, univariate), x), PartialSum(g, n, prefix + [x]))
  }

  /** The target of round i is right. */
  ghost predicate OnTrack(p: Prime, g: MultiPoly, n: nat, unis: seq<seq<int>>, us: seq<int>, i: nat)
    requires p > 7 && HasShape(g, n) && AreUnivariates(unis, n) && n <= |us| && i <= n
  {
    Cong(p, RoundTarget(p, unis, us, i), PartialSum(g, n, us[..i]))
  }

  lemma {:induction false} FirstRecovery(p: Prime, g: MultiPoly, n: nat, unis: seq<seq<int>>, us: seq<int>, m: nat)
    returns (i: nat)
    requires p > 7 && HasShape(g, n) && AreUnivariates(unis, n) && n <= |us| && m <= n
    requires !OnTrack(p, g, n, unis, us, 0) && OnTrack(p, g, n, unis, us, m)
    ensures i < n && !OnTrack(p, g, n, unis, us, i) && OnTrack(p, g, n, unis, us, i + 1)
  {
    if OnTrack(p, g, n, unis, us, m - 1) {
      i := FirstRecovery(p, g, n, unis, us, m - 1);
    } else {
      i := m - 1;
    }
  }

  /** An accepted run on a polynomial whose hypercube sum is not zero, ending in its true value, contains a
      round whose univariate is false and is fooled by that round's challenge. */
  lemma SumcheckSoundness(p: Prime, g: MultiPoly, n: nat, unis: seq<seq<int>>, us: seq<int>, relationValue: int)
    returns (i: nat)
    requires p > 7 && HasShape(g, n) && AreUnivariates(unis, n) && n <= |us|
    requires Accepts(p, unis, us, n, relationValue)
    requires Cong(p, relationValue, EvalAt(g, us[..n]))
    requires !Cong(p, CubeSum(g, n, []), 0)
    ensures i < n
    ensures Cheats(p, g, n, us[..i], unis[i]) && Fools(p, g, n, us[..i], unis[i], us[i])
  {
    PartialSumIsCubeSum(g, n, []);
    FullPrefixEvaluates(g, us[..n]);
    assert us[..0] == [];
    CongSym(p, relationValue, RoundTarget(p, unis, us, n));
    CongTrans(p, RoundTarget(p, unis, us, n), relationValue, EvalAt(g, us[..n]));
    if OnTrack(p, g, n, unis, us, 0) {
      CongSym(p, 0, PartialSum(g, n, []));
      assert false;
    }
    i := FirstRecovery(p, g, n, unis, us, n);
    var prefix := us[..i];
    assert us[..i + 1] == prefix + [us[i]];
    if !Cheats(p, g, n, prefix, unis[i]) {
      TrueUnivariateStaysOnTrack(p, g, n, unis, us, i);
      assert false;
    }
  }

  /** A round that passes with true values at 0 and 1 had the right target. */
  lemma TrueUnivariateStaysOnTrack(p: Prime, g: MultiPoly, n: nat, unis: seq<seq<int>>, us: seq<int>, i: nat)
    requires p > 7 && HasShape(g, n) && AreUnivariates(unis, n) && n <= |us| && i < n
    requires RoundPasses(p, unis, us, i) && !Cheats(p, g, n, us[..i], unis[i])
    ensures OnTrack(p, g, n, unis, us, i)
  {
    var prefix := us[..i];
    SumSplits(g, n, prefix);
    assert Cong(p, unis[i][0], PartialSum(g, n, prefix + [0]));
    assert Cong(p, unis[i][1], PartialSum(g, n, prefix + [1]));
    CongAdd(p, unis[i][0], PartialSum(g, n, prefix + [0]), unis[i][1], PartialSum(g, n, prefix + [1]));
    CongSym(p, unis[i][0] + unis[i][1], RoundTarget(p, unis, us, i));
    CongTrans(p, RoundTarget(p, unis, us, i), unis[i][0] + unis[i][1], PartialSum(g, n, prefix));
  }

  /** A false univariate is fooled by at most 7 of the p challenges. */
  lemma FewChallengesFool(p: Prime, g: MultiPoly, n: nat, prefix: seq<int>, univariate: seq<int>, bad: set<int>)
    requires p > 7 && HasShape(g, n) && |prefix| < n && |univariate| == 8
    requires Cheats(p, g, n, prefix, univariate)
    requires forall x :: x in bad ==> 0 <= x < p && Fools(p, g, n, prefix, univariate, x)
    ensures |bad| <= 7
  {
    var f, h := Interpolant(p, univariate), RoundPoly(g, n, prefix);
    var k :| 0 <= k < 8 && !Cong(p, univariate[k], PartialSum(g, n, prefix + [k]));
    RoundPolyIsPartialSum(g, n, prefix, k);
    if Cong(p, Eval(f, k), Eval(h, k)) {
      CongSym(p, Eval(f, k), univariate[k]);
      CongTrans(p, univariate[k], Eval(f, k), Eval(h, k));
      assert false;
    }
    forall x | x in bad ensures 0 <= x < p && Cong(p, Eval(f, x), Eval(h, x)) {
      RoundPolyIsPartialSum(g, n, prefix, x);
    }
    DistinctPolynomialsAgreeRarely(p, f, h, 8, k, bad);
  }

  // ----- completeness

  ghost predicate HonestUnivariates(p: Prime, g: MultiPoly, n: nat, unis: seq<seq<int>>, us: seq<int>)
    requires p > 7 && HasShape(g, n) && AreUnivariates(unis, n) && n <= |us|
  {
    forall i, k :: 0 <= i < n && 0 <= k < 8 ==> Cong(p, unis[i][k], PartialSum(g, n, us[..i] + [k]))
  }

  /** Honest univariates keep every target right, whatever the challenges. */
  lemma HonestStaysOnTrack(p: Prime, g: MultiPoly, n: nat, unis: seq<seq<int>>, us: seq<int>, i: nat)
    requires p > 7 && HasShape(g, n) && AreUnivariates(unis, n) && n <= |us| && i <= n
    requires HonestUnivariates(p, g, n, unis, us)
    requires Cong(p, CubeSum(g, n, []), 0)
    ensures OnTrack(p, g, n, unis, us, i)
  {
    if i == 0 {
      PartialSumIsCubeSum(g, n, []);
      assert us[..0] == [];
      CongSym(p, CubeSum(g, n, []), 0);
    } else {
      var prefix, ys := us[..i - 1], unis[i - 1];
      var h := RoundPoly(g, n, prefix);
      forall k | 0 <= k < 8 ensures Cong(p, Eval(h, k), ys[k]) {
        RoundPolyIsPartialSum(g, n, prefix, k);
        CongSym(p, ys[k], PartialSum(g, n, prefix + [k]));
      }
      RoundPolyIsPartialSum(g, n, prefix, us[i - 1]);
      ThroughIsUnique(p, Interpolant(p, ys), h, ys, us[i - 1]);
      assert us[..i] == prefix + [us[i - 1]];
    }
  }

  lemma HonestRoundPasses(p: Prime, g: MultiPoly, n: nat, unis: seq<seq<int>>, us: seq<int>, i: nat)
    requires p > 7 && HasShape(g, n) && AreUnivariates(unis, n) && n <= |us|
    requires HonestUnivariates(p, g, n, unis, us)
    requires Cong(p, CubeSum(g, n, []), 0) && i < n
    ensures RoundPasses(p, unis, us, i)
  {
    var prefix := us[..i];
    HonestStaysOnTrack(p, g, n, unis, us, i);
    SumSplits(g, n, prefix);
    assert Cong(p, unis[i][0], PartialSum(g, n, prefix + [0]));
    assert Cong(p, unis[i][1], PartialSum(g, n, prefix + [1]));
    CongAdd(p, unis[i][0], PartialSum(g, n, prefix + [0]), unis[i][1], PartialSum(g, n, prefix + [1]));
    CongOnRight(p, unis[i][0] + unis[i][1], RoundTarget(p, unis, us, i), PartialSum(g, n, prefix));
  }

  /** For a polynomial that sums to zero, the honest run is accepted at every choice of challenges. */
  lemma SumcheckCompleteness(p: Prime, g: MultiPoly, n: nat, unis: seq<seq<int>>, us: seq<int>, relationValue: int)
    requires p > 7 && HasShape(g, n) && AreUnivariates(unis, n) && n <= |us|
    requires HonestUnivariates(p, g, n, unis, us)
    requires Cong(p, CubeSum(g, n, []), 0)
    requires Cong(p, relationValue, EvalAt(g, us[..n]))
    ensures Accepts(p, unis, us, n, relationValue)
  {
    forall i | 0 <= i < n ensures RoundPasses(p, unis, us, i) {
      HonestRoundPasses(p, g, n, unis, us, i);
    }
    HonestStaysOnTrack(p, g, n, unis, us, n);
    FullPrefixEvaluates(g, us[..n]);
    CongOnRight(p, relationValue, RoundTarget(p, unis, us, n), EvalAt(g, us[..n]));
  }

  /** Running the verifier on the honest univariates of a polynomial whose relation value is its own at the
      challenges: it passes, for every number of rounds and all challenges. */
  method VerifyHonestSumcheck(p: Prime, logN: nat, unis: seq<seq<int>>, us: seq<int>, betas: seq<int>,
                              relation: int -> int, ghost g: MultiPoly) returns (r: Outcome)
    requires p > 7 && 0 < logN <= CONST_PROOF_SIZE_LOG_N && AreUnivariates(unis, CONST_PROOF_SIZE_LOG_N)
    requires |us| == |betas| == CONST_PROOF_SIZE_LOG_N
    requires HasShape(g, logN) && HonestUnivariates(p, g, logN, unis, us) && Cong(p, CubeSum(g, logN, []), 0)
    requires Cong(p, relation(GateSeparator(betas, us, logN)), EvalAt(g, us[..logN]))
    ensures r.Pass?
  {
    SumcheckCompleteness(p, g, logN, unis, us, relation(GateSeparator(betas, us, logN)));
    r := VerifySumcheck(p, logN, unis, us, betas, relation);
  }

  // ----- the gate separator

  /** Multilinear interpolation of h, given on the corners of the cube, at us. */
  ghost function Multilinear(h: seq<bool> -> int, us: seq<int>, corner: seq<bool>): int
    requires |corner| <= |us|
    decreases |us| - |corner|
  {
    if |corner| == |us| then h(corner)
    else (1 - us[|corner|]) * Multilinear(h, us, corner + [false]) + us[|corner|] * Multilinear(h, us, corner + [true])
  }

  /** The product of the betas selected by a corner. */
  ghost function Selected(betas: seq<int>, corner: seq<bool>): int {
    if corner == [] || |betas| < |corner| then 1
    else Selected(betas, corner[..|corner| - 1]) * (if corner[|corner| - 1] then betas[|corner| - 1] else 1)
  }

  ghost function SeparatorFrom(betas: seq<int>, us: seq<int>, i: nat): int
    requires i <= |us| == |betas|
    decreases |us| - i
  {
    if i == |us| then 1 else (1 + us[i] * (betas[i] - 1)) * SeparatorFrom(betas, us, i + 1)
  }

  lemma {:induction false} SeparatorSplits(betas: seq<int>, us: seq<int>, i: nat)
    requires i <= |us| == |betas|
    ensures GateSeparator(betas, us, |us|) == GateSeparator(betas, us, i) * SeparatorFrom(betas, us, i)
    decreases |us| - i
  {
    if i < |us| {
      SeparatorSplits(betas, us, i + 1);
      var a, b, c := GateSeparator(betas, us, i), 1 + us[i] * (betas[i] - 1), SeparatorFrom(betas, us, i + 1);
      assert a * b * c == a * (b * c);
    }
  }

  lemma {:induction false} MultilinearSelected(betas: seq<int>, us: seq<int>, corner: seq<bool>)
    requires |corner| <= |us| == |betas|
    ensures Multilinear(b => Selected(betas, b), us, corner)
            == Selected(betas, corner) * SeparatorFrom(betas, us, |corner|)
    decreases |us| - |corner|
  {
    if |corner| < |us| {
      var i := |corner|;
      MultilinearSelected(betas, us, corner + [false]);
      MultilinearSelected(betas, us, corner + [true]);
      assert (corner + [false])[..i] == corner == (corner + [true])[..i];
      var s, t, u, b := Selected(betas, corner), SeparatorFrom(betas, us, i + 1), us[i], betas[i];
      BothCorners(s, t, u, b);
    }
  }

  lemma BothCorners(s: int, t: int, u: int, b: int)
    ensures (1 - u) * (s * 1 * t) + u * (s * b * t) == s * ((1 + u * (b - 1)) * t)
  {
  }

  /** The running product is the multilinear extension of corner -> product of its betas. */
  lemma GateSeparatorIsMultilinearExtension(betas: seq<int>, us: seq<int>)
    requires |us| == |betas|
    ensures GateSeparator(betas, us, |us|) == Multilinear(b => Selected(betas, b), us, [])
  {
    SeparatorSplits(betas, us, 0);
    MultilinearSelected(betas, us, []);
  }
}
