/** The Shplemini batch-opening verifier: Gemini folding, Shplonk batching and one KZG check.

    A point of G1 is modelled by its discrete logarithm to the generator, so the commitment to a
    polynomial is its value at the secret point tau, a multi-scalar multiplication is a dot product and
    the pairing check on (P0, -W) says P0 == tau * W. */
module Shplemini {
  import opened PrimeField
  import opened Sums
  import opened ProofShape
  import opened BatchInversion
  import opened Gemini
  import opened Shplonk
  import opened Results

  const NUMBER_UNSHIFTED := 35
  const NUMBER_PRECOMPUTED := 27
  const NUMBER_TO_BE_SHIFTED := 5

  datatype Challenges = Challenges(us: seq<int>, rho: int, r: int, nu: int, z: int) {
    ghost predicate Valid() {
      |us| == CONST_PROOF_SIZE_LOG_N
    }
  }

  datatype Proof = Proof(witnessComms: seq<int>, evaluations: seq<int>, foldComms: seq<int>, aEvaluations: seq<int>,
                         shplonkQ: int, kzgQuotient: int) {
    ghost predicate Valid() {
      && |witnessComms| == NUMBER_UNSHIFTED - NUMBER_PRECOMPUTED
      && |evaluations| == NUMBER_OF_ENTITIES
      && |foldComms| == CONST_PROOF_SIZE_LOG_N - 1
      && |aEvaluations| == CONST_PROOF_SIZE_LOG_N
    }
  }

  // ----- the multi-scalar multiplication

  lemma SkippedTerm(p: Prime, acc: int, dot: int, scalar: int, com: int)
    requires Cong(p, acc, dot) && Cong(p, scalar, 0)
    ensures Cong(p, acc, dot + scalar * com)
  {
    CongScale(p, scalar, 0, com);
    CongSym(p, scalar * com, 0);
    CongAdd(p, acc, dot, 0, scalar * com);
  }

  lemma KeptTerm(p: Prime, vs: seq<int>, vp: seq<int>, dot: int, scalar: int, com: int)
    requires |vs| == |vp| && Cong(p, Dot(vs, vp, |vp|), dot)
    ensures Cong(p, Dot(vs + [scalar], vp + [com], |vp| + 1), dot + scalar * com)
  {
    DotConcat(vs, vp, [scalar], [com], 1);
    assert Dot([scalar], [com], 0) == 0;
    CongRefl(p, scalar * com);
    CongAdd(p, Dot(vs, vp, |vp|), dot, scalar * com, scalar * com);
  }

  /** Drops the terms with a zero scalar, as the host charges per term. */
  method G1Msm(p: Prime, coms: seq<int>, scalars: seq<int>) returns (r: Result<int>)
    ensures r.Err? <==> |coms| != |scalars|
    ensures r.Ok? ==> Cong(p, r.value, Dot(scalars, coms, |coms|))
  {
    if |coms| != |scalars| {
      return Err("msm len mismatch");
    }
    var vp, vs := [], [];
    CongRefl(p, 0);
    for i := 0 to |coms|
      invariant |vp| == |vs|
      invariant Cong(p, Dot(vs, vp, |vp|), Dot(scalars, coms, i))
    {
      if Cong(p, scalars[i], 0) {
        SkippedTerm(p, Dot(vs, vp, |vp|), Dot(scalars, coms, i), scalars[i], coms[i]);
        continue;
      }
      KeptTerm(p, vs, vp, Dot(scalars, coms, i), scalars[i], coms[i]);
      vp := vp + [coms[i]];
      vs := vs + [scalars[i]];
    }
    if vp == [] {
      return Ok(0);
    }
    return Ok(Dot(vs, vp, |vp|));
  }

  /** e(p0, [1]) * e(p1, [tau]) == 1 */
  predicate PairingCheck(p: Prime, tau: int, p0: int, p1: int) {
    Cong(p, p0 + tau * p1, 0)
  }

  // ----- the denominators

  function BatchSize(logN: nat): nat
    requires logN > 0
  {
    3 + logN + 2 * (logN - 1)
  }

  /** The flat layout of everything that is inverted; rs[j] is r^(2^j). */
  function DenominatorAt(logN: nat, ch: Challenges, rs: seq<int>, i: nat): int
    requires 0 < logN <= |ch.us| && logN <= |rs| && i < BatchSize(logN)
  {
    if i == 0 then ch.z - rs[0]
    else if i == 1 then ch.z + rs[0]
    else if i == 2 then ch.r
    else if i < 3 + logN then
      var j := logN - (i - 3);
      rs[j - 1] * (1 - ch.us[j - 1]) + ch.us[j - 1]
    else
      var k := i - 3 - logN;
      if k % 2 == 0 then ch.z - rs[k / 2 + 1] else ch.z + rs[k / 2 + 1]
  }

  ghost function Denominators(logN: nat, ch: Challenges, rs: seq<int>): (d: seq<int>)
    requires 0 < logN <= |ch.us| && logN <= |rs|
    ensures |d| == BatchSize(logN)
    ensures forall i :: 0 <= i < |d| ==> d[i] == DenominatorAt(logN, ch, rs, i)
  {
    seq(BatchSize(logN), i requires 0 <= i < BatchSize(logN) => DenominatorAt(logN, ch, rs, i))
  }

  /** Where the denominators z - rs[j] and, one later, z + rs[j] sit. */
  function PairIndex(logN: nat, j: nat): nat
    requires j < logN
  {
    if j == 0 then 0 else 3 + logN + 2 * (j - 1)
  }

  /** Where the denominator of fold round j sits. */
  function FoldIndex(logN: nat, j: nat): nat
    requires j < logN
  {
    3 + (logN - (j + 1))
  }

  lemma Layout(logN: nat, ch: Challenges, rs: seq<int>, j: nat)
    requires 0 < logN <= |ch.us| && logN <= |rs| && j < logN
    ensures DenominatorAt(logN, ch, rs, PairIndex(logN, j)) == ch.z - rs[j]
    ensures DenominatorAt(logN, ch, rs, PairIndex(logN, j) + 1) == ch.z + rs[j]
    ensures DenominatorAt(logN, ch, rs, FoldIndex(logN, j)) == rs[j] * (1 - ch.us[j]) + ch.us[j]
  {
    if j > 0 {
      var k := 2 * (j - 1);
      assert k / 2 == j - 1 && k % 2 == 0;
      assert (k + 1) / 2 == j - 1 && (k + 1) % 2 == 1;
    }
  }

  lemma InverseFacts(p: Prime, logN: nat, ch: Challenges, rs: seq<int>, inv: seq<int>, j: nat)
    requires 0 < logN <= |ch.us| && logN <= |rs| && j < logN
    requires AreInverses(p, Denominators(logN, ch, rs), inv)
    ensures Cong(p, (ch.z - rs[j]) * inv[PairIndex(logN, j)], 1)
    ensures Cong(p, (ch.z + rs[j]) * inv[PairIndex(logN, j) + 1], 1)
    ensures Cong(p, (rs[j] * (1 - ch.us[j]) + ch.us[j]) * inv[FoldIndex(logN, j)], 1)
    ensures Cong(p, ch.r * inv[2], 1)
  {
    var d, a, b := Denominators(logN, ch, rs), PairIndex(logN, j), FoldIndex(logN, j);
    Layout(logN, ch, rs, j);
    assert InverseAt(p, d, inv, a) && InverseAt(p, d, inv, a + 1);
    assert InverseAt(p, d, inv, b) && InverseAt(p, d, inv, 2);
  }

  /** r, r^2, r^4, ... */
  ghost function Points(r: int, n: nat): (rs: seq<int>)
    ensures |rs| == n && forall i :: 0 <= i < n ==> rs[i] == SquareChain(r, i)
  {
    seq(n, i requires 0 <= i < n => SquareChain(r, i))
  }

  lemma NextSquare(r: int, i: nat, rs: seq<int>)
    requires i > 0 && rs == Points(r, i)
    ensures rs + [rs[i - 1] * rs[i - 1]] == Points(r, i + 1)
  {
  }

  method SquarePowers(r: int, logN: nat) returns (rPows: array<int>)
    requires 0 < logN <= CONST_PROOF_SIZE_LOG_N
    ensures fresh(rPows) && rPows.Length == CONST_PROOF_SIZE_LOG_N
    ensures rPows[..logN] == Points(r, logN)
  {
    rPows := new int[CONST_PROOF_SIZE_LOG_N](_ => 0);
    rPows[0] := r;
    for i := 1 to logN
      invariant rPows[..i] == Points(r, i)
    {
      NextSquare(r, i, rPows[..i]);
      rPows[i] := rPows[i - 1] * rPows[i - 1];
    }
  }

  method CollectDenominators(logN: nat, ch: Challenges, rPows: array<int>) returns (toInvert: array<int>)
    requires 0 < logN <= CONST_PROOF_SIZE_LOG_N == |ch.us| == rPows.Length
    requires rPows[0] == ch.r
    ensures fresh(toInvert) && toInvert[..] == Denominators(logN, ch, rPows[..logN])
  {
    ghost var rs := rPows[..logN];
    toInvert := new int[BatchSize(logN)](_ => 0);
    toInvert[0] := ch.z - rPows[0];
    toInvert[1] := ch.z + rPows[0];
    toInvert[2] := ch.r;
    for j := logN + 1 downto 1
      invariant forall i :: 0 <= i < 3 + (logN + 1 - j) ==> toInvert[i] == DenominatorAt(logN, ch, rs, i)
    {
      var u := ch.us[j - 1];
      toInvert[3 + (logN - j)] := rPows[j - 1] * (1 - u) + u;
    }
    CollectPairs(logN, ch, rPows, toInvert);
  }

  /** The pairs z - r^(2^j), z + r^(2^j) of the later rounds. */
  method CollectPairs(logN: nat, ch: Challenges, rPows: array<int>, toInvert: array<int>)
    requires 0 < logN <= CONST_PROOF_SIZE_LOG_N == |ch.us| == rPows.Length
    requires toInvert.Length == BatchSize(logN) && toInvert != rPows
    requires forall i :: 0 <= i < 3 + logN ==> toInvert[i] == DenominatorAt(logN, ch, rPows[..logN], i)
    modifies toInvert
    ensures toInvert[..] == Denominators(logN, ch, rPows[..logN])
  {
    ghost var rs := rPows[..logN];
    var furtherBase := 3 + logN;
    for j := 1 to logN
      invariant forall i :: 0 <= i < furtherBase + 2 * (j - 1) ==> toInvert[i] == DenominatorAt(logN, ch, rs, i)
    {
      toInvert[furtherBase + 2 * (j - 1)] := ch.z - rPows[j];
      toInvert[furtherBase + 2 * (j - 1) + 1] := ch.z + rPows[j];
    }
  }

  // ----- batching of the sumcheck evaluations

  /** rho^0, ..., rho^(n-1), times c */
  function Powers(rho: int, c: int, from: nat, n: nat): (s: seq<int>)
    ensures |s| == n
    ensures forall i :: 0 <= i < n ==> s[i] == c * Pow(rho, from + i)
  {
    seq(n, i requires 0 <= i < n => c * Pow(rho, from + i))
  }

  /** The scalars of the 35 commitments, the shifted ones merged into their unshifted counterparts. */
  function MergedScalar(rho: int, unshifted: int, shifted: int, i: nat): int {
    -unshifted * Pow(rho, i) + if NUMBER_PRECOMPUTED <= i < NUMBER_PRECOMPUTED + NUMBER_TO_BE_SHIFTED
        then -shifted * Pow(rho, i + 8) else 0
  }

  /** What the first pass stores for evaluation i. */
  function SignedPower(rho: int, unshifted: int, shifted: int, i: nat): int {
    (if i < NUMBER_UNSHIFTED then -unshifted else -shifted) * Pow(rho, i)
  }

  lemma MergedIsSum(rho: int, unshifted: int, shifted: int, i: nat)
    requires i < NUMBER_UNSHIFTED
    ensures MergedScalar(rho, unshifted, shifted, i)
         == SignedPower(rho, unshifted, shifted, i)
            + if NUMBER_PRECOMPUTED <= i < NUMBER_PRECOMPUTED + NUMBER_TO_BE_SHIFTED
              then SignedPower(rho, unshifted, shifted, i + 8) else 0
  {
  }

  lemma NextEvaluation(rho: int, evaluations: seq<int>, rhoPow: int, idx: nat)
    requires idx < |evaluations| == NUMBER_OF_ENTITIES && rhoPow == Pow(rho, idx)
    ensures Dot(evaluations, Powers(rho, 1, 0, NUMBER_OF_ENTITIES), idx) + evaluations[idx] * rhoPow
         == Dot(evaluations, Powers(rho, 1, 0, NUMBER_OF_ENTITIES), idx + 1)
    ensures rhoPow * rho == Pow(rho, idx + 1)
  {
    assert Powers(rho, 1, 0, NUMBER_OF_ENTITIES)[idx] == 1 * rhoPow;
  }

  /** The first pass: a signed power of rho beside every evaluation, and the batched evaluation. */
  method WeighEvaluations(ch: Challenges, evaluations: seq<int>, unshifted: int, shifted: int)
      returns (evalScalars: array<int>, evalAcc: int)
    requires |evaluations| == NUMBER_OF_ENTITIES
    ensures fresh(evalScalars) && evalScalars.Length == NUMBER_OF_ENTITIES
    ensures forall i :: 0 <= i < NUMBER_OF_ENTITIES ==> evalScalars[i] == SignedPower(ch.rho, unshifted, shifted, i)
    ensures evalAcc == Dot(evaluations, Powers(ch.rho, 1, 0, NUMBER_OF_ENTITIES), NUMBER_OF_ENTITIES)
  {
    var negUnshifted, negShifted := -unshifted, -shifted;
    var rhoPow := 1;
    evalAcc := 0;
    evalScalars := new int[NUMBER_OF_ENTITIES](_ => 0);
    for idx := 0 to NUMBER_OF_ENTITIES
      invariant rhoPow == Pow(ch.rho, idx)
      invariant evalAcc == Dot(evaluations, Powers(ch.rho, 1, 0, NUMBER_OF_ENTITIES), idx)
      invariant forall i :: 0 <= i < idx ==> evalScalars[i] == SignedPower(ch.rho, unshifted, shifted, i)
    {
      var scalar := (if idx < NUMBER_UNSHIFTED then negUnshifted else negShifted) * rhoPow;
      assert scalar == SignedPower(ch.rho, unshifted, shifted, idx);
      NextEvaluation(ch.rho, evaluations, rhoPow, idx);
      evalAcc := evalAcc + evaluations[idx] * rhoPow;
      rhoPow := rhoPow * ch.rho;
      evalScalars[idx] := scalar;
    }
  }

  /** The second pass: the scalars of the shifted evaluations join those of the polynomials they shift. */
  method MergeShifted(ch: Challenges, unshifted: int, shifted: int, evalScalars: array<int>)
    requires evalScalars.Length == NUMBER_OF_ENTITIES
    requires forall i :: 0 <= i < NUMBER_OF_ENTITIES ==> evalScalars[i] == SignedPower(ch.rho, unshifted, shifted, i)
    modifies evalScalars
    ensures forall i :: 0 <= i < NUMBER_UNSHIFTED ==> evalScalars[i] == MergedScalar(ch.rho, unshifted, shifted, i)
  {
    for k := 0 to NUMBER_TO_BE_SHIFTED
      invariant forall i :: NUMBER_PRECOMPUTED + k <= i < NUMBER_OF_ENTITIES ==>
        evalScalars[i] == SignedPower(ch.rho, unshifted, shifted, i)
      invariant forall i :: 0 <= i < NUMBER_PRECOMPUTED ==>
        evalScalars[i] == SignedPower(ch.rho, unshifted, shifted, i)
      invariant forall i :: NUMBER_PRECOMPUTED <= i < NUMBER_PRECOMPUTED + k ==>
        evalScalars[i] == MergedScalar(ch.rho, unshifted, shifted, i)
    {
      MergedIsSum(ch.rho, unshifted, shifted, NUMBER_PRECOMPUTED + k);
      evalScalars[NUMBER_PRECOMPUTED + k] := evalScalars[NUMBER_PRECOMPUTED + k] + evalScalars[NUMBER_UNSHIFTED + k];
    }
    forall i | 0 <= i < NUMBER_UNSHIFTED
      ensures evalScalars[i] == MergedScalar(ch.rho, unshifted, shifted, i)
    {
      MergedIsSum(ch.rho, unshifted, shifted, i);
    }
  }

  method BatchEvaluations(ch: Challenges, evaluations: seq<int>, unshifted: int, shifted: int)
      returns (evalScalars: array<int>, evalAcc: int)
    requires |evaluations| == NUMBER_OF_ENTITIES
    ensures fresh(evalScalars) && evalScalars.Length == NUMBER_OF_ENTITIES
    ensures forall i :: 0 <= i < NUMBER_UNSHIFTED ==> evalScalars[i] == MergedScalar(ch.rho, unshifted, shifted, i)
    ensures evalAcc == Dot(evaluations, Powers(ch.rho, 1, 0, NUMBER_OF_ENTITIES), NUMBER_OF_ENTITIES)
  {
    evalScalars, evalAcc := WeighEvaluations(ch, evaluations, unshifted, shifted);
    MergeShifted(ch, unshifted, shifted, evalScalars);
  }

  // ----- the fold rounds

  /** One step down: from the value at r^2 of a fold and the value at -r, the value at r. */
  function FoldStep(r: int, u: int, cur: int, neg: int, denInv: int): int {
    (r * cur * 2 - neg * (r * (1 - u) - u)) * denInv
  }

  /** The value recovered for round j, from the batched evaluation down. */
  function FoldValue(logN: nat, ch: Challenges, rs: seq<int>, aEvaluations: seq<int>, inv: seq<int>, evalAcc: int,
                     j: nat): int
    requires 0 < logN <= |ch.us| && logN <= |rs| && logN <= |aEvaluations| && |inv| == BatchSize(logN) && j <= logN
    decreases logN - j
  {
    if j == logN then evalAcc
    else
      var cur := FoldValue(logN, ch, rs, aEvaluations, inv, evalAcc, j + 1);
      FoldStep(rs[j], ch.us[j], cur, aEvaluations[j], inv[FoldIndex(logN, j)])
  }

  /** Round j of the folding loop. */
  method FoldRound(logN: nat, ch: Challenges, rs: seq<int>, aEvaluations: seq<int>, inv: seq<int>, ghost evalAcc: int,
                   j: nat, cur: int)
      returns (next: int)
    requires 0 < logN <= |ch.us| && logN <= |rs| && logN <= |aEvaluations| && |inv| == BatchSize(logN) && 0 < j <= logN
    requires cur == FoldValue(logN, ch, rs, aEvaluations, inv, evalAcc, j)
    ensures next == FoldValue(logN, ch, rs, aEvaluations, inv, evalAcc, j - 1)
  {
    var r2, u := rs[j - 1], ch.us[j - 1];
    var foldLin := r2 * (1 - u) - u;
    var num := r2 * cur * 2 - aEvaluations[j - 1] * foldLin;
    var denInv := inv[3 + (logN - j)];
    next := num * denInv;
  }

  method FoldPositions(logN: nat, ch: Challenges, rs: seq<int>, aEvaluations: seq<int>, inv: seq<int>, evalAcc: int)
      returns (foldPos: array<int>)
    requires 0 < logN <= CONST_PROOF_SIZE_LOG_N == |ch.us| == |aEvaluations| && logN == |rs|
    requires |inv| == BatchSize(logN)
    ensures fresh(foldPos) && foldPos.Length == CONST_PROOF_SIZE_LOG_N
    ensures forall j :: 0 <= j < logN ==> foldPos[j] == FoldValue(logN, ch, rs, aEvaluations, inv, evalAcc, j)
  {
    foldPos := new int[CONST_PROOF_SIZE_LOG_N](_ => 0);
    var cur := evalAcc;
    for j := logN + 1 downto 1
      invariant cur == FoldValue(logN, ch, rs, aEvaluations, inv, evalAcc, j - 1)
      invariant forall i :: j - 1 <= i < logN ==> foldPos[i] == FoldValue(logN, ch, rs, aEvaluations, inv, evalAcc, i)
    {
      cur := FoldRound(logN, ch, rs, aEvaluations, inv, evalAcc, j, cur);
      foldPos[j - 1] := cur;
    }
  }

  // ----- the arrays of the multi-scalar multiplication

  function PosInverses(logN: nat, inv: seq<int>): (s: seq<int>)
    requires logN > 0 && |inv| == BatchSize(logN)
    ensures |s| == logN && forall j :: 0 <= j < logN ==> s[j] == inv[PairIndex(logN, j)]
  {
    seq(logN, j requires 0 <= j < logN => inv[PairIndex(logN, j)])
  }

  function NegInverses(logN: nat, inv: seq<int>): (s: seq<int>)
    requires logN > 0 && |inv| == BatchSize(logN)
    ensures |s| == logN && forall j :: 0 <= j < logN ==> s[j] == inv[PairIndex(logN, j) + 1]
  {
    seq(logN, j requires 0 <= j < logN => inv[PairIndex(logN, j) + 1])
  }

  /** The scalar of the fold commitment of round j + 1; rounds past logN get none. */
  function FoldScalar(logN: nat, nu: int, pos: seq<int>, neg: seq<int>, j: nat): int
    requires |pos| == |neg| == logN
  {
    if j + 1 < logN then -(PositiveWeight(nu, pos, j + 1) + NegativeWeight(nu, neg, j + 1)) else 0
  }

  const FOLD_BASE := 1 + NUMBER_UNSHIFTED
  const TOTAL := 1 + NUMBER_UNSHIFTED + CONST_PROOF_SIZE_LOG_N + 1

  /** The arithmetic of fold round j: the scalar of its commitment, and the running sums moved on. */
  method FoldEntry(logN: nat, nu: int, inv: seq<int>, posValues: seq<int>, negValues: seq<int>, j: nat, vPow: int,
                   constAcc: int)
      returns (scalar: int, nextPow: int, nextConst: int)
    requires 0 < j < logN && |inv| == BatchSize(logN) && logN <= |posValues| && logN <= |negValues|
    requires vPow == Pow(nu * nu, j)
    requires constAcc == ConstantTerm(nu, PosInverses(logN, inv), NegInverses(logN, inv), posValues, negValues, j)
    ensures scalar == FoldScalar(logN, nu, PosInverses(logN, inv), NegInverses(logN, inv), j - 1)
    ensures nextPow == Pow(nu * nu, j + 1)
    ensures nextConst
         == ConstantTerm(nu, PosInverses(logN, inv), NegInverses(logN, inv), posValues, negValues, j + 1)
  {
    ghost var pos, neg := PosInverses(logN, inv), NegInverses(logN, inv);
    var nuSq := nu * nu;
    var posInv, negInv := inv[3 + logN + 2 * (j - 1)], inv[3 + logN + 2 * (j - 1) + 1];
    var sp := vPow * posInv;
    var sn := vPow * nu * negInv;
    assert posInv == pos[j] && negInv == neg[j];
    assert sp == PositiveWeight(nu, pos, j) && sn == NegativeWeight(nu, neg, j);
    scalar := -(sp + sn);
    nextConst := constAcc + negValues[j] * sn + posValues[j] * sp;
    nextPow := vPow * nuSq;
  }

  /** The running sums before the first fold round. */
  method FirstTerms(logN: nat, nu: int, inv: seq<int>, posValues: seq<int>, negValues: seq<int>)
      returns (vPow: int, constAcc: int)
    requires 0 < logN && |inv| == BatchSize(logN) && logN <= |posValues| && logN <= |negValues|
    ensures vPow == Pow(nu * nu, 1)
    ensures constAcc == ConstantTerm(nu, PosInverses(logN, inv), NegInverses(logN, inv), posValues, negValues, 1)
  {
    var pos0, neg0 := inv[0], inv[1];
    vPow := nu * nu;
    constAcc := posValues[0] * pos0 + negValues[0] * nu * neg0;
    FirstConstant(nu, PosInverses(logN, inv), NegInverses(logN, inv), posValues, negValues);
  }

  /** The loop over the later rounds: their entries of the two arrays, and the constant term. */
  method FoldRounds(logN: nat, ch: Challenges, proof: Proof, inv: seq<int>, foldPos: seq<int>, vPow1: int,
                    constant1: int, scalars: array<int>, coms: array<int>)
      returns (constAcc: int)
    requires 0 < logN <= CONST_PROOF_SIZE_LOG_N == |ch.us| == |foldPos| && proof.Valid() && |inv| == BatchSize(logN)
    requires vPow1 == Pow(ch.nu * ch.nu, 1)
    requires constant1
          == ConstantTerm(ch.nu, PosInverses(logN, inv), NegInverses(logN, inv), foldPos, proof.aEvaluations, 1)
    requires scalars.Length == coms.Length == TOTAL && scalars != coms
    modifies scalars, coms
    ensures constAcc
         == ConstantTerm(ch.nu, PosInverses(logN, inv), NegInverses(logN, inv), foldPos, proof.aEvaluations, logN)
    ensures forall i :: 0 <= i < logN - 1 ==>
              && scalars[FOLD_BASE + i] == FoldScalar(logN, ch.nu, PosInverses(logN, inv), NegInverses(logN, inv), i)
              && coms[FOLD_BASE + i] == proof.foldComms[i]
    ensures forall i :: 0 <= i < TOTAL && !(FOLD_BASE <= i < FOLD_BASE + logN - 1) ==>
              scalars[i] == old(scalars[i]) && coms[i] == old(coms[i])
  {
    ghost var pos, neg := PosInverses(logN, inv), NegInverses(logN, inv);
    var vPow := vPow1;
    constAcc := constant1;
    for j := 1 to logN
      invariant vPow == Pow(ch.nu * ch.nu, j)
      invariant constAcc == ConstantTerm(ch.nu, pos, neg, foldPos, proof.aEvaluations, j)
      invariant forall i :: 0 <= i < j - 1 ==> scalars[FOLD_BASE + i] == FoldScalar(logN, ch.nu, pos, neg, i)
      invariant forall i :: 0 <= i < j - 1 ==> coms[FOLD_BASE + i] == proof.foldComms[i]
      invariant forall i :: 0 <= i < TOTAL && !(FOLD_BASE <= i < FOLD_BASE + j - 1) ==>
        scalars[i] == old(scalars[i]) && coms[i] == old(coms[i])
    {
      var scalar;
      scalar, vPow, constAcc := FoldEntry(logN, ch.nu, inv, foldPos, proof.aEvaluations, j, vPow, constAcc);
      scalars[FOLD_BASE + j - 1] := scalar;
      coms[FOLD_BASE + j - 1] := proof.foldComms[j - 1];
    }
  }

  /** The constant term and the fold rounds' entries of the two arrays. */
  method AccumulateFolds(logN: nat, ch: Challenges, proof: Proof, inv: seq<int>, foldPos: seq<int>,
                         scalars: array<int>, coms: array<int>)
      returns (constAcc: int)
    requires 0 < logN <= CONST_PROOF_SIZE_LOG_N == |ch.us| == |foldPos| && proof.Valid()
    requires |inv| == BatchSize(logN)
    requires scalars.Length == coms.Length == TOTAL && scalars != coms
    requires forall i :: FOLD_BASE <= i < TOTAL ==> scalars[i] == 0
    modifies scalars, coms
    ensures constAcc
         == ConstantTerm(ch.nu, PosInverses(logN, inv), NegInverses(logN, inv), foldPos, proof.aEvaluations, logN)
    ensures scalars[..TOTAL - 2] == old(scalars[..FOLD_BASE]) + FoldScalars(logN, ch, inv)
    ensures coms[..TOTAL - 2] == old(coms[..FOLD_BASE]) + proof.foldComms
  {
    var vPow, first := FirstTerms(logN, ch.nu, inv, foldPos, proof.aEvaluations);
    constAcc := FoldRounds(logN, ch, proof, inv, foldPos, vPow, first, scalars, coms);
    LoadDummies(logN, proof, coms);
    StoredFolds(logN, ch, inv, scalars[..]);
  }

  /** The scalars of the rounds past logN are the zeros the array started with. */
  lemma StoredFolds(logN: nat, ch: Challenges, inv: seq<int>, s: seq<int>)
    requires 0 < logN <= CONST_PROOF_SIZE_LOG_N && |inv| == BatchSize(logN) && |s| == TOTAL
    requires forall i :: 0 <= i < logN - 1 ==>
      s[FOLD_BASE + i] == FoldScalar(logN, ch.nu, PosInverses(logN, inv), NegInverses(logN, inv), i)
    requires forall i :: FOLD_BASE + logN - 1 <= i < TOTAL ==> s[i] == 0
    ensures s[..TOTAL - 2] == s[..FOLD_BASE] + FoldScalars(logN, ch, inv)
  {
    forall j | 0 <= j < CONST_PROOF_SIZE_LOG_N - 1 ensures s[FOLD_BASE + j] == FoldScalars(logN, ch, inv)[j] {
    }
  }

  /** The fold commitments past logN, whose scalars stay zero. */
  method LoadDummies(logN: nat, proof: Proof, coms: array<int>)
    requires 0 < logN <= CONST_PROOF_SIZE_LOG_N && proof.Valid() && coms.Length == TOTAL
    requires forall k :: 0 <= k < logN - 1 ==> coms[FOLD_BASE + k] == proof.foldComms[k]
    modifies coms
    ensures coms[..TOTAL - 2] == old(coms[..FOLD_BASE]) + proof.foldComms
  {
    for i := logN - 1 to CONST_PROOF_SIZE_LOG_N - 1
      invariant coms[..FOLD_BASE] == old(coms[..FOLD_BASE])
      invariant forall k :: 0 <= k < i ==> coms[FOLD_BASE + k] == proof.foldComms[k]
    {
      coms[FOLD_BASE + i] := proof.foldComms[i];
    }
  }

  /** The last two entries: the generator with the constant term and the KZG quotient with z. */
  method AppendTail(constAcc: int, z: int, kzgQuotient: int, scalars: array<int>, coms: array<int>)
    requires scalars.Length == coms.Length == TOTAL && scalars != coms
    modifies scalars, coms
    ensures scalars[..] == old(scalars[..TOTAL - 2]) + [constAcc, z]
    ensures coms[..] == old(coms[..TOTAL - 2]) + [1, kzgQuotient]
  {
    var oneIdx := FOLD_BASE + (CONST_PROOF_SIZE_LOG_N - 1);
    coms[oneIdx] := 1;
    scalars[oneIdx] := constAcc;
    coms[oneIdx + 1] := kzgQuotient;
    scalars[oneIdx + 1] := z;
  }

  lemma Reassociate(a: int, b: int, c: int)
    ensures a * (b * c) == a * b * c
  {
  }

  lemma FirstConstant(nu: int, pos: seq<int>, neg: seq<int>, posValues: seq<int>, negValues: seq<int>)
    requires |pos| == |neg| > 0 && |posValues| > 0 && |negValues| > 0
    ensures Pow(nu * nu, 1) == nu * nu
    ensures ConstantTerm(nu, pos, neg, posValues, negValues, 1) == posValues[0] * pos[0] + negValues[0] * nu * neg[0]
    ensures PositiveWeight(nu, pos, 0) == pos[0] && NegativeWeight(nu, neg, 0) == nu * neg[0]
  {
    assert Pow(nu * nu, 0) == 1;
    assert Pow(nu * nu, 1) == 1 * (nu * nu);
    Reassociate(negValues[0], nu, neg[0]);
    assert ConstantTerm(nu, pos, neg, posValues, negValues, 0) == 0;
  }

  /** The scalars of the 35 unshifted commitments. */
  ghost function MergedScalars(ch: Challenges, inv: seq<int>): (s: seq<int>)
    requires |inv| >= 3
    ensures |s| == NUMBER_UNSHIFTED
  {
    var unshifted, shifted := ch.nu * inv[1] + inv[0], inv[2] * (inv[0] - ch.nu * inv[1]);
    seq(NUMBER_UNSHIFTED, i requires 0 <= i < NUMBER_UNSHIFTED => MergedScalar(ch.rho, unshifted, shifted, i))
  }

  ghost function FoldScalars(logN: nat, ch: Challenges, inv: seq<int>): (s: seq<int>)
    requires 0 < logN <= CONST_PROOF_SIZE_LOG_N && |inv| == BatchSize(logN)
    ensures |s| == CONST_PROOF_SIZE_LOG_N - 1
    ensures forall j :: 0 <= j < |s| ==> s[j] == FoldScalar(logN, ch.nu, PosInverses(logN, inv), NegInverses(logN, inv),
                                                            j)
  {
    seq(CONST_PROOF_SIZE_LOG_N - 1, j requires 0 <= j < CONST_PROOF_SIZE_LOG_N - 1 =>
        FoldScalar(logN, ch.nu, PosInverses(logN, inv), NegInverses(logN, inv), j))
  }

  /** The scalars the verifier ends up with. */
  ghost function Scalars(logN: nat, ch: Challenges, inv: seq<int>, constant: int): (s: seq<int>)
    requires 0 < logN <= CONST_PROOF_SIZE_LOG_N && |inv| == BatchSize(logN)
    ensures |s| == TOTAL
  {
    [1] + MergedScalars(ch, inv) + FoldScalars(logN, ch, inv) + [constant, ch.z]
  }

  ghost function Commitments(vk: seq<int>, proof: Proof): (s: seq<int>)
    requires |vk| == NUMBER_PRECOMPUTED && proof.Valid()
    ensures |s| == TOTAL
  {
    [proof.shplonkQ] + (vk + proof.witnessComms) + proof.foldComms + [1, proof.kzgQuotient]
  }

  /** The constant term of the opening, from the recovered positive values and the sent negative ones. */
  ghost function OpeningConstant(logN: nat, ch: Challenges, proof: Proof, inv: seq<int>): int
    requires 0 < logN <= CONST_PROOF_SIZE_LOG_N && ch.Valid() && proof.Valid() && |inv| == BatchSize(logN)
  {
    var evalAcc := Dot(proof.evaluations, Powers(ch.rho, 1, 0, NUMBER_OF_ENTITIES), NUMBER_OF_ENTITIES);
    ConstantTerm(ch.nu, PosInverses(logN, inv), NegInverses(logN, inv),
                 FoldValues(logN, ch, Points(ch.r, logN), proof.aEvaluations, inv, evalAcc), proof.aEvaluations, logN)
  }

  ghost function FoldValues(logN: nat, ch: Challenges, rs: seq<int>, aEvaluations: seq<int>, inv: seq<int>,
                            evalAcc: int): (s: seq<int>)
    requires 0 < logN <= |ch.us| && logN <= |rs| && logN <= |aEvaluations| && |inv| == BatchSize(logN)
    ensures |s| == logN
    ensures forall j :: 0 <= j < logN ==> s[j] == FoldValue(logN, ch, rs, aEvaluations, inv, evalAcc, j)
  {
    seq(logN, j requires 0 <= j < logN => FoldValue(logN, ch, rs, aEvaluations, inv, evalAcc, j))
  }

  /** The equation that the pairing checks, for given inverses of the denominators. */
  ghost predicate OpeningHolds(p: Prime, tau: int, logN: nat, vk: seq<int>, proof: Proof, ch: Challenges, inv: seq<int>)
    requires 0 < logN <= CONST_PROOF_SIZE_LOG_N && ch.Valid() && proof.Valid() && |vk| == NUMBER_PRECOMPUTED
    requires |inv| == BatchSize(logN)
  {
    Cong(p, Dot(Scalars(logN, ch, inv, OpeningConstant(logN, ch, proof, inv)), Commitments(vk, proof), TOTAL),
         tau * proof.kzgQuotient)
  }

  lemma InverseIsNonzero(p: Prime, x: int, i: int)
    requires Cong(p, x * i, 1)
    ensures !Cong(p, i, 0)
  {
    if Cong(p, i, 0) {
      CongScale(p, i, 0, x);
      CongSym(p, x * i, 1);
      CongTrans(p, 1, x * i, 0);
      DistinctResidues(p, 1, 0);
      assert false;
    }
  }

  // ----- every commitment of the key stands where the evaluation it opens stands

  lemma SelectorsFollowEvaluations(key: VerifyingKey)
    ensures
      var c := key.Commitments();
      && c[QM] == key.qm && c[QC] == key.qc && c[QL] == key.ql && c[QR] == key.qr && c[QO] == key.qo
      && c[Q4] == key.q4
  {
  }

  lemma GatesFollowEvaluations(key: VerifyingKey)
    ensures
      var c := key.Commitments();
      && c[Q_LOOKUP] == key.qLookup && c[Q_ARITH] == key.qArith && c[Q_RANGE] == key.qDeltaRange
      && c[Q_ELLIPTIC] == key.qElliptic && c[Q_AUX] == key.qAux
      && c[Q_POSEIDON2_EXTERNAL] == key.qPoseidon2External
      && c[Q_POSEIDON2_INTERNAL] == key.qPoseidon2Internal
  {
  }

  lemma PermutationFollowsEvaluations(key: VerifyingKey)
    ensures
      var c := key.Commitments();
      && c[SIGMA1] == key.s1 && c[SIGMA2] == key.s2 && c[SIGMA3] == key.s3 && c[SIGMA4] == key.s4
      && c[ID1] == key.id1 && c[ID2] == key.id2 && c[ID3] == key.id3 && c[ID4] == key.id4
  {
  }

  lemma TablesFollowEvaluations(key: VerifyingKey)
    ensures
      var c := key.Commitments();
      && c[TABLE1] == key.t1 && c[TABLE2] == key.t2 && c[TABLE3] == key.t3 && c[TABLE4] == key.t4
      && c[LAGRANGE_FIRST] == key.lagrangeFirst && c[LAGRANGE_LAST] == key.lagrangeLast
  {
  }

  /** Copies the VK and witness commitments with their scalars behind the leading entry. */
  method LoadCommitments(vk: seq<int>, proof: Proof, evalScalars: array<int>, scalars: array<int>, coms: array<int>)
    requires |vk| == NUMBER_PRECOMPUTED && proof.Valid() && evalScalars.Length == NUMBER_OF_ENTITIES
    requires scalars.Length == coms.Length == TOTAL
    requires scalars != coms && evalScalars != scalars && evalScalars != coms
    requires scalars[0] == 1 && coms[0] == proof.shplonkQ
    requires forall i :: FOLD_BASE <= i < TOTAL ==> scalars[i] == 0
    modifies scalars, coms
    ensures scalars[..FOLD_BASE] == [1] + evalScalars[..NUMBER_UNSHIFTED]
    ensures coms[..FOLD_BASE] == [proof.shplonkQ] + (vk + proof.witnessComms)
    ensures forall i :: FOLD_BASE <= i < TOTAL ==> scalars[i] == 0
  {
    var all := vk + proof.witnessComms;
    for j := 1 to FOLD_BASE
      invariant scalars[0] == 1 && coms[0] == proof.shplonkQ
      invariant forall i :: 1 <= i < j ==> scalars[i] == evalScalars[i - 1] && coms[i] == all[i - 1]
      invariant forall i :: FOLD_BASE <= i < TOTAL ==> scalars[i] == 0
    {
      coms[j] := all[j - 1];
      scalars[j] := evalScalars[j - 1];
    }
  }

  const RANGE_ERROR := "shplemini: log_circuit_size out of range"
  const INVERSION_ERROR := "shplemini: batch inversion failed (zero denominator in shplonk/gemini/fold)"
  const ZERO_RESULT_ERROR := "shplemini: batch inversion produced zero result"

  /** Steps 1 and 2: the powers of r and the batch inversion of every denominator. */
  method InvertDenominators(p: Prime, logN: nat, ch: Challenges) returns (ok: bool, rs: seq<int>, inv: seq<int>)
    requires 0 < logN <= CONST_PROOF_SIZE_LOG_N && ch.Valid()
    ensures rs == Points(ch.r, logN)
    ensures ok <==> AllNonzero(p, Denominators(logN, ch, Points(ch.r, logN)))
    ensures ok ==> AreInverses(p, Denominators(logN, ch, Points(ch.r, logN)), inv)
  {
    var rPows := SquarePowers(ch.r, logN);
    rs := rPows[..logN];
    assert rPows[0] == rs[0] == ch.r;
    var toInvert := CollectDenominators(logN, ch, rPows);
    var inverted := new int[BatchSize(logN)](_ => 0);
    ok := BatchInverse(p, toInvert[..], inverted);
    inv := inverted[..];
  }

  /** Steps 3 to 6: the Shplonk quotient and the 35 commitments with their scalars. */
  method LoadOpening(logN: nat, vk: seq<int>, proof: Proof, ch: Challenges, inv: seq<int>)
      returns (scalars: array<int>, coms: array<int>, evalAcc: int)
    requires 0 < logN && |vk| == NUMBER_PRECOMPUTED && proof.Valid() && |inv| == BatchSize(logN)
    ensures fresh(scalars) && fresh(coms) && scalars != coms && scalars.Length == coms.Length == TOTAL
    ensures scalars[..FOLD_BASE] == [1] + MergedScalars(ch, inv)
    ensures coms[..FOLD_BASE] == [proof.shplonkQ] + (vk + proof.witnessComms)
    ensures forall i :: FOLD_BASE <= i < TOTAL ==> scalars[i] == 0
    ensures evalAcc == Dot(proof.evaluations, Powers(ch.rho, 1, 0, NUMBER_OF_ENTITIES), NUMBER_OF_ENTITIES)
  {
    var pos0, neg0, geminiRInv := inv[0], inv[1], inv[2];
    scalars := new int[TOTAL](_ => 0);
    coms := new int[TOTAL](_ => 0);
    scalars[0] := 1;
    coms[0] := proof.shplonkQ;
    var unshifted := ch.nu * neg0 + pos0;
    var shifted := geminiRInv * (pos0 - ch.nu * neg0);
    var evalScalars;
    evalScalars, evalAcc := BatchEvaluations(ch, proof.evaluations, unshifted, shifted);
    LoadCommitments(vk, proof, evalScalars, scalars, coms);
    assert evalScalars[..NUMBER_UNSHIFTED] == MergedScalars(ch, inv);
  }

  /** Steps 7 to 11: the fold rounds, the generator with the constant term and the KZG quotient. */
  method AssembleOpening(logN: nat, vk: seq<int>, proof: Proof, ch: Challenges, rs: seq<int>, inv: seq<int>)
      returns (scalars: array<int>, coms: array<int>)
    requires 0 < logN <= CONST_PROOF_SIZE_LOG_N && |vk| == NUMBER_PRECOMPUTED && proof.Valid() && ch.Valid()
    requires |inv| == BatchSize(logN) && rs == Points(ch.r, logN)
    ensures scalars[..] == Scalars(logN, ch, inv, OpeningConstant(logN, ch, proof, inv))
    ensures coms[..] == Commitments(vk, proof)
  {
    var evalAcc;
    scalars, coms, evalAcc := LoadOpening(logN, vk, proof, ch, inv);
    var foldPos := FoldPositions(logN, ch, rs, proof.aEvaluations, inv, evalAcc);
    var values := foldPos[..];
    var constAcc := AccumulateFolds(logN, ch, proof, inv, values, scalars, coms);
    ConstantTermExt(ch.nu, PosInverses(logN, inv), NegInverses(logN, inv), values,
                    FoldValues(logN, ch, rs, proof.aEvaluations, inv, evalAcc), proof.aEvaluations, logN);
    AppendTail(constAcc, ch.z, proof.kzgQuotient, scalars, coms);
  }

  /** `inv` is the buffer of inverted denominators. */
  method VerifyShplemini(p: Prime, tau: int, logN: nat, key: VerifyingKey, proof: Proof, ch: Challenges)
      returns (r: Outcome, inv: seq<int>)
    requires proof.Valid() && ch.Valid()
    ensures r == Fail(RANGE_ERROR) <==> logN == 0 || logN > 28
    ensures r != Fail(ZERO_RESULT_ERROR)
    ensures 0 < logN <= CONST_PROOF_SIZE_LOG_N ==>
      && (r == Fail(INVERSION_ERROR) <==> !AllNonzero(p, Denominators(logN, ch, Points(ch.r, logN))))
      && (r != Fail(INVERSION_ERROR) ==>
            && AreInverses(p, Denominators(logN, ch, Points(ch.r, logN)), inv)
            && (r.Pass? <==> OpeningHolds(p, tau, logN, key.Commitments(), proof, ch, inv)))
  {
    if logN == 0 || logN > CONST_PROOF_SIZE_LOG_N {
      return Fail(RANGE_ERROR), [];
    }
    var ok, rs;
    ok, rs, inv := InvertDenominators(p, logN, ch);
    if !ok {
      return Fail(INVERSION_ERROR), inv;
    }
    ghost var dens := Denominators(logN, ch, Points(ch.r, logN));
    for i := 0 to |inv| {
      assert InverseAt(p, dens, inv, i);
      InverseIsNonzero(p, dens[i], inv[i]);
      if Cong(p, inv[i], 0) {
        return Fail(ZERO_RESULT_ERROR), inv;
      }
    }
    var scalars, coms := AssembleOpening(logN, key.Commitments(), proof, ch, rs, inv);
    var p0 := G1Msm(p, coms[..], scalars[..]);
    var p1 := -proof.kzgQuotient;
    PairingMeaning(p, tau, p0.value, Dot(scalars[..], coms[..], TOTAL), proof.kzgQuotient);
    if PairingCheck(p, tau, p0.value, p1) {
      return Pass, inv;
    } else {
      return Fail("Shplonk pairing check failed"), inv;
    }
  }

  lemma {:induction false} ConstantTermExt(nu: int, pos: seq<int>, neg: seq<int>, a: seq<int>, b: seq<int>,
                                           negValues: seq<int>, n: nat)
    requires n <= |pos| == |neg| && n <= |a| && n <= |b| && n <= |negValues|
    requires forall j :: 0 <= j < n ==> a[j] == b[j]
    ensures ConstantTerm(nu, pos, neg, a, negValues, n) == ConstantTerm(nu, pos, neg, b, negValues, n)
  {
    if n > 0 {
      ConstantTermExt(nu, pos, neg, a, b, negValues, n - 1);
    }
  }

  lemma PairingMeaning(p: Prime, tau: int, p0: int, msm: int, w: int)
    requires Cong(p, p0, msm)
    ensures PairingCheck(p, tau, p0, -w) <==> Cong(p, msm, tau * w)
  {
    assert p0 + tau * -w == p0 - tau * w;
    if Cong(p, p0, tau * w) {
      CongSym(p, p0, msm);
      CongTrans(p, msm, p0, tau * w);
    }
    if Cong(p, msm, tau * w) {
      CongTrans(p, p0, msm, tau * w);
    }
  }
}
