/** The Poseidon2 permutation as the prover runs it, the verifier's gate relations for its rounds, and the
    proof that a row trace satisfying the relations is a run of the permutation. */
module Poseidon2 {
  import opened PrimeField
  import opened ProofShape
  import opened Sums

  /** Four field elements: the sponge state, or one row's wires. */
  datatype Quad = Quad(a: int, b: int, c: int, d: int)

  /** Round constants and internal diagonal. */
  datatype Params = Params(rc: seq<Quad>, diag: Quad)

  datatype Round = Full | Partial

  // ----- rounds as matrices and fifth powers

  function Fifth(x: int): int {
    Pow(x, 5)
  }

  function Plus(q: Quad, k: Quad): Quad {
    Quad(q.a + k.a, q.b + k.b, q.c + k.c, q.d + k.d)
  }

  /** The external matrix, row by row. */
  function External(q: Quad): Quad {
    Quad(5 * q.a + 7 * q.b + q.c + 3 * q.d,
         4 * q.a + 6 * q.b + q.c + q.d,
         q.a + 3 * q.b + 5 * q.c + 7 * q.d,
         q.a + q.b + 4 * q.c + 6 * q.d)
  }

  /** The internal matrix: all ones plus the diagonal. */
  function Internal(diag: Quad, q: Quad): Quad {
    var sum := q.a + q.b + q.c + q.d;
    Quad(q.a * diag.a + sum, q.b * diag.b + sum, q.c * diag.c + sum, q.d * diag.d + sum)
  }

  function FullRound(k: Quad, q: Quad): Quad {
    var s := Plus(q, k);
    External(Quad(Fifth(s.a), Fifth(s.b), Fifth(s.c), Fifth(s.d)))
  }

  function PartialRound(k: int, diag: Quad, q: Quad): Quad {
    Internal(diag, Quad(Fifth(q.a + k), q.b, q.c, q.d))
  }

  function RoundOf(kind: Round, k: Quad, diag: Quad, q: Quad): Quad {
    if kind.Full? then FullRound(k, q) else PartialRound(k.a, diag, q)
  }

  /** The state after n rounds of any schedule. */
  function After(params: Params, kinds: seq<Round>, q: Quad, n: nat): Quad
    requires n <= |kinds| <= |params.rc|
  {
    if n == 0 then q else RoundOf(kinds[n - 1], params.rc[n - 1], params.diag, After(params, kinds, q, n - 1))
  }

  /** Four full, fifty-six partial, four full. */
  function Schedule(): (kinds: seq<Round>)
    ensures |kinds| == 64
  {
    seq(64, r => if r < 4 || r >= 60 then Full else Partial)
  }

  function PermutationOf(params: Params, q: Quad): Quad
    requires |params.rc| == 64
  {
    After(params, Schedule(), External(q), 64)
  }

  function Scale(c: int, q: Quad): Quad {
    Quad(c * q.a, c * q.b, c * q.c, c * q.d)
  }

  /** The matrix by its columns, the images of the four unit states. */
  lemma ExternalColumns(q: Quad)
    ensures External(q) == Plus(Plus(Scale(q.a, Quad(5, 4, 1, 1)), Scale(q.b, Quad(7, 6, 3, 1))),
                                Plus(Scale(q.c, Quad(1, 1, 5, 4)), Scale(q.d, Quad(3, 1, 7, 6))))
  {
  }

  /** Whatever schedule has its full rounds there, its 64 rounds are the permutation's. */
  lemma PermutationRounds(params: Params, kinds: seq<Round>, q: Quad)
    requires |params.rc| == 64 == |kinds|
    requires forall r :: 0 <= r < 64 ==> (kinds[r].Full? <==> r < 4 || r >= 60)
    ensures After(params, kinds, External(q), 64) == PermutationOf(params, q)
  {
    assert kinds == Schedule();
  }

  lemma {:induction false} RepeatedRounds(kind: Round, n: nat, other: Round)
    ensures multiset(seq(n, r => kind))[other] == if other == kind then n else 0
  {
    if n > 0 {
      RepeatedRounds(kind, n - 1, other);
      assert seq(n, r => kind) == seq(n - 1, r => kind) + [kind];
    }
  }

  /** 8 full rounds and 56 partial ones. */
  lemma RoundCounts(kinds: seq<Round>)
    requires |kinds| == 64 && forall r :: 0 <= r < 64 ==> (kinds[r].Full? <==> r < 4 || r >= 60)
    ensures multiset(kinds)[Full] == 8 && multiset(kinds)[Partial] == 56
  {
    var full, partial := seq(4, r => Full), seq(56, r => Partial);
    RepeatedRounds(Full, 4, Full);
    RepeatedRounds(Full, 4, Partial);
    RepeatedRounds(Partial, 56, Full);
    RepeatedRounds(Partial, 56, Partial);
    assert kinds == full + partial + full;
  }

  // ----- the prover's permutation, in place

  ghost predicate Holds(s: array<int>, q: Quad)
    reads s
  {
    s.Length == 4 && s[0] == q.a && s[1] == q.b && s[2] == q.c && s[3] == q.d
  }

  method SboxSingle(x: int) returns (r: int)
    ensures r == Fifth(x)
  {
    var s := x * x;
    r := s * s * x;
    FifthBySquares(x);
  }

  lemma FifthBySquares(x: int)
    ensures Fifth(x) == x * x * (x * x) * x
  {
    assert Pow(x, 1) == x;
    assert Pow(x, 2) == x * x;
    assert Pow(x, 3) == x * x * x;
    assert Pow(x, 4) == x * x * x * x;
    assert x * x * x * x == x * x * (x * x);
  }

  method AddRc(s: array<int>, k: Quad, ghost q: Quad)
    requires Holds(s, q)
    modifies s
    ensures Holds(s, Plus(q, k))
  {
    s[0] := s[0] + k.a;
    s[1] := s[1] + k.b;
    s[2] := s[2] + k.c;
    s[3] := s[3] + k.d;
  }

  method SboxFull(s: array<int>, ghost q: Quad)
    requires Holds(s, q)
    modifies s
    ensures Holds(s, Quad(Fifth(q.a), Fifth(q.b), Fifth(q.c), Fifth(q.d)))
  {
    ghost var was := s[..];
    for i := 0 to 4
      invariant forall j :: 0 <= j < i ==> s[j] == Fifth(was[j])
      invariant forall j :: i <= j < 4 ==> s[j] == was[j]
    {
      s[i] := SboxSingle(s[i]);
    }
  }

  method MatMulExternal(s: array<int>, ghost q: Quad)
    requires Holds(s, q)
    modifies s
    ensures Holds(s, External(q))
  {
    var t0 := s[0] + s[1];
    var t1 := s[2] + s[3];
    var t2 := s[1] + s[1];
    t2 := t2 + t1;
    var t3 := s[3] + s[3];
    t3 := t3 + t0;
    var t4 := t1 + t1;
    t4 := t4 + t4;
    t4 := t4 + t3;
    var t5 := t0 + t0;
    t5 := t5 + t5;
    t5 := t5 + t2;
    s[0] := t3 + t5;
    s[1] := t5;
    s[2] := t2 + t4;
    s[3] := t4;
  }

  method MatMulInternal(s: array<int>, diag: Quad, ghost q: Quad)
    requires Holds(s, q)
    modifies s
    ensures Holds(s, Internal(diag, q))
  {
    var sum := s[0] + s[1] + s[2] + s[3];
    s[0] := s[0] * diag.a + sum;
    s[1] := s[1] * diag.b + sum;
    s[2] := s[2] * diag.c + sum;
    s[3] := s[3] * diag.d + sum;
  }

  method FullRoundInPlace(s: array<int>, k: Quad, ghost q: Quad)
    requires Holds(s, q)
    modifies s
    ensures Holds(s, FullRound(k, q))
  {
    AddRc(s, k, q);
    SboxFull(s, Plus(q, k));
    var p := Plus(q, k);
    MatMulExternal(s, Quad(Fifth(p.a), Fifth(p.b), Fifth(p.c), Fifth(p.d)));
  }

  method PartialRoundInPlace(s: array<int>, k: int, diag: Quad, ghost q: Quad)
    requires Holds(s, q)
    modifies s
    ensures Holds(s, PartialRound(k, diag, q))
  {
    s[0] := s[0] + k;
    s[0] := SboxSingle(s[0]);
    MatMulInternal(s, diag, Quad(Fifth(q.a + k), q.b, q.c, q.d));
  }

  method Permutation(s: array<int>, params: Params, ghost q: Quad)
    requires Holds(s, q) && |params.rc| == 64
    modifies s
    ensures Holds(s, PermutationOf(params, q))
    ensures forall kinds: seq<Round> ::
      |kinds| == 64 && (forall r :: 0 <= r < 64 ==> (kinds[r].Full? <==> r < 4 || r >= 60)) ==>
        Holds(s, After(params, kinds, External(q), 64))
  {
    MatMulExternal(s, q);
    ghost var start, kinds := External(q), Schedule();
    for r := 0 to 4
      invariant Holds(s, After(params, kinds, start, r))
    {
      FullRoundInPlace(s, params.rc[r], After(params, kinds, start, r));
    }
    for r := 4 to 60
      invariant Holds(s, After(params, kinds, start, r))
    {
      PartialRoundInPlace(s, params.rc[r].a, params.diag, After(params, kinds, start, r));
    }
    for r := 60 to 64
      invariant Holds(s, After(params, kinds, start, r))
    {
      FullRoundInPlace(s, params.rc[r], After(params, kinds, start, r));
    }
    forall other: seq<Round> |
      |other| == 64 && (forall r :: 0 <= r < 64 ==> (other[r].Full? <==> r < 4 || r >= 60))
      ensures Holds(s, After(params, other, External(q), 64))
    {
      PermutationRounds(params, other, q);
    }
  }

  /** Four-input hash: absorb three, permute, add the fourth, permute. */
  function Hash4Of(params: Params, a: int, b: int, c: int, d: int): int
    requires |params.rc| == 64
  {
    var first := PermutationOf(params, Quad(a, b, c, 4 * 18446744073709551616));
    PermutationOf(params, first.(a := first.a + d)).a
  }

  method Perm4(params: Params, a: int, b: int, c: int, d: int) returns (r: int)
    requires |params.rc| == 64
    ensures r == Hash4Of(params, a, b, c, d)
    ensures
      var first := PermutationOf(params, Quad(a, b, c, 4 * 0x1_0000_0000_0000_0000));
      r == PermutationOf(params, Quad(first.a + d, first.b, first.c, first.d)).a
  {
    var iv := 4 * 18446744073709551616;
    var state := new int[4];
    state[0], state[1], state[2], state[3] := a, b, c, iv;
    ghost var first := PermutationOf(params, Quad(a, b, c, iv));
    Permutation(state, params, Quad(a, b, c, iv));
    state[0] := state[0] + d;
    Permutation(state, params, first.(a := first.a + d));
    SecondPermutation(params, a, b, c, d, first);
    return state[0];
  }

  lemma SecondPermutation(params: Params, a: int, b: int, c: int, d: int, first: Quad)
    requires |params.rc| == 64 && first == PermutationOf(params, Quad(a, b, c, 4 * 18446744073709551616))
    ensures PermutationOf(params, first.(a := first.a + d)).a == Hash4Of(params, a, b, c, d)
  {
  }

  // ----- the verifier's relations

  const NUMBER_OF_SUBRELATIONS: nat := 26

  function Row(p: seq<int>): Quad
    requires |p| == NUMBER_OF_ENTITIES
  {
    Quad(p[WL], p[WR], p[WO], p[W4])
  }

  function Shifted(p: seq<int>): Quad
    requires |p| == NUMBER_OF_ENTITIES
  {
    Quad(p[WL_SHIFT], p[WR_SHIFT], p[WO_SHIFT], p[W4_SHIFT])
  }

  function Selectors(p: seq<int>): Quad
    requires |p| == NUMBER_OF_ENTITIES
  {
    Quad(p[QL], p[QR], p[QO], p[Q4])
  }

  /** Four slots hold the distance from the next row to the expected one, times a factor. */
  ghost predicate Distances(evals: seq<int>, at: nat, expected: Quad, next: Quad, factor: int)
    requires at + 4 <= |evals|
  {
    && evals[at] == (expected.a - next.a) * factor
    && evals[at + 1] == (expected.b - next.b) * factor
    && evals[at + 2] == (expected.c - next.c) * factor
    && evals[at + 3] == (expected.d - next.d) * factor
  }

  ghost predicate OnlySlots(before: seq<int>, after: seq<int>, at: nat) {
    |before| == |after| && forall i :: 0 <= i < |before| && !(at <= i < at + 4) ==> after[i] == before[i]
  }

  method WriteDistances(evals: array<int>, at: nat, expected: Quad, next: Quad, factor: int)
    requires at + 4 <= evals.Length
    modifies evals
    ensures OnlySlots(old(evals[..]), evals[..], at)
    ensures Distances(evals[..], at, expected, next, factor)
  {
    evals[at] := (expected.a - next.a) * factor;
    evals[at + 1] := (expected.b - next.b) * factor;
    evals[at + 2] := (expected.c - next.c) * factor;
    evals[at + 3] := (expected.d - next.d) * factor;
  }

  /** The full round of the current row, and where its parts stand among the evaluations. */
  lemma FullRow(p: seq<int>, u1: int, u2: int, u3: int, u4: int)
    requires |p| == NUMBER_OF_ENTITIES
    requires u1 == Fifth(p[27] + p[2]) && u2 == Fifth(p[28] + p[3])
    requires u3 == Fifth(p[29] + p[4]) && u4 == Fifth(p[30] + p[5])
    ensures FullRound(Selectors(p), Row(p)) == Quad(5 * u1 + 7 * u2 + u3 + 3 * u4, 4 * u1 + 6 * u2 + u3 + u4,
                                                    u1 + 3 * u2 + 5 * u3 + 7 * u4, u1 + u2 + 4 * u3 + 6 * u4)
  {
  }

  /** The partial round, likewise. */
  lemma PartialRow(p: seq<int>, diag: Quad, u: int, sum: int)
    requires |p| == NUMBER_OF_ENTITIES && u == Fifth(p[27] + p[2]) && sum == u + p[28] + p[29] + p[30]
    ensures PartialRound(p[QL], diag, Row(p))
         == Quad(u * diag.a + sum, p[28] * diag.b + sum, p[29] * diag.c + sum, p[30] * diag.d + sum)
  {
  }

  /** The verifier's own addition chain for the external matrix. */
  method ExternalSums(u1: int, u2: int, u3: int, u4: int) returns (v1: int, v2: int, v3: int, v4: int)
    ensures v1 == 5 * u1 + 7 * u2 + u3 + 3 * u4
    ensures v2 == 4 * u1 + 6 * u2 + u3 + u4
    ensures v3 == u1 + 3 * u2 + 5 * u3 + 7 * u4
    ensures v4 == u1 + u2 + 4 * u3 + 6 * u4
  {
    var t0 := u1 + u2;
    var t1 := u3 + u4;
    var t2 := u2 + u2 + t1;
    var t3 := u4 + u4 + t0;
    v4 := t1 + t1 + t1 + t1 + t3;
    v2 := t0 + t0 + t0 + t0 + t2;
    v1 := t3 + v2;
    v3 := t2 + v4;
  }

  /** Slots 18..21: against the prover's full round of the current row. */
  method AccumulateExternal(p: seq<int>, evals: array<int>, domainSep: int)
    requires |p| == NUMBER_OF_ENTITIES && evals.Length == NUMBER_OF_SUBRELATIONS
    modifies evals
    ensures OnlySlots(old(evals[..]), evals[..], 18)
    ensures Distances(evals[..], 18, FullRound(Selectors(p), Row(p)), Shifted(p),
                      p[Q_POSEIDON2_EXTERNAL] * domainSep)
    ensures
      var u1, u2, u3, u4 := Fifth(p[27] + p[2]), Fifth(p[28] + p[3]), Fifth(p[29] + p[4]), Fifth(p[30] + p[5]);
      Distances(evals[..], 18, Quad(5 * u1 + 7 * u2 + u3 + 3 * u4, 4 * u1 + 6 * u2 + u3 + u4,
                                    u1 + 3 * u2 + 5 * u3 + 7 * u4, u1 + u2 + 4 * u3 + 6 * u4),
                Quad(p[35], p[36], p[37], p[38]), p[11] * domainSep)
  {
    var s1 := p[WL] + p[QL];
    var s2 := p[WR] + p[QR];
    var s3 := p[WO] + p[QO];
    var s4 := p[W4] + p[Q4];
    var u1 := Fifth(s1);
    var u2 := Fifth(s2);
    var u3 := Fifth(s3);
    var u4 := Fifth(s4);
    var v1, v2, v3, v4 := ExternalSums(u1, u2, u3, u4);
    FullRow(p, u1, u2, u3, u4);
    var qPoseidonDom := p[Q_POSEIDON2_EXTERNAL] * domainSep;
    WriteDistances(evals, 18, Quad(v1, v2, v3, v4), Shifted(p), qPoseidonDom);
  }

  /** Slots 22..25: against the prover's partial round of the current row. */
  method AccumulateInternal(p: seq<int>, evals: array<int>, domainSep: int, diag: Quad)
    requires |p| == NUMBER_OF_ENTITIES && evals.Length == NUMBER_OF_SUBRELATIONS
    modifies evals
    ensures OnlySlots(old(evals[..]), evals[..], 22)
    ensures Distances(evals[..], 22, PartialRound(p[QL], diag, Row(p)), Shifted(p),
                      p[Q_POSEIDON2_INTERNAL] * domainSep)
    ensures
      var u := Fifth(p[27] + p[2]);
      var sum := u + p[28] + p[29] + p[30];
      Distances(evals[..], 22, Quad(u * diag.a + sum, p[28] * diag.b + sum, p[29] * diag.c + sum, p[30] * diag.d + sum),
                Quad(p[35], p[36], p[37], p[38]), p[12] * domainSep)
  {
    var u1 := Fifth(p[WL] + p[QL]);
    var u2 := p[WR];
    var u3 := p[WO];
    var u4 := p[W4];
    var qPoseidonDom := p[Q_POSEIDON2_INTERNAL] * domainSep;
    var uSum := u1 + u2 + u3 + u4;
    var w1 := u1 * diag.a + uSum;
    var w2 := u2 * diag.b + uSum;
    var w3 := u3 * diag.c + uSum;
    var w4 := u4 * diag.d + uSum;
    PartialRow(p, diag, u1, uSum);
    WriteDistances(evals, 22, Quad(w1, w2, w3, w4), Shifted(p), qPoseidonDom);
  }

  // ----- what the relations say

  ghost predicate Same(p: Prime, q: Quad, r: Quad) {
    Cong(p, q.a, r.a) && Cong(p, q.b, r.b) && Cong(p, q.c, r.c) && Cong(p, q.d, r.d)
  }

  ghost predicate Vanish(p: Prime, evals: seq<int>, at: nat)
    requires at + 4 <= |evals|
  {
    Cong(p, evals[at], 0) && Cong(p, evals[at + 1], 0) && Cong(p, evals[at + 2], 0) && Cong(p, evals[at + 3], 0)
  }

  lemma DistanceVanishes(p: Prime, x: int, y: int, factor: int)
    ensures Cong(p, (x - y) * factor, 0) <==> Cong(p, factor, 0) || Cong(p, x, y)
  {
    assert Cong(p, x - y, 0) <==> Cong(p, x, y);
    if Cong(p, (x - y) * factor, 0) {
      NoZeroDivisors(p, x - y, factor);
    }
    if Cong(p, x, y) {
      CongScale(p, x - y, 0, factor);
    }
    if Cong(p, factor, 0) {
      CongScale(p, factor, 0, x - y);
    }
  }

  /** The four subrelations hold exactly when the gate is off or the next row is the expected one. */
  lemma RelationIff(p: Prime, evals: seq<int>, at: nat, expected: Quad, next: Quad, factor: int)
    requires at + 4 <= |evals| && Distances(evals, at, expected, next, factor)
    ensures Vanish(p, evals, at) <==> Cong(p, factor, 0) || Same(p, expected, next)
  {
    DistanceVanishes(p, expected.a, next.a, factor);
    DistanceVanishes(p, expected.b, next.b, factor);
    DistanceVanishes(p, expected.c, next.c, factor);
    DistanceVanishes(p, expected.d, next.d, factor);
  }

  lemma FifthCong(p: Prime, x: int, y: int)
    requires Cong(p, x, y)
    ensures Cong(p, Fifth(x), Fifth(y))
  {
    CongMul(p, x, y, x, y);
    CongMul(p, x * x, y * y, x * x, y * y);
    CongMul(p, x * x * (x * x), y * y * (y * y), x, y);
    FifthBySquares(x);
    FifthBySquares(y);
  }

  /** k1*x1 + k2*x2 + k3*x3 + k4*x4 */
  function Row4(k1: int, k2: int, k3: int, k4: int, q: Quad): int {
    q.a * k1 + q.b * k2 + q.c * k3 + q.d * k4
  }

  lemma Row4Cong(p: Prime, k1: int, k2: int, k3: int, k4: int, q: Quad, r: Quad)
    requires Same(p, q, r)
    ensures Cong(p, Row4(k1, k2, k3, k4, q), Row4(k1, k2, k3, k4, r))
  {
    CongScale(p, q.a, r.a, k1);
    CongScale(p, q.b, r.b, k2);
    CongScale(p, q.c, r.c, k3);
    CongScale(p, q.d, r.d, k4);
    CongAdd(p, q.a * k1, r.a * k1, q.b * k2, r.b * k2);
    CongAdd(p, q.a * k1 + q.b * k2, r.a * k1 + r.b * k2, q.c * k3, r.c * k3);
    CongAdd(p, q.a * k1 + q.b * k2 + q.c * k3, r.a * k1 + r.b * k2 + r.c * k3, q.d * k4, r.d * k4);
  }

  lemma ExternalCong(p: Prime, q: Quad, r: Quad)
    requires Same(p, q, r)
    ensures Same(p, External(q), External(r))
  {
    Row4Cong(p, 5, 7, 1, 3, q, r);
    Row4Cong(p, 4, 6, 1, 1, q, r);
    Row4Cong(p, 1, 3, 5, 7, q, r);
    Row4Cong(p, 1, 1, 4, 6, q, r);
  }

  lemma InternalCong(p: Prime, diag: Quad, q: Quad, r: Quad)
    requires Same(p, q, r)
    ensures Same(p, Internal(diag, q), Internal(diag, r))
  {
    Row4Cong(p, 1, 1, 1, 1, q, r);
    var s, t := q.a + q.b + q.c + q.d, r.a + r.b + r.c + r.d;
    assert Row4(1, 1, 1, 1, q) == s && Row4(1, 1, 1, 1, r) == t;
    CongScale(p, q.a, r.a, diag.a);
    CongScale(p, q.b, r.b, diag.b);
    CongScale(p, q.c, r.c, diag.c);
    CongScale(p, q.d, r.d, diag.d);
    CongAdd(p, q.a * diag.a, r.a * diag.a, s, t);
    CongAdd(p, q.b * diag.b, r.b * diag.b, s, t);
    CongAdd(p, q.c * diag.c, r.c * diag.c, s, t);
    CongAdd(p, q.d * diag.d, r.d * diag.d, s, t);
  }

  lemma ShiftedFifth(p: Prime, x: int, y: int, k: int, l: int)
    requires Cong(p, x, y) && Cong(p, k, l)
    ensures Cong(p, Fifth(x + k), Fifth(y + l))
  {
    CongAdd(p, x, y, k, l);
    FifthCong(p, x + k, y + l);
  }

  lemma RoundCong(p: Prime, kind: Round, k: Quad, l: Quad, diag: Quad, q: Quad, r: Quad)
    requires Same(p, q, r) && Cong(p, k.a, l.a)
    requires kind.Full? ==> Same(p, k, l)
    ensures Same(p, RoundOf(kind, k, diag, q), RoundOf(kind, l, diag, r))
  {
    ShiftedFifth(p, q.a, r.a, k.a, l.a);
    if kind.Full? {
      ShiftedFifth(p, q.b, r.b, k.b, l.b);
      ShiftedFifth(p, q.c, r.c, k.c, l.c);
      ShiftedFifth(p, q.d, r.d, k.d, l.d);
      ExternalCong(p, Quad(Fifth(q.a + k.a), Fifth(q.b + k.b), Fifth(q.c + k.c), Fifth(q.d + k.d)),
                   Quad(Fifth(r.a + l.a), Fifth(r.b + l.b), Fifth(r.c + l.c), Fifth(r.d + l.d)));
    } else {
      InternalCong(p, diag, Quad(Fifth(q.a + k.a), q.b, q.c, q.d), Quad(Fifth(r.a + l.a), r.b, r.c, r.d));
    }
  }

  lemma SameTrans(p: Prime, q: Quad, r: Quad, s: Quad)
    requires Same(p, q, r) && Same(p, r, s)
    ensures Same(p, q, s)
  {
    CongTrans(p, q.a, r.a, s.a);
    CongTrans(p, q.b, r.b, s.b);
    CongTrans(p, q.c, r.c, s.c);
    CongTrans(p, q.d, r.d, s.d);
  }

  lemma SameSym(p: Prime, q: Quad, r: Quad)
    requires Same(p, q, r)
    ensures Same(p, r, q)
  {
    CongSym(p, q.a, r.a);
    CongSym(p, q.b, r.b);
    CongSym(p, q.c, r.c);
    CongSym(p, q.d, r.d);
  }

  // ----- whole traces

  /** One row's relation values: the distance of the next row from the round of this one. */
  ghost predicate RowEvaluated(evals: seq<int>, kind: Round, selectors: Quad, diag: Quad, row: Quad, next: Quad,
                               factor: int) {
    && |evals| == NUMBER_OF_SUBRELATIONS
    && Distances(evals, if kind.Full? then 18 else 22, RoundOf(kind, selectors, diag, row), next, factor)
  }

  /** A trace of rows under a schedule, its relation values, and its active gates. */
  ghost predicate Trace(p: Prime, params: Params, kinds: seq<Round>, rows: seq<Quad>, evals: seq<seq<int>>,
                        factors: seq<int>) {
    && |kinds| <= |params.rc| && |rows| == |kinds| + 1 && |evals| == |factors| == |kinds|
    && forall r :: 0 <= r < |kinds| ==>
         && RowEvaluated(evals[r], kinds[r], params.rc[r], params.diag, rows[r], rows[r + 1], factors[r])
         && !Cong(p, factors[r], 0)
  }

  ghost predicate RowHolds(p: Prime, evals: seq<int>, kind: Round) {
    |evals| == NUMBER_OF_SUBRELATIONS && Vanish(p, evals, if kind.Full? then 18 else 22)
  }

  /** One active gate, the current row being congruent to a state. */
  lemma RowIff(p: Prime, evals: seq<int>, kind: Round, k: Quad, diag: Quad, row: Quad, next: Quad, factor: int,
               state: Quad)
    requires RowEvaluated(evals, kind, k, diag, row, next, factor) && !Cong(p, factor, 0) && Same(p, row, state)
    ensures RowHolds(p, evals, kind) <==> Same(p, next, RoundOf(kind, k, diag, state))
  {
    var at, expected, after := if kind.Full? then 18 else 22, RoundOf(kind, k, diag, row),
        RoundOf(kind, k, diag, state);
    RelationIff(p, evals, at, expected, next, factor);
    SameRefl(p, k);
    RoundCong(p, kind, k, k, diag, row, state);
    if Same(p, expected, next) {
      SameSym(p, expected, next);
      SameTrans(p, next, expected, after);
    }
    if Same(p, next, after) {
      SameSym(p, next, after);
      SameTrans(p, expected, after, next);
    }
  }

  ghost predicate RowMatches(p: Prime, params: Params, kinds: seq<Round>, rows: seq<Quad>, start: Quad, r: nat)
    requires r <= |kinds| <= |params.rc| && r < |rows|
  {
    Same(p, rows[r], After(params, kinds, start, r))
  }

  lemma NextRow(p: Prime, params: Params, kinds: seq<Round>, rows: seq<Quad>, evals: seq<seq<int>>, factors: seq<int>,
                start: Quad, r: nat)
    requires Trace(p, params, kinds, rows, evals, factors) && r < |kinds|
             && RowMatches(p, params, kinds, rows, start, r)
    ensures RowHolds(p, evals[r], kinds[r]) <==> RowMatches(p, params, kinds, rows, start, r + 1)
  {
    RowIff(p, evals[r], kinds[r], params.rc[r], params.diag, rows[r], rows[r + 1], factors[r],
           After(params, kinds, start, r));
  }

  ghost predicate AllHold(p: Prime, kinds: seq<Round>, evals: seq<seq<int>>, n: nat)
    requires n <= |kinds| && n <= |evals|
  {
    forall r :: 0 <= r < n ==> RowHolds(p, evals[r], kinds[r])
  }

  ghost predicate AllMatch(p: Prime, params: Params, kinds: seq<Round>, rows: seq<Quad>, start: Quad, n: nat)
    requires n <= |kinds| <= |params.rc| && n < |rows|
  {
    forall r :: 0 <= r <= n ==> RowMatches(p, params, kinds, rows, start, r)
  }

  /** The subrelations vanish on the first n rows exactly when those rows are the rounds' states. */
  lemma {:induction false} TraceIffRounds(p: Prime, params: Params, kinds: seq<Round>, rows: seq<Quad>,
                                          evals: seq<seq<int>>, factors: seq<int>, start: Quad, n: nat)
    requires Trace(p, params, kinds, rows, evals, factors) && n <= |kinds|
             && RowMatches(p, params, kinds, rows, start, 0)
    ensures AllHold(p, kinds, evals, n) <==> AllMatch(p, params, kinds, rows, start, n)
  {
    if n > 0 {
      TraceIffRounds(p, params, kinds, rows, evals, factors, start, n - 1);
      if RowMatches(p, params, kinds, rows, start, n - 1) {
        NextRow(p, params, kinds, rows, evals, factors, start, n - 1);
      }
      assert AllHold(p, kinds, evals, n)
        <==> AllHold(p, kinds, evals, n - 1) && RowHolds(p, evals[n - 1], kinds[n - 1]);
      assert AllMatch(p, params, kinds, rows, start, n)
        <==> AllMatch(p, params, kinds, rows, start, n - 1) && RowMatches(p, params, kinds, rows, start, n);
    }
  }

  lemma SameRefl(p: Prime, q: Quad)
    ensures Same(p, q, q)
  {
    CongRefl(p, q.a);
    CongRefl(p, q.b);
    CongRefl(p, q.c);
    CongRefl(p, q.d);
  }

  /** So a trace that starts from the mixed input and satisfies the relations ends in the permutation's output. */
  lemma TraceEndsInPermutation(p: Prime, params: Params, kinds: seq<Round>, rows: seq<Quad>, evals: seq<seq<int>>,
                               factors: seq<int>, input: Quad)
    requires |params.rc| == 64 && Trace(p, params, kinds, rows, evals, factors)
    requires |kinds| == 64 && forall r :: 0 <= r < 64 ==> (kinds[r].Full? <==> r < 4 || r >= 60)
    requires Same(p, rows[0], External(input)) && AllHold(p, kinds, evals, 64)
    ensures Same(p, rows[64], PermutationOf(params, input))
  {
    TraceIffRounds(p, params, kinds, rows, evals, factors, External(input), 64);
    assert RowMatches(p, params, kinds, rows, External(input), 64);
    PermutationRounds(params, kinds, input);
  }
}
