# Verification of the Solva proof pipeline

A Dafny model of the parts of the repository that decide whether a solvency proof is right, with proofs of
what they are for. `dafny verify dfyconfig.toml` checks everything.

* **The UltraHonk verifier's algebra.** `PrimeField`, `Polynomials`, `Sums` are the field and polynomials,
  `ProofShape` the sizes; `BatchInversion`, `Barycentric`, `Sumcheck`, `SumcheckRuns` follow the sumcheck
  verifier; `Gemini`, `Shplonk`, `Shplemini`, `ShpleminiOpening` the batch opening, which
  `ShpleminiCompleteness` and `ShpleminiVerdict` prove complete and `ShplonkSoundness`, `GeminiSoundness` and
  `OpeningSoundness` sound; `Poseidon2` the gate relations against the prover's permutation.
* **The point stack.** `PointArithmetic`, `ChordIdentities`, `GroupLaw`, `CompleteAddition`, `Doubling`,
  `PointOperations` say when the formulas are the chord-and-tangent law; `SumLaws` and `Associativity` prove
  that this law is a group; `AbelianGroup`, `Radix16`, `LookupTable`, `LinearCombination`, `BasepointTable` are
  scalar multiplication over any operations that implement a commutative group, and `CurveGroup` puts the
  crate's own operations there; `Fermat`, `Osswu` the map to the curve.
* **The Merkle Sum Tree.** `MerkleSumTree` and `Prover` build it, `Inclusion` proves path checks sound, and
  `AcceptedInclusion` says what the registry's answers tell about a published tree.
* **Registry and cycles.** `ProofRegistry` is the contract, `CycleProtocol` the interleaving of runs,
  `Cycle` the imperative run, shown to take steps of the protocol only.

## How to read it

A field element is any integer of its residue class, equality of field elements is `Cong`, and reducing after
every step would change nothing (`PrimeField.ReducingIsHarmless`). Primality of the modulus is a hypothesis
carried by the type `Prime`; inverses, Fermat's little theorem and the root bound are proved from it.

A point of the pairing group is its discrete logarithm, so the commitment of f is f at the secret point tau and
the final check reads P0 = tau * W. Lemmas hold for every number of rounds; the cap of 28 appears in the
methods, where the code checks it.

Soundness is stated challenge by challenge. `OpeningSoundness.AcceptedOpening` takes the polynomials behind all
commitments as given, of any content, and says that an accepted opening is true unless one of rho, r, z and tau
fools the verifier; `FewRhosFool`, `FewRsFool`, `FewZsFool` and `FewTausFool` count the values that do, whatever
was committed to before. `SumcheckRuns.FalseSumRarelyWins` counts whole challenge vectors for the sumcheck, against
a prover who adapts to each challenge.

Loops and in-place updates of the source are methods on arrays or classes, each proved against a function;
what that function is good for is proved as lemmas. Straight-line expressions are functions.

Hash soundness is by extraction: the hash is an arbitrary function of four reduced field elements, and
`Inclusion.InclusionSoundness` names the two colliding inputs, computed from the tree and the path, and states
the collision of the hash itself: two different quadruples of reduced elements with one output.

The comment at contracts/proof-registry/src/storage.rs:33-35 says that sums are not hashed. The code hashes
them (contracts/proof-registry/src/lib.rs:202-218) and so does the model. The comment at
patches/primeorder/src/tables/radix16.rs:25 gives the digit range [-8, 8]; the code stays within [-8, 7] and a
last digit of 0 or 1.

The comment at patches/primeorder/src/point_arithmetic.rs:56 calls the addition complete for any curve. On a
nonsingular curve it is exact for two points if and only if their difference does not have order two
(`CompleteAddition.AddRepresentsIff`), and the identity plus a point of order two is already wrong
(`CompleteAddition.AddFailsAtOrderTwo`). The crate is for curves of prime order (patches/primeorder/src/lib.rs:48-58),
which have no such points, so none of its curves is affected; doubling is exact on every nonsingular curve.

Hypotheses worth knowing: sumcheck needs p > 7; the group law needs p > 2 and a nonsingular curve, completeness
of the formulas no point of order two besides, as on every curve of odd order; the count of z assumes that nu is
nonzero and the points r^(2^j), -r^(2^j) are pairwise different; the map needs p = 3 mod 4, c1 = (p - 3)/4,
c2^2 = -Z, A and Z nonzero and g(B/(Z*A)) a square, and does not need Z to be a nonsquare; the growth bound over
runs needs a verifier that accepts only 10*R <= 11*R_prev.

## Model

| member | source | states |
|---|---|---|
| PrimeField.ReducingIsHarmless | crates/ultrahonk-soroban-verifier/src/field.rs:145-198 | reducing operands and results modulo p changes no field value, and two integers are the same element exactly when their residues agree; it lets every module compute on representatives |
| PrimeField.Inv | crates/ultrahonk-soroban-verifier/src/field.rs:96-99 | the inverse of any nonzero element, by extended Euclid from primality alone |
| BatchInversion.ProductIsZero | crates/ultrahonk-soroban-verifier/src/field.rs:124-133 | a running product vanishes exactly when some factor does, so one test of the total detects any zero element |
| BatchInversion.BatchInverse | crates/ultrahonk-soroban-verifier/src/field.rs:116-143 | succeeds exactly when no element is zero, for every length including 0, and then out[i] inverts vals[i] |
| Barycentric.ShippedWeightsAreLagrangeDenominators | crates/ultrahonk-soroban-verifier/src/sumcheck.rs:19-60 | each shipped 32-byte constant is, modulo the group order, the product of the differences of its node to the other seven |
| Barycentric.LagrangeForm | crates/ultrahonk-soroban-verifier/src/sumcheck.rs:71-79 | 5040 times any value of a polynomial of degree at most 7 is the Lagrange sum of its values at 0..7; an integer identity |
| Barycentric.BarycentricIsExact | crates/ultrahonk-soroban-verifier/src/sumcheck.rs:97-118 | the node product times the sum of values over inverted denominators is the polynomial at the challenge |
| Barycentric.BarycentricDenominators | crates/ultrahonk-soroban-verifier/src/sumcheck.rs:97-110 | the node product and the eight denominators, all nonzero off the domain, are inverted without error |
| Barycentric.ComputeNextTargetSum | crates/ultrahonk-soroban-verifier/src/sumcheck.rs:80-119 | never fails, and returns the value at the challenge of the unique polynomial of degree at most 7 through the eight values, on the domain shortcut as well as off it |
| Polynomials.Interpolant | crates/ultrahonk-soroban-verifier/src/sumcheck.rs:71-78 | an independent Newton construction of the polynomial through given values at 0, 1, 2, ... |
| Polynomials.ThroughIsUnique | crates/ultrahonk-soroban-verifier/src/sumcheck.rs:71-78 | two polynomials of that degree through the same values agree at every point |
| Polynomials.RootsAreFew | crates/ultrahonk-soroban-verifier/src/sumcheck.rs:148-217 | a polynomial that is not zero modulo p has fewer roots than coefficients |
| Polynomials.DistinctPolynomialsAgreeRarely | crates/ultrahonk-soroban-verifier/src/sumcheck.rs:148-217 | two polynomials that differ somewhere agree at fewer points than they have coefficients |
| Sumcheck.PartialSumIsCubeSum | crates/ultrahonk-soroban-verifier/src/sumcheck.rs:137-147 | the nested round sums of a polynomial, with nothing fixed, are its sum over the hypercube |
| Sumcheck.RoundPolyIsPartialSum | crates/ultrahonk-soroban-verifier/src/sumcheck.rs:137-147 | the explicit univariate of a round, degree at most 7, takes the partial sum at every point |
| Sumcheck.RunRound | crates/ultrahonk-soroban-verifier/src/sumcheck.rs:168-190 | one turn of the loop: passes exactly when the univariate sums to the target, and then moves to its value at the challenge |
| Sumcheck.RunRounds | crates/ultrahonk-soroban-verifier/src/sumcheck.rs:165-191 | the loop over the rounds: passes exactly when every round sum meets its target, and then holds the last target |
| Sumcheck.VerifySumcheck | crates/ultrahonk-soroban-verifier/src/sumcheck.rs:148-217 | range error exactly outside 1..28; otherwise passes exactly when every round sum meets its target and the relation value, at the gate separator, meets the last one; "round failed" exactly when some round fails |
| Sumcheck.SumcheckSoundness | crates/ultrahonk-soroban-verifier/src/sumcheck.rs:148-217 | an accepted run on a polynomial whose hypercube sum is not 0, ending in its true value, has a round whose univariate differs from the true partial sum yet agrees with it at the challenge; any number of rounds, the first n of any list of challenges |
| Sumcheck.FewChallengesFool | crates/ultrahonk-soroban-verifier/src/sumcheck.rs:168-183 | a false univariate is fooled by at most 7 challenges |
| SumcheckRuns.FalseSumRarelyWins | crates/ultrahonk-soroban-verifier/src/sumcheck.rs:148-217 | over whole runs: a prover who sees every earlier challenge before sending a univariate, and whose polynomial does not sum to 0, wins on at most 7*n*p^(n-1) of the p^n challenge vectors |
| Sumcheck.SumcheckCompleteness | crates/ultrahonk-soroban-verifier/src/sumcheck.rs:148-217 | for every polynomial of degree at most 7 per variable with hypercube sum 0 the honest run of n rounds is accepted at all challenges, also when more than n are held |
| Sumcheck.VerifyHonestSumcheck | crates/ultrahonk-soroban-verifier/src/sumcheck.rs:148-217 | the verifier itself, with its 28 challenges, passes every honest proof of 1 to 28 rounds |
| Sumcheck.GateSeparatorIsMultilinearExtension | crates/ultrahonk-soroban-verifier/src/sumcheck.rs:121-135 | the running gate separator is the multilinear extension, at the challenges, of corner -> product of its selected betas |
| Gemini.FoldAtSquare | crates/ultrahonk-soroban-verifier/src/shplemini.rs:233-244 | a fold at r^2 from the values at r and -r; integer identity behind the recovery step |
| Gemini.RecoverPositive | crates/ultrahonk-soroban-verifier/src/shplemini.rs:236-244 | one recovery step: from the fold at r^2 and the value at -r, with an inverse of r(1-u)+u, the value at r |
| Gemini.LastFold | crates/ultrahonk-soroban-verifier/src/shplemini.rs:233-244 | folding all the way by u_1..u_n leaves the multilinear evaluation at u |
| ShpleminiCompleteness.FoldRecovery | crates/ultrahonk-soroban-verifier/src/shplemini.rs:233-244 | for every vector of length 2^n the loop leaves, at every j, the j-th fold at r^(2^j), when the claimed values at -r^(2^j) are true and it starts from the multilinear evaluation |
| Shplonk.ClaimVanishes | crates/ultrahonk-soroban-verifier/src/shplemini.rs:128-132 | a true claim, its quotient and its weight cancel at z |
| Shplonk.TrueClaimsVanish | crates/ultrahonk-soroban-verifier/src/shplemini.rs:245-265 | when all 2n claims are true, quotient minus weighted polynomials plus the constant term vanishes at z, for any n |
| Shplonk.TrueQuotientPairs | crates/ultrahonk-soroban-verifier/src/shplemini.rs:284-291 | a polynomial that vanishes at z and its quotient by X - z meet the pairing equation at every secret point |
| ShplonkSoundness.CombinedIsBatch | crates/ultrahonk-soroban-verifier/src/shplemini.rs:245-276 | the sum of weighted, divided claim errors is the combination the verifier assembles: quotient minus weighted polynomials plus constant term |
| ShplonkSoundness.ClearedIsMultiple | crates/ultrahonk-soroban-verifier/src/shplemini.rs:128-132 | off the points, one fixed polynomial in z is the combination times a nonzero product |
| ShplonkSoundness.FalseClaimIsCaught | crates/ultrahonk-soroban-verifier/src/shplemini.rs:128-276 | one false claim among distinct points: fewer than m + number of claims challenges z pass, whatever quotient was committed to |
| ShplonkSoundness.FalseOpeningIsCaught | crates/ultrahonk-soroban-verifier/src/shplemini.rs:128-276 | an opening of n rounds with a false claim passes at fewer than m + 2n challenges z, for polynomials and quotient of at most m coefficients |
| GeminiSoundness.ClaimsLink | crates/ultrahonk-soroban-verifier/src/shplemini.rs:233-244 | the recovery step read backwards: two true claims about one committed fold force the next one to agree with its true fold at r^2, whatever was sent |
| GeminiSoundness.FirstBreak | crates/ultrahonk-soroban-verifier/src/shplemini.rs:233-244 | committed folds that lead from one polynomial to a false evaluation contain a neighbouring pair that is not a fold |
| GeminiSoundness.FalseFoldIsCaught | crates/ultrahonk-soroban-verifier/src/shplemini.rs:233-244 | and such a chain passes at fewer than (w + 1) * 2^n challenges r, for commitments of up to w times the honest length |
| OpeningSoundness.FewRhosFool | crates/ultrahonk-soroban-verifier/src/shplemini.rs:137-155 | a false one among the forty evaluations: fewer than 40 challenges rho make the batched evaluation true |
| OpeningSoundness.FewRsFool | crates/ultrahonk-soroban-verifier/src/shplemini.rs:233-244 | a false batched evaluation: fewer than (w + 2) * 2^log_n challenges r admit answers and inverses under which all the verifier's fold claims hold, for any committed folds, even if the shifted polynomials have constant terms |
| OpeningSoundness.FewZsFool | crates/ultrahonk-soroban-verifier/src/shplemini.rs:128-276 | a false fold claim: fewer than m + 2*log_n challenges z pass |
| OpeningSoundness.FewTausFool | crates/ultrahonk-soroban-verifier/src/shplemini.rs:284-291 | a combination that does not vanish at z: at most m secret points meet the pairing equation, for any KZG quotient of at most m coefficients |
| OpeningSoundness.AcceptedOpening | crates/ultrahonk-soroban-verifier/src/shplemini.rs:38-292 | soundness of the opening: whenever the verifier's equation holds for commitments to any polynomials, all forty evaluations are true, or rho, r, z or tau is one of those few values |
| Shplemini.G1Msm | crates/ultrahonk-soroban-verifier/src/ec.rs:69-87 | fails exactly on a length mismatch; skipping zero scalars, and the empty case, do not change the sum |
| Shplemini.SquarePowers | crates/ultrahonk-soroban-verifier/src/shplemini.rs:49-56 | r^(2^i) for every i below log_n |
| Shplemini.CollectDenominators | crates/ultrahonk-soroban-verifier/src/shplemini.rs:58-94 | the flat layout of the 3*log_n + 1 denominators |
| Shplemini.InverseFacts | crates/ultrahonk-soroban-verifier/src/shplemini.rs:66-72 | what each slot of an inverted layout inverts, by round |
| Shplemini.InvertDenominators | crates/ultrahonk-soroban-verifier/src/shplemini.rs:96-111 | the batch is inverted exactly when no denominator is zero |
| Shplemini.BatchEvaluations | crates/ultrahonk-soroban-verifier/src/shplemini.rs:137-162 | the scalars with the five shifted entries merged into their unshifted counterparts, and the rho-batched evaluation |
| Shplemini.LoadCommitments | crates/ultrahonk-soroban-verifier/src/shplemini.rs:164-231 | 27 key commitments and 8 witness commitments, each beside the scalar of its entity |
| Shplemini.GatesFollowEvaluations | crates/ultrahonk-soroban-verifier/src/shplemini.rs:176-190 | the gate selectors of the key, Poseidon2's among them, stand in the order of pushing at the indices under which the relations read their evaluations |
| Shplemini.FoldPositions | crates/ultrahonk-soroban-verifier/src/shplemini.rs:233-244 | the recovered positive evaluations, from the highest round down |
| Shplemini.AccumulateFolds | crates/ultrahonk-soroban-verifier/src/shplemini.rs:245-269 | the constant term, the fold scalars (zero past log_n) and all 27 fold commitments |
| Shplemini.AssembleOpening | crates/ultrahonk-soroban-verifier/src/shplemini.rs:113-282 | the two arrays of 65 entries handed to the multi-scalar multiplication |
| Shplemini.VerifyShplemini | crates/ultrahonk-soroban-verifier/src/shplemini.rs:38-292 | range error exactly outside 1..28; inversion error exactly when a denominator is zero; the zero-result error never; otherwise passes exactly when the assembled combination equals tau times the KZG commitment |
| ShpleminiOpening.MsmSplits | crates/ultrahonk-soroban-verifier/src/shplemini.rs:113-285 | the 65-term combination is the quotient, the 35 merged commitments, the folds, the constant and z times the KZG commitment |
| ShpleminiCompleteness.FoldedAtPoint | crates/ultrahonk-soroban-verifier/src/shplemini.rs:129-132 | the shifted batch enters round 0 divided by the evaluation point, for both signs |
| ShpleminiCompleteness.BatchedEvaluation | crates/ultrahonk-soroban-verifier/src/shplemini.rs:137-155 | the rho-batched sumcheck evaluations are the multilinear evaluation of the batched polynomial at the challenges |
| ShpleminiOpening.CommittedShares | crates/ultrahonk-soroban-verifier/src/shplemini.rs:157-231 | merging shifted scalars loses nothing: the 35 commitments contribute minus the two shares of round 0 |
| ShpleminiOpening.CommittedFolds | crates/ultrahonk-soroban-verifier/src/shplemini.rs:253-269 | the fold commitments contribute the committed folds at tau under the fold scalars, dummies nothing |
| ShpleminiOpening.MsmIsOpening | crates/ultrahonk-soroban-verifier/src/shplemini.rs:113-291 | for commitments to any polynomials the combination is the opening polynomial (quotient minus weighted polynomials plus constant) at tau plus z times the KZG commitment |
| ShpleminiCompleteness.HonestMsm | crates/ultrahonk-soroban-verifier/src/shplemini.rs:284-291 | the same for the polynomials of an honest opening |
| ShpleminiCompleteness.HonestOpeningHolds | crates/ultrahonk-soroban-verifier/src/shplemini.rs:128-291 | completeness: every honest opening of every size satisfies the pairing equation |
| ShpleminiVerdict.InversesAreUnique | crates/ultrahonk-soroban-verifier/src/shplemini.rs:96-111 | two lists of inverses of the same denominators are congruent entry by entry |
| ShpleminiVerdict.VerdictIndependentOfInverses | crates/ultrahonk-soroban-verifier/src/shplemini.rs:96-291 | the pairing equation does not depend on which representatives the inversion returns |
| ShpleminiVerdict.VerifyHonestOpening | crates/ultrahonk-soroban-verifier/src/shplemini.rs:38-292 | the verifier run on an honest opening passes if and only if no denominator is zero, and otherwise fails with the inversion error |
| Poseidon2.MatMulExternal | services/prover/src/tree.rs:193-210 | the addition chain is multiplication by the 4x4 external matrix |
| Poseidon2.ExternalColumns | services/prover/src/tree.rs:193-210 | its columns, the images of the unit states: (5, 4, 1, 1), (7, 6, 3, 1), (1, 1, 5, 4), (3, 1, 7, 6) |
| Poseidon2.MatMulInternal | services/prover/src/tree.rs:214-220 | all ones plus the diagonal |
| Poseidon2.SboxSingle | services/prover/src/tree.rs:172-175 | the fifth power |
| Poseidon2.SboxFull | services/prover/src/tree.rs:178-182 | the fifth power of all four elements, in place |
| Poseidon2.Permutation | services/prover/src/tree.rs:146-169 | in place: the external matrix, then 64 rounds, under any schedule whose rounds are full exactly before 4 and from 60 on |
| Poseidon2.PermutationRounds | services/prover/src/tree.rs:149-168 | every schedule that is full exactly before round 4 and from round 60 on leads from the mixed input to the permutation's output |
| Poseidon2.RoundCounts | services/prover/src/tree.rs:149-168 | such a schedule has 8 full rounds and 56 partial ones |
| Poseidon2.Perm4 | services/prover/src/tree.rs:132-140 | permute (a, b, c, 4*2^64), add d to the first element, permute again, return the first element |
| Poseidon2.AccumulateExternal | crates/ultrahonk-soroban-verifier/src/relations.rs:358-398 | slots 18..21 hold the distance of entities 35..38 from the matrix applied to the fifth powers of entities 27..30 plus 2..5, written out, times entity 11 and the separator; that is the full round the prover runs, and no other slot changes |
| Poseidon2.AccumulateInternal | crates/ultrahonk-soroban-verifier/src/relations.rs:405-434 | slots 22..25 hold the distance from the partial round, written out over the same entities, times entity 12 and the separator; no other slot changes |
| Poseidon2.RelationIff | crates/ultrahonk-soroban-verifier/src/relations.rs:393-397 | the four subrelations vanish if and only if the gate is off or the shifted row is the expected round of the current one |
| Poseidon2.RowIff | crates/ultrahonk-soroban-verifier/src/relations.rs:358-434 | with the gate on, a row congruent to a state satisfies its relation if and only if the next row is congruent to the next state |
| Poseidon2.TraceIffRounds | crates/ultrahonk-soroban-verifier/src/relations.rs:358-434 | for any schedule of rounds: the subrelations vanish on the first n rows if and only if those rows are the states of the rounds |
| Poseidon2.TraceEndsInPermutation | services/prover/src/tree.rs:146-169 | a 64-row trace whose gates are full before row 4 and from row 60 on, and which satisfies the relations, ends in the output of the prover's permutation |
| MerkleSumTree.CombineLevel | services/prover/src/tree.rs:64-70 | parent i hashes and adds nodes 2i and 2i + 1, or an odd last node with itself |
| MerkleSumTree.Build | services/prover/src/tree.rs:60-74 | level by level to a single root, for every nonempty leaf list; terminates |
| MerkleSumTree.InclusionPath | services/prover/src/tree.rs:81-97 | one step a level, its bit the parity of index / 2^j: the siblings from leaf to root |
| MerkleSumTree.PathAt | services/prover/src/tree.rs:81-97 | step j of a path is the neighbour of node i / 2^j of level k + j, to the left exactly of an odd node, or the node itself where it has none |
| MerkleSumTree.PathFoldsToRoot | contracts/proof-registry/src/lib.rs:142-161 | completeness: from every node of every level, of a tree of any width, folding its path as the contract does gives the root's hash and sum |
| MerkleSumTree.RootSum | services/prover/src/tree.rs:108-118 | the root sum is the saturated total of the balances plus what odd levels duplicate, for every width |
| MerkleSumTree.ConservationIff | services/prover/src/tree.rs:60-74 | the root sum is the total if and only if the total fits 128 bits and nothing nonzero was duplicated, or saturation hides it |
| MerkleSumTree.ConservationForPowersOfTwo | services/prover/src/tree.rs:60-74 | so it is the total for power-of-two widths without overflow |
| MerkleSumTree.ThreeLeavesDoNotConserve | services/prover/src/tree.rs:66-69 | balances 1, 2, 3 give a root sum of 9 |
| Inclusion.EveryInputIsHashed | contracts/proof-registry/src/lib.rs:184-218 | a leaf is h(id, balance, 0, 0) and a node h(left hash, left sum, right hash, right sum), ids, hashes and the output reduced: nothing is left out of a hash |
| Inclusion.ExtractOrFollow | contracts/proof-registry/src/lib.rs:142-161 | a node with a path that folds to the root hash of a perfect tree is the tree's own node at the index of the path's bits, with the tree's own siblings, or the computed pair of inputs collides |
| Inclusion.InclusionSoundness | contracts/proof-registry/src/lib.rs:133-162 | for an accepted path of any length, two explicit, different quadruples of reduced elements on which h agrees modulo the group order, or: at the tree's depth, the leaf at the index spelled by its bits (id as a field element, balance exactly) and the tree's own siblings; shorter, an inner node whose right child is (0, 0); longer, a leaf whose id is the hash of a node paired with (0, 0) |
| Inclusion.LongPathIsAccepted | contracts/proof-registry/src/lib.rs:142-161 | the longer case does occur: below a customer whose id is itself a leaf hash |
| AcceptedInclusion.FoldedSum | contracts/proof-registry/src/lib.rs:145-156 | the total a path folds to is the balance plus all sibling sums, saturated |
| AcceptedInclusion.AcceptedClaim | contracts/proof-registry/src/lib.rs:133-162 | if the registry answers true for a stored tree, the sums add up to its total, and the claim at the tree's depth is the customer at the index of the path's bits with the tree's own path, unless the extracted inputs collide; other lengths as in InclusionSoundness |
| AcceptedInclusion.AnswerIff | contracts/proof-registry/src/lib.rs:133-162 | at the tree's depth the answer is true for exactly the customers' claims and false for all others, unless the extracted inputs collide |
| AcceptedInclusion.AskRegistry | contracts/proof-registry/src/lib.rs:133-162 | the query itself on a published tree: an error exactly for an unknown id, true exactly when both root hash and root sum are met, and what a true answer then means |
| Prover.SumOf | services/prover/src/proving.rs:94-95 | the exact sum, or an overflow trap |
| Prover.SerializeTree | services/prover/src/proving.rs:248-273 | one path per customer |
| Prover.PublishedTotals | services/prover/src/proving.rs:102-117 | padding with empty leaves to 8 = 2^3 keeps the total, so the root sum is the published liabilities |
| Prover.Prove | services/prover/src/proving.rs:72-155 | accepts exactly the witnesses within the size limits that are solvent and do not overflow, and then every customer's path folds to the published root hash and liabilities |
| ProofRegistry.Registry.Initialize | contracts/proof-registry/src/lib.rs:28-36 | the first call stores owner, key and latest id 0; every later one is AlreadyInitialized and changes nothing |
| ProofRegistry.Registry.PublishProof | contracts/proof-registry/src/lib.rs:38-110 | state and reply as the specification step says; nothing changes on refusal, and on acceptance the published figures and the ledger time are written under the new latest id |
| ProofRegistry.Registry.GetProofById | contracts/proof-registry/src/lib.rs:121-131 | the stored entry or ProofNotFound |
| ProofRegistry.Registry.GetLatestProof | contracts/proof-registry/src/lib.rs:112-119 | the entry at the latest id, NotInitialized before construction |
| ProofRegistry.Registry.VerifyInclusion | contracts/proof-registry/src/lib.rs:133-162 | for a stored id true exactly when the folded hash is the committed one and the folded sum the committed total, false otherwise; ProofNotFound for any other id |
| ProofRegistry.PublishAccepts | contracts/proof-registry/src/lib.rs:38-86 | exactly which attempts are accepted: owner's signature, valid proof, reserves at least liabilities, and the declared baseline equal to the last reserves (to the new reserves when there is no proof yet) |
| ProofRegistry.RefusedFor | contracts/proof-registry/src/lib.rs:38-84 | each error if and only if its check is the first to fail: owner, signature, key, proof, solvency, baseline; ProofNotFound never |
| ProofRegistry.PublishStores | contracts/proof-registry/src/lib.rs:86-97 | an accepted attempt stores root, R, L and the ledger time under the next id and touches nothing else |
| ProofRegistry.FirstPublish | contracts/proof-registry/src/lib.rs:28-110 | after construction the given owner's first attempt is judged under the given key and must declare zero growth; a second construction in between changes nothing |
| ProofRegistry.StepKeeps | contracts/proof-registry/src/lib.rs:38-110 | every call keeps ids contiguous, entries unchanged, solvency and the growth bound; a refusal changes nothing; an accepted publish takes a fresh id |
| ProofRegistry.RunKeepsEntries | contracts/proof-registry/src/lib.rs:86-96 | append-only over any sequence of calls |
| ProofRegistry.RegistryHistory | contracts/proof-registry/src/lib.rs:38-131 | in every state after any calls: ids are 1..latest, r >= l for each, 10*r(k+1) <= 11*r(k) and 10^(k-1)*r(k) <= 11^(k-1)*r(1), with a verifier that enforces the circuit's bound |
| ProofRegistry.CustomersStayIncluded | contracts/proof-registry/src/lib.rs:133-162 | once a bundle of the prover is published, every customer's path is accepted under its id after any later calls |
| CycleProtocol.AtMostOnePublishPerKey | services/orchestrator/internal/usecase/cycle.go:87-193 | in every interleaving, with lock expiry, lost replies and crashes, a (tenant, request key) reaches PublishProof at most once |
| CycleProtocol.FaultsLeave | services/orchestrator/internal/repo/redis.go:65-71 | a crash leaves every store as it was, lock included; a lost lock reply leaves a lock of 900 seconds that no run holds |
| CycleProtocol.ReleaseLeaves | services/orchestrator/internal/repo/redis.go:74-79 | a release removes the tenant's lock whoever set it and a failed one keeps it |
| CycleProtocol.LostReplyLeaves | services/orchestrator/internal/usecase/cycle.go:154-157 | a publish whose reply is lost has changed the registry all the same, and nothing is saved |
| CycleProtocol.OwnedStepIff | services/orchestrator/internal/repo/redis.go:65-79 | from a state where every run holds its own lock, a step makes two runs of a tenant if and only if it is a fresh acquisition for a tenant whose run has outlived its lock |
| CycleProtocol.ExclusiveStepIff | services/orchestrator/internal/repo/redis.go:65-79 | the same from every state with one run per tenant, locks renewed by lost replies included: fresh, not held, and outlived |
| CycleProtocol.RunsAreSerialisedIff | services/orchestrator/internal/repo/redis.go:65-79 | a whole execution keeps to one run per tenant throughout if and only if no such step occurs in it |
| CycleProtocol.RunsAreSerialised | services/orchestrator/internal/repo/redis.go:65-79 | so it does while no run outlives the lock |
| CycleProtocol.OutlivingTheLockBreaksExclusion | services/orchestrator/internal/repo/redis.go:74-79 | a witness: after a run outlives the lock, the next starts beside it, and its unconditional release lets a third start beside the second, which is on time |
| CycleProtocol.BaselineAcceptedIff | services/orchestrator/internal/usecase/cycle.go:126-140 | when database and registry agree, the declared baseline is accepted if and only if there is no proof yet, the last total is nonzero, or the new total is 0 |
| CycleProtocol.SyncStep | services/orchestrator/internal/usecase/cycle.go:154-169 | one step keeps the database and every tenant's registry in agreement up to the save in progress |
| CycleProtocol.DatabaseFollowsChain | services/orchestrator/internal/usecase/cycle.go:126-169 | if every publish is saved, totals are positive and no run outlives the lock: between a publish and its save the saved totals are the registry's, and no run is ever refused for its baseline |
| Cycle.SumReserves | services/orchestrator/internal/usecase/cycle.go:24-34 | the sum of all balances, or an error exactly when one is not an integer |
| Cycle.SumConcat | services/orchestrator/internal/usecase/cycle.go:24-34 | what fixes that sum: 0 for no reserves, the balance of a single one, additive over concatenation, and failing when either part fails |
| Cycle.RedisCache.AcquireCycleLock | services/orchestrator/internal/repo/redis.go:65-71 | granted exactly when no live lock is held, with an expiry 900 seconds ahead |
| Cycle.RedisCache.ReleaseCycleLock | services/orchestrator/internal/repo/redis.go:74-79 | deletes the key whoever holds it |
| Cycle.RedisCache.SetLatest | services/orchestrator/internal/repo/redis.go:43-48 | the tenant's latest proof id |
| Cycle.Postgres.ClaimCycle | services/orchestrator/internal/repo/postgres.go:308-320 | true exactly for a new key, which is recorded for good |
| Cycle.Postgres.LatestReservesTotal | services/orchestrator/internal/repo/postgres.go:288-303 | the last saved total, 0 when there is none |
| Cycle.Postgres.SaveProof | services/orchestrator/internal/repo/postgres.go:58-107 | appends one total to the tenant's history and touches no other |
| Cycle.StellarPublisher.PublishProof | services/orchestrator/internal/usecase/cycle.go:154-157 | runs the registry step on the tenant's own contract only |
| Cycle.CompletesIff | services/orchestrator/internal/usecase/cycle.go:110-185 | behind a granted lock: duplicate exactly for a claimed key; completed exactly when the key is fresh, reserves and the previous total load, their sum is a U128, a proof is there, the contract resolves, the registry accepts the inputs with the right baseline, the reply arrives, and saving, caching and the audit entry succeed |
| Cycle.CompletedEffects | services/orchestrator/internal/usecase/cycle.go:154-185 | then the key is claimed, the sum of the reserves is the tenant's new saved total, the registry has one entry more, and the cached latest id is that entry's |
| Cycle.CycleRunner.Run | services/orchestrator/internal/usecase/cycle.go:87-193 | the method itself: in progress, duplicate and completed each under their exact condition, with the effects above; on every path the stores move by events of the protocol, claims, registry, saved totals and cache change exactly as far as the cycle got, nothing changes without the lock, and the lock is gone unless its release failed |
| AbelianGroup.TimesAdd | patches/primeorder/src/tables/lookup.rs:40-42 | (j + k)P = jP + kP for all integers, from the group laws on the carrier |
| AbelianGroup.TimesTimes | patches/primeorder/src/tables/basepoint.rs:55-64 | k(jP) = (kj)P for all integers |
| Radix16.HornerCarry | patches/primeorder/src/tables/radix16.rs:46-51 | moving a carry to the next digit keeps the value |
| Radix16.Decompose | patches/primeorder/src/tables/radix16.rs:31-54 | for every byte string: 2n+1 digits whose value is the scalar, all but the last in [-8, 7], the last 0 or 1; no i8 operation overflows |
| Radix16.PaddingIsIgnored | patches/primeorder/src/tables/radix16.rs:36-44 | leading zero bytes do not change the scalar |
| AbelianGroup.QuadrupledIs | patches/primeorder/src/projective.rs:504-505 | four calls of double, on values that stand for group elements, stand for 16 times the element |
| Radix16.PaddedValue | patches/primeorder/src/tables/radix16.rs:36-44 | so the n bytes that are read are the whole scalar whenever the rest is padding |
| LookupTable.New | patches/primeorder/src/tables/lookup.rs:30-38 | values that stand for p, 2p, ..., 8p |
| LookupTable.Select | patches/primeorder/src/tables/lookup.rs:43-65 | x times p for every -8 <= x <= 8, by scanning |
| LookupTable.SelectVartime | patches/primeorder/src/tables/lookup.rs:70-81 | the same, by indexing |
| LinearCombination.HornerStep | patches/primeorder/src/projective.rs:504-510 | four doublings of the partial combination plus one column of digits is the next partial combination |
| LinearCombination.LincombDigits | patches/primeorder/src/projective.rs:489-537 | the interleaved loop yields the combination of the digits' values, in both variants |
| LinearCombination.Lincomb | patches/primeorder/src/projective.rs:435-464 | a value that stands for the sum of k_i * P_i over all pairs, k_i the value of the last n bytes of scalar i, for every nonempty list and scalars of any length from n up |
| LinearCombination.ValuesOfPadded | patches/primeorder/src/tables/radix16.rs:36-44 | those values are the scalars' own when the bytes before the last n are zero |
| LinearCombination.Mul | patches/primeorder/src/projective.rs:106-123 | k * P, for padded scalars too |
| BasepointTable.InitTable | patches/primeorder/src/tables/basepoint.rs:43-69 | table i holds the multiples of 256^i times the generator |
| BasepointTable.EvenOddIsHorner | patches/primeorder/src/tables/basepoint.rs:82-98 | even digits plus 16 times odd digits, each weighted by powers of 256, is the scalar |
| BasepointTable.Mul | patches/primeorder/src/tables/basepoint.rs:82-125 | exactly k * G for every scalar of at least the tables' size, in both variants; bytes beyond it are not read |
| BasepointTable.MulAgrees | patches/primeorder/src/tables/basepoint.rs:82-125 | fixed-base and variable-base multiplication of the generator stand for the same element |
| PointArithmetic.AddIsFormula | patches/primeorder/src/point_arithmetic.rs:63-112 | the generic addition is one closed form in the symmetric products of the coordinates |
| PointArithmetic.AddMinusThreeIsFormula | patches/primeorder/src/point_arithmetic.rs:228-253 | so is the one for a = -3 |
| PointArithmetic.AddZeroIsFormula | patches/primeorder/src/point_arithmetic.rs:338-382 | so is the one for a = 0 |
| GroupLaw.ChordData | patches/primeorder/src/point_arithmetic.rs:63-112 | the curve coefficients from the line through two points |
| GroupLaw.LineFormula | patches/primeorder/src/point_arithmetic.rs:63-112 | under line data the closed form yields the third point, scaled by its z coordinate |
| GroupLaw.ChordSum | patches/primeorder/src/point_arithmetic.rs:63-112 | chord law: x and y are those of the reflected third intersection, scaled by z, and z is nonzero if and only if the difference of the points does not have order two |
| GroupLaw.ChordZetaIff | patches/primeorder/src/point_arithmetic.rs:63-112 | the z coordinate of a chord sum vanishes exactly when the difference has order two |
| GroupLaw.TangentSum | patches/primeorder/src/point_arithmetic.rs:63-214 | tangent law |
| GroupLaw.ThirdPointSquare | patches/primeorder/src/point_arithmetic.rs:63-112 | the third intersection lies on the curve |
| GroupLaw.SumIsPoint | patches/primeorder/src/point_arithmetic.rs:63-112 | the chord-and-tangent sum of two points of the curve lies on it |
| CompleteAddition.AddRepresentsIff | patches/primeorder/src/point_arithmetic.rs:56-382 | on every nonsingular curve, for every pair of points (equal, opposite or at infinity) and all their representatives: each of the three additions represents the chord-and-tangent sum if and only if the difference of the points does not have order two |
| CompleteAddition.AddFailsAtOrderTwo | patches/primeorder/src/point_arithmetic.rs:56-112 | the smallest failing input: the identity and a point of order two give (0, 0, 0) |
| CompleteAddition.AddIsGroupLaw | patches/primeorder/src/point_arithmetic.rs:63-382 | so on the curves the crate is for, of prime order, all three additions are complete |
| CompleteAddition.AddMixedIsFormula | patches/primeorder/src/point_arithmetic.rs:121-430 | mixed addition equals addition with z = 1 coordinate for coordinate, and lhs when rhs is the identity, in all three families |
| CompleteAddition.AddMixedRepresentsIff | patches/primeorder/src/point_arithmetic.rs:121-430 | mixed addition represents the sum under the same exact condition; the identity as the affine operand always works |
| CompleteAddition.AddMixedIsGroupLaw | patches/primeorder/src/point_arithmetic.rs:121-430 | mixed addition represents the sum on curves without points of order two |
| Doubling.DoubleDefect | patches/primeorder/src/point_arithmetic.rs:174-214 | doubling and adding a point to itself differ by a multiple of the curve equation in z only |
| Doubling.DoubleIsAdd | patches/primeorder/src/point_arithmetic.rs:174-214 | on the curve doubling equals adding, coordinate for coordinate |
| Doubling.DoubleFamilies | patches/primeorder/src/point_arithmetic.rs:297-468 | doubling for a = -3 is the generic one; for a = 0 it differs by a multiple of the curve equation in y only |
| Doubling.DoubleIsGroupLaw | patches/primeorder/src/point_arithmetic.rs:174-468 | all three doublings represent the sum of the point with itself on every nonsingular curve, points of order two included |
| PointOperations.CtEqDecides | patches/primeorder/src/projective.rs:144-149 | the cross-multiplied comparison holds if and only if the represented points are equal, infinity included |
| PointOperations.NegateRepresents | patches/primeorder/src/projective.rs:77-83 | negation represents the opposite point |
| PointOperations.SubtractRepresentsIff | patches/primeorder/src/projective.rs:96-98 | subtraction represents the difference if and only if the sum does not have order two |
| PointOperations.SubtractSelf | patches/primeorder/src/projective.rs:77-98 | a point minus itself is the identity |
| PointOperations.ToAffineRecovers | patches/primeorder/src/projective.rs:62-74 | affine coordinates are the point's own, and infinity stays infinity |
| SumLaws.SumRespects | patches/primeorder/src/point_arithmetic.rs:63-112 | the chord-and-tangent sum does not depend on the representatives of the coordinates, on any curve |
| SumLaws.SumCommutes | patches/primeorder/src/point_arithmetic.rs:63-112 | it commutes, on any curve |
| Associativity.KeyAt | patches/primeorder/src/point_arithmetic.rs:63-112 | the slope of the second addition of (P + Q) + R, chord or tangent, from those of the lines from Q to P and to R: (l + n)(l - m) is the difference of the ends' abscissas |
| Associativity.MainCase | patches/primeorder/src/point_arithmetic.rs:63-112 | so (P + Q) + R and (R + Q) + P coincide while no partial sum is at infinity |
| Associativity.SumAssociates | patches/primeorder/src/point_arithmetic.rs:63-112 | the chord-and-tangent sum is associative for all points of every nonsingular curve |
| CurveGroup.PointsAreGroup | patches/primeorder/src/point_arithmetic.rs:63-112 | the points of every nonsingular curve form a commutative group under the chord-and-tangent sum |
| CurveGroup.OperationsImplement | patches/primeorder/src/point_arithmetic.rs:63-468 | the crate's addition, doubling and negation, in each of the three families, implement that group on projective coordinates |
| CurveGroup.LincombPoints | patches/primeorder/src/projective.rs:435-537 | so the linear combination of projective points represents the linear combination of their points |
| CurveGroup.MulGenerator | patches/primeorder/src/tables/basepoint.rs:82-125 | and multiplication of the generator by table and by the generic loop yields representatives of the same multiple, equal under the crate's comparison |
| Fermat.FermatLittle | patches/primeorder/src/osswu.rs:64-87 | a^(p-1) = 1 for every nonzero a, by multiplying out a permutation of the residues |
| Osswu.SqrtRatioIsRoot | patches/primeorder/src/osswu.rs:64-87 | the flag holds if and only if u/v is a square; y is a root of u/v, or of Z*u/v otherwise |
| Osswu.SecondCandidate | patches/primeorder/src/osswu.rs:92-149 | g at the second candidate is (Z*u^2)^3 times g at the first |
| Osswu.MapParts | patches/primeorder/src/osswu.rs:92-149 | the straight-line code in terms of the candidates; the denominator is never zero |
| Osswu.MapLandsOnCurve | patches/primeorder/src/osswu.rs:92-149 | for every u, the exceptional case included, y^2 = x^3 + A*x + B, and y is odd exactly when u is, both reduced, unless y = 0 |
| Osswu.RootIffSquare | patches/primeorder/src/osswu.rs:64-87 | the ratio whose root is taken is a square exactly when g at the first candidate is |
| Osswu.MapIsSswu | patches/primeorder/src/osswu.rs:92-149 | the straight-line code is the map of section 6.6.2 of RFC 9380: x is x1 = -B/A*(1 + 1/(Z^2*u^4 + Z*u^2)), or B/(Z*A) in the exceptional case, where g(x1) is a square, and Z*u^2*x1 otherwise |
| Osswu.MapIsOdd | patches/primeorder/src/osswu.rs:141-146 | negating u negates the point |

## Left out

- Sumcheck.VerifySumcheck: the 26 relations are one given function of the gate separator; the arithmetic, permutation, lookup, range, elliptic and auxiliary families are not part of this model.
- Shplemini.VerifyShplemini: denominators are held in arrays of the exact batch size instead of the maximal one; the transcript, proof and key parsing are not part of this model, challenges are inputs.
- Shplemini.G1Msm: group elements are discrete logarithms, so the host's curve arithmetic and the pairing are not modelled, and that a commitment binds its prover is not stated; soundness is stated for the polynomials behind the commitments (`OpeningSoundness`).
- BatchInversion.BatchInverse: a length mismatch, which the code asserts, is a precondition.
- ShpleminiCompleteness.HonestOpeningHolds: entities whose shifts are opened have a zero constant coefficient, as the shift by one row requires; soundness does not assume it.
- CurveGroup.LincombPoints: multiples are by the integer the scalar's bytes spell; that the group has the prime order of the scalar field is not modelled.
- OpeningSoundness.AcceptedOpening: the challenges are inputs, so that they are drawn after what they must not be known for (the transcript) is not modelled; the four counts say how few values fool the verifier, not how likely they are.
- LinearCombination.Lincomb: the constant-time and the variable-time functions are one method with a flag; constant-time behaviour is not modelled.
- Radix16.Decompose: masks and shifts on bytes are written as remainder and quotient, which agree with them on the values that occur.
- LookupTable.Select: the exclusive or with the sign mask is written for the two masks 0 and -1; an index outside -8..8, which the code asserts against in debug builds, is excluded.
- Osswu.MapLandsOnCurve: the sign function is the parity of the reduced representative.
- Poseidon2.Permutation: round constants and diagonal are parameters; the concrete tables are not copied.
- MerkleSumTree.Build: the hash is any function of reduced field elements; byte encodings are not modelled.
- Prover.Prove: the calls to the proving tools, the witness file and the process lock are not part of this model; an arithmetic overflow, which traps in the shipped build profile, is an error value.
- ProofRegistry.Registry.PublishProof: proof verification is an arbitrary predicate of key, proof and inputs, a missing signature is an error value instead of a trap, ids are unbounded, ledger entries do not expire and no event is emitted.
- CycleProtocol.DatabaseFollowsChain: saved totals are ordered by their commit, which the timestamp column is taken to reflect; every tenant has its own contract, to which only its cycles publish.
- Cycle.CycleRunner.Run: database errors other than the modelled ones end the run like a failed call; the reserves are summed once, where the source sums them at genesis and the prover again; decimal strings, the audit log and the snapshot record carry no state here.
- Batch normalization of points, SEC1 and serde encodings, random points, archival of ledger entries, scheduling, HTTP and RPC clients are not modelled.
