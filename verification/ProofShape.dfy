/** Sizes and entity indices every part of the verifier agrees on. */
module ProofShape {
  /** The largest log2 of a circuit: every proof is padded to this many rounds. */
  const CONST_PROOF_SIZE_LOG_N: nat := 28

  /** Polynomials evaluated at the sumcheck point, shifts included. */
  const NUMBER_OF_ENTITIES: nat := 40

  // ----- whose evaluation stands where: key polynomials, witness polynomials, shifts of five of them

  const QM: nat := 0
  const QC: nat := 1
  const QL: nat := 2
  const QR: nat := 3
  const QO: nat := 4
  const Q4: nat := 5
  const Q_LOOKUP: nat := 6
  const Q_ARITH: nat := 7
  const Q_RANGE: nat := 8
  const Q_ELLIPTIC: nat := 9
  const Q_AUX: nat := 10
  const Q_POSEIDON2_EXTERNAL: nat := 11
  const Q_POSEIDON2_INTERNAL: nat := 12
  const SIGMA1: nat := 13
  const SIGMA2: nat := 14
  const SIGMA3: nat := 15
  const SIGMA4: nat := 16
  const ID1: nat := 17
  const ID2: nat := 18
  const ID3: nat := 19
  const ID4: nat := 20
  const TABLE1: nat := 21
  const TABLE2: nat := 22
  const TABLE3: nat := 23
  const TABLE4: nat := 24
  const LAGRANGE_FIRST: nat := 25
  const LAGRANGE_LAST: nat := 26
  const WL: nat := 27
  const WR: nat := 28
  const WO: nat := 29
  const W4: nat := 30
  const Z_PERM: nat := 31
  const LOOKUP_INVERSES: nat := 32
  const LOOKUP_READ_COUNTS: nat := 33
  const LOOKUP_READ_TAGS: nat := 34
  const WL_SHIFT: nat := 35
  const WR_SHIFT: nat := 36
  const WO_SHIFT: nat := 37
  const W4_SHIFT: nat := 38
  const Z_PERM_SHIFT: nat := 39

  /** The commitments of a verifying key. */
  datatype VerifyingKey = VerifyingKey(
    qm: int, qc: int, ql: int, qr: int, qo: int, q4: int, qLookup: int, qArith: int, qDeltaRange: int,
    qElliptic: int, qAux: int, qPoseidon2External: int, qPoseidon2Internal: int, s1: int, s2: int, s3: int,
    s4: int, id1: int, id2: int, id3: int, id4: int, t1: int, t2: int, t3: int, t4: int, lagrangeFirst: int,
    lagrangeLast: int)
  {
    /** In the order in which they meet their scalars. */
    function Commitments(): (s: seq<int>)
      ensures |s| == 27
    {
      [qm, qc, ql, qr, qo, q4, qLookup, qArith, qDeltaRange, qElliptic, qAux, qPoseidon2External, qPoseidon2Internal,
       s1, s2, s3, s4, id1, id2, id3, id4, t1, t2, t3, t4, lagrangeFirst, lagrangeLast]
    }
  }
}
