/** What the registry's answer to an inclusion query tells about the published tree. */
module AcceptedInclusion {
  import opened PrimeField
  import opened Sums
  import opened MerkleSumTree
  import opened Inclusion
  import opened ProofRegistry

  /** The tree behind a stored proof: 2^d leaves of the given customers under the committed root. */
  ghost predicate Committed(h: HashFunction, meta: ProofMeta, levels: seq<seq<Node>>, d: nat, ids: seq<int>,
                            balances: seq<U128>) {
    && IsTree(h, levels) && LeavesAre(h, levels[0], ids, balances) && |levels[0]| == Pow2(d)
    && meta.rootH == Root(levels).hash && meta.l == Root(levels).sum
  }

  /** The claim is the leaf at the index that the path's bits spell, and the path is that leaf's own. */
  ghost predicate IsCustomer(h: HashFunction, levels: seq<seq<Node>>, ids: seq<int>, balances: seq<U128>,
                             idHash: int, balance: U128, path: seq<PathStep>)
    requires IsTree(h, levels) && |levels[0]| == |ids| == |balances|
  {
    var i := IndexOf(path);
    && i < |ids|
    && idHash % BN254_ORDER == ids[i] % BN254_ORDER
    && balance == balances[i]
    && SamePath(path, PathFrom(h, levels, 0, i))
  }

  // ----- the sum a path folds to

  function SiblingSums(path: seq<PathStep>): seq<nat> {
    seq(|path|, i requires 0 <= i < |path| => path[i].sibling.sum)
  }

  /** The balance and every sibling's sum, saturated. */
  lemma {:induction false} FoldedSum(h: HashFunction, node: Node, path: seq<PathStep>)
    ensures FoldPath(h, node, path).sum == Saturate(node.sum + Total(SiblingSums(path)))
    decreases path
  {
    if path != [] {
      FoldedSum(h, FoldStep(h, node, path[0]), path[1..]);
      assert SiblingSums(path)[1..] == SiblingSums(path[1..]);
    }
  }

  // ----- completeness for congruent claims

  lemma StepRespects(h: HashFunction, m: Node, n: Node, s: PathStep, t: PathStep)
    requires Reduce(m.hash) == Reduce(n.hash) && m.sum == n.sum && SameStep(s, t)
    ensures FoldStep(h, m, s) == FoldStep(h, n, t)
  {
  }

  lemma {:induction false} FoldRespects(h: HashFunction, node: Node, p: seq<PathStep>, q: seq<PathStep>)
    requires SamePath(p, q)
    ensures FoldPath(h, node, p) == FoldPath(h, node, q)
    decreases p
  {
    if p != [] {
      assert SameStep(p[0], q[0]);
      StepRespects(h, node, node, p[0], q[0]);
      assert forall k :: 0 <= k < |p| - 1 ==> p[1..][k] == p[k + 1] && q[1..][k] == q[k + 1];
      FoldRespects(h, FoldStep(h, node, p[0]), p[1..], q[1..]);
    }
  }

  /** A customer's claim folds to the committed root. */
  lemma CustomerFolds(h: HashFunction, levels: seq<seq<Node>>, ids: seq<int>, balances: seq<U128>, idHash: int,
                      balance: U128, path: seq<PathStep>)
    requires IsTree(h, levels) && LeavesAre(h, levels[0], ids, balances)
    requires IsCustomer(h, levels, ids, balances, idHash, balance, path)
    ensures FoldPath(h, Leaf(h, idHash, balance), path) == Root(levels)
  {
    var i := IndexOf(path);
    EveryInputIsHashed(h, idHash, balance, Root(levels), Root(levels));
    EveryInputIsHashed(h, ids[i], balance, Root(levels), Root(levels));
    assert levels[0][i] == Leaf(h, idHash, balance);
    PathFoldsToRoot(h, levels, 0, i);
    FoldRespects(h, levels[0][i], path, PathFrom(h, levels, 0, i));
  }

  // ----- what an answer tells

  /** A path is accepted only if the siblings' sums and the balance add up to the committed total, and then it
      is one of the tree's own, as InclusionSoundness says by its length, or a collision is at hand. */
  lemma AcceptedClaim(h: HashFunction, s: Storage, id: nat, levels: seq<seq<Node>>, d: nat, ids: seq<int>,
                      balances: seq<U128>, idHash: int, balance: U128, path: seq<PathStep>)
    requires id in s.proofs && Committed(h, s.proofs[id], levels, d, ids, balances)
    requires InclusionVerdict(h, s, id, idHash, balance, path) == Ok(true)
    ensures PerfectTree(h, levels, d)
    ensures Saturate(balance + Total(SiblingSums(path))) == s.proofs[id].l
    ensures
      var q := ExtractFromLeaf(h, levels, d, ids, balances, idHash, balance, path);
      || (&& q.0 != q.1 && InField(q.0) && InField(q.1)
          && h(q.0.a, q.0.b, q.0.c, q.0.d) % BN254_ORDER == h(q.1.a, q.1.b, q.1.c, q.1.d) % BN254_ORDER)
      || (if |path| == d then IsCustomer(h, levels, ids, balances, idHash, balance, path)
          else Included(h, levels, d, ids, balances, idHash, balance, path))
  {
    InclusionSoundness(h, levels, d, ids, balances, idHash, balance, path);
    FoldedSum(h, Leaf(h, idHash, balance), path);
  }

  /** At the tree's depth the answer is exactly whether the claim is a customer's, unless the inputs that the
      claim and the tree hash collide. */
  lemma AnswerIff(h: HashFunction, s: Storage, id: nat, levels: seq<seq<Node>>, d: nat, ids: seq<int>,
                  balances: seq<U128>, idHash: int, balance: U128, path: seq<PathStep>)
    requires id in s.proofs && Committed(h, s.proofs[id], levels, d, ids, balances) && |path| == d
    ensures PerfectTree(h, levels, d)
    ensures
      || Collides(h, ExtractFromLeaf(h, levels, d, ids, balances, idHash, balance, path))
      || InclusionVerdict(h, s, id, idHash, balance, path)
         == Ok(IsCustomer(h, levels, ids, balances, idHash, balance, path))
  {
    PowerOfTwoIsPerfect(h, levels, d);
    if IsCustomer(h, levels, ids, balances, idHash, balance, path) {
      CustomerFolds(h, levels, ids, balances, idHash, balance, path);
    }
    if InclusionVerdict(h, s, id, idHash, balance, path) == Ok(true) {
      AcceptedClaim(h, s, id, levels, d, ids, balances, idHash, balance, path);
    }
  }

  /** The registry asked about a published tree: true exactly when hash and total are met, and then the claim
      is the tree's own or a collision is at hand; false for every other published id; an error for the rest. */
  method AskRegistry(registry: Registry, id: nat, idHash: int, balance: U128, path: seq<PathStep>,
                     ghost levels: seq<seq<Node>>, ghost d: nat, ghost ids: seq<int>, ghost balances: seq<U128>)
      returns (r: Response<bool>)
    requires id in registry.proofs ==> Committed(registry.hash, registry.proofs[id], levels, d, ids, balances)
    ensures r.Err? <==> id !in registry.proofs
    ensures r.Err? ==> r.error == ProofNotFound
    ensures r.Ok? ==>
      var folded := FoldPath(registry.hash, Leaf(registry.hash, idHash, balance), path);
      r.value <==> folded.hash == Root(levels).hash && folded.sum == Root(levels).sum
    ensures r == Ok(true) ==>
      && PerfectTree(registry.hash, levels, d)
      && Saturate(balance + Total(SiblingSums(path))) == registry.proofs[id].l
      && (|| Collides(registry.hash, ExtractFromLeaf(registry.hash, levels, d, ids, balances, idHash, balance, path))
          || Included(registry.hash, levels, d, ids, balances, idHash, balance, path))
  {
    r := registry.VerifyInclusion(id, idHash, balance, path);
    if r == Ok(true) {
      AcceptedClaim(registry.hash, registry.State(), id, levels, d, ids, balances, idHash, balance, path);
    }
  }
}
