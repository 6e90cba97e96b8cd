/** Soundness of inclusion paths, by collision extraction: an accepted path either is the tree's own,
    or exhibits two different quadruples of field elements with the same hash. */
module Inclusion {
  import opened PrimeField
  import opened Sums
  import opened MerkleSumTree

  /** Field elements, reduced. */
  datatype Quadruple = Quadruple(a: int, b: int, c: int, d: int)

  function HashOf(h: HashFunction, q: Quadruple): int {
    h(q.a, q.b, q.c, q.d) % BN254_ORDER
  }

  predicate InField(q: Quadruple) {
    0 <= q.a < BN254_ORDER && 0 <= q.b < BN254_ORDER && 0 <= q.c < BN254_ORDER && 0 <= q.d < BN254_ORDER
  }

  function LeafInput(idHash: int, balance: U128): Quadruple {
    Quadruple(Reduce(idHash), Reduce(balance), 0, 0)
  }

  function NodeInput(left: Node, right: Node): Quadruple {
    Quadruple(Reduce(left.hash), Reduce(left.sum), Reduce(right.hash), Reduce(right.sum))
  }

  function StepInput(node: Node, step: PathStep): Quadruple {
    if step.siblingIsLeft then NodeInput(step.sibling, node) else NodeInput(node, step.sibling)
  }

  /** Two different quadruples of field elements with the same hash. */
  predicate Collides(h: HashFunction, q: (Quadruple, Quadruple)) {
    q.0 != q.1 && InField(q.0) && InField(q.1) && HashOf(h, q.0) == HashOf(h, q.1)
  }

  lemma ReduceTwice(a: int)
    ensures Reduce(Reduce(a)) == Reduce(a)
    ensures 0 <= a <= U128_MAX ==> Reduce(a) == a
  {
  }

  /** Every input is hashed, in this order: ids and hashes as field elements, sums as they are. */
  lemma EveryInputIsHashed(h: HashFunction, idHash: int, balance: U128, left: Node, right: Node)
    ensures Leaf(h, idHash, balance) == Node(h(idHash % BN254_ORDER, balance, 0, 0) % BN254_ORDER, balance)
    ensures HashPair(h, left, right).hash
         == h(left.hash % BN254_ORDER, left.sum, right.hash % BN254_ORDER, right.sum) % BN254_ORDER
  {
    ReduceTwice(balance);
    ReduceTwice(left.sum);
    ReduceTwice(right.sum);
    ReduceTwice(0);
  }

  lemma InputsAreHashed(h: HashFunction, idHash: int, balance: U128, node: Node, step: PathStep)
    ensures InField(LeafInput(idHash, balance)) && InField(StepInput(node, step))
    ensures HashOf(h, LeafInput(idHash, balance)) == Leaf(h, idHash, balance).hash
    ensures HashOf(h, StepInput(node, step)) == FoldStep(h, node, step).hash
  {
    ReduceTwice(idHash);
    ReduceTwice(balance);
    ReduceTwice(node.hash);
    ReduceTwice(node.sum);
    ReduceTwice(step.sibling.hash);
    ReduceTwice(step.sibling.sum);
    ReduceTwice(0);
  }

  /** The leaf index spelled by the siblingIsLeft bits, least significant first. */
  function IndexOf(path: seq<PathStep>): nat {
    if path == [] then 0 else (if path[0].siblingIsLeft then 1 else 0) + 2 * IndexOf(path[1..])
  }

  lemma {:induction false} IndexInRange(path: seq<PathStep>)
    ensures IndexOf(path) < Pow2(|path|)
  {
    if path != [] {
      IndexInRange(path[1..]);
    }
  }

  /** A tree over 2^d leaves has d + 1 levels of 2^(d-k) nodes. */
  ghost predicate PerfectTree(h: HashFunction, levels: seq<seq<Node>>, d: nat) {
    && IsTree(h, levels)
    && |levels| == d + 1
    && forall k :: 0 <= k <= d ==> |levels[k]| == Pow2(d - k)
  }

  lemma {:induction false} WidthsFrom(h: HashFunction, levels: seq<seq<Node>>, k: nat, d: nat)
    requires IsTree(h, levels) && k < |levels| && |levels[k]| == Pow2(d)
    ensures |levels| == k + d + 1
    ensures forall j :: k <= j <= k + d ==> |levels[j]| == Pow2(k + d - j)
    decreases d
  {
    assert k + 1 < |levels| ==> LevelFollows(h, levels, k);
    if d > 0 {
      WidthsFrom(h, levels, k + 1, d - 1);
    }
  }

  lemma PowerOfTwoIsPerfect(h: HashFunction, levels: seq<seq<Node>>, d: nat)
    requires IsTree(h, levels) && |levels[0]| == Pow2(d)
    ensures PerfectTree(h, levels, d)
  {
    WidthsFrom(h, levels, 0, d);
  }

  /** The inputs hashed for the claimed and for the tree's own node, at the first level where they differ
      above node k of the path. */
  function Extract(h: HashFunction, levels: seq<seq<Node>>, k: nat, node: Node,
                   path: seq<PathStep>): (q: (Quadruple, Quadruple))
    requires PerfectTree(h, levels, k + |path|)
    decreases path
  {
    if path == [] then (Quadruple(0, 0, 0, 0), Quadruple(0, 0, 0, 0))
    else
      var above := Extract(h, levels, k + 1, FoldStep(h, node, path[0]), path[1..]);
      if Collides(h, above) then above else (StepInput(node, path[0]), TreeInput(h, levels, k, path))
  }

  /** The inputs of the tree's own parent of the node the path's bits lead to. */
  function TreeInput(h: HashFunction, levels: seq<seq<Node>>, k: nat, path: seq<PathStep>): Quadruple
    requires PerfectTree(h, levels, k + |path|)
  {
    var i := IndexOf(path);
    IndexInRange(path);
    StepInput(levels[k][i], StepAt(levels[k], i))
  }

  predicate SameStep(s: PathStep, t: PathStep) {
    s.siblingIsLeft == t.siblingIsLeft && s.sibling.sum == t.sibling.sum
        && Reduce(s.sibling.hash) == Reduce(t.sibling.hash)
  }

  /** Equal paths, hashes compared as field elements. */
  predicate SamePath(p: seq<PathStep>, q: seq<PathStep>) {
    |p| == |q| && forall k :: 0 <= k < |p| ==> SameStep(p[k], q[k])
  }

  lemma SameInputs(node: Node, step: PathStep, level: seq<Node>, i: nat)
    requires i < |level| && StepInput(node, step) == StepInput(level[i], StepAt(level, i))
    requires step.siblingIsLeft == (i % 2 == 1)
    ensures Reduce(node.hash) == Reduce(level[i].hash) && node.sum == level[i].sum && SameStep(step, StepAt(level, i))
  {
    ReduceTwice(node.sum);
    ReduceTwice(level[i].sum);
    ReduceTwice(step.sibling.sum);
    ReduceTwice(StepAt(level, i).sibling.sum);
  }

  lemma SameFromBelow(path: seq<PathStep>, own: seq<PathStep>)
    requires path != [] && own != [] && SameStep(path[0], own[0]) && SamePath(path[1..], own[1..])
    ensures SamePath(path, own)
  {
    assert forall j :: 1 <= j < |path| ==> path[j] == path[1..][j - 1] && own[j] == own[1..][j - 1];
  }

  /** A path from any node with a canonical hash that folds to the root's hash. */
  lemma {:induction false} ExtractOrFollow(h: HashFunction, levels: seq<seq<Node>>, k: nat, node: Node,
                                           path: seq<PathStep>)
    requires PerfectTree(h, levels, k + |path|)
    requires FoldPath(h, node, path).hash == Root(levels).hash && Reduce(node.hash) == node.hash
    requires forall n :: n in levels[k] ==> Reduce(n.hash) == n.hash
    ensures
      var i := IndexOf(path);
      && i < |levels[k]|
      && (|| Collides(h, Extract(h, levels, k, node, path))
          || (node.hash == levels[k][i].hash && SamePath(path, PathFrom(h, levels, k, i))))
    decreases path
  {
    var i := IndexOf(path);
    IndexInRange(path);
    if path != [] {
      var up := FoldStep(h, node, path[0]);
      assert LevelFollows(h, levels, k);
      ReduceTwice(h(0, 0, 0, 0));
      CanonicalParents(h, levels[k]);
      CanonicalStep(h, node, path[0]);
      ExtractOrFollow(h, levels, k + 1, up, path[1..]);
      assert i / 2 == IndexOf(path[1..]);
      if !Collides(h, Extract(h, levels, k + 1, up, path[1..])) {
        StepFoldsToParent(h, levels[k], i);
        InputsAreHashed(h, 0, 0, node, path[0]);
        InputsAreHashed(h, 0, 0, levels[k][i], StepAt(levels[k], i));
        if StepInput(node, path[0]) == TreeInput(h, levels, k, path) {
          SameInputs(node, path[0], levels[k], i);
          SameFromBelow(path, PathFrom(h, levels, k, i));
        }
      }
    }
  }

  lemma CanonicalStep(h: HashFunction, node: Node, step: PathStep)
    ensures Reduce(FoldStep(h, node, step).hash) == FoldStep(h, node, step).hash
  {
  }

  lemma CanonicalParents(h: HashFunction, level: seq<Node>)
    ensures forall n :: n in Parents(h, level) ==> Reduce(n.hash) == n.hash
  {
  }

  ghost predicate LeavesAre(h: HashFunction, leaves: seq<Node>, ids: seq<int>, balances: seq<U128>) {
    |leaves| == |ids| == |balances| && forall i :: 0 <= i < |leaves| ==> leaves[i] == Leaf(h, ids[i], balances[i])
  }

  /** The inputs to compare when a path goes on below the leaves: low leads to a leaf, high to the root. */
  function ExtractBelow(h: HashFunction, levels: seq<seq<Node>>, ids: seq<int>, balances: seq<U128>,
                        node: Node, low: seq<PathStep>, high: seq<PathStep>): (q: (Quadruple, Quadruple))
    requires PerfectTree(h, levels, |high|) && |levels[0]| == |ids| == |balances| && low != []
  {
    IndexInRange(high);
    var above := Extract(h, levels, 0, FoldPath(h, node, low), high);
    if Collides(h, above) then above
    else
      (StepInput(FoldPath(h, node, low[..|low| - 1]), low[|low| - 1]),
       LeafInput(ids[IndexOf(high)], balances[IndexOf(high)]))
  }

  /** The inputs to compare when a path of any length folds to the root hash: those of the levels the path
      and the tree share, then those at which the shorter of the two begins. */
  function ExtractFromLeaf(h: HashFunction, levels: seq<seq<Node>>, d: nat, ids: seq<int>, balances: seq<U128>,
                           idHash: int, balance: U128, path: seq<PathStep>): (q: (Quadruple, Quadruple))
    requires PerfectTree(h, levels, d) && |levels[0]| == |ids| == |balances|
  {
    var leaf := Leaf(h, idHash, balance);
    if |path| <= d then
      var k := d - |path|;
      IndexInRange(path);
      var above := Extract(h, levels, k, leaf, path);
      if Collides(h, above) then above
      else if k == 0 then (LeafInput(idHash, balance), LeafInput(ids[IndexOf(path)], balances[IndexOf(path)]))
      else (LeafInput(idHash, balance), OwnInput(h, levels, k, IndexOf(path)))
    else
      ExtractBelow(h, levels, ids, balances, leaf, path[..|path| - d], path[|path| - d..])
  }

  /** The children of node i of level k, in a perfect tree. */
  function ChildrenOf(h: HashFunction, levels: seq<seq<Node>>, k: nat, i: nat): (Node, Node)
    requires 0 < k < |levels| && |levels[k - 1]| == 2 * |levels[k]| && i < |levels[k]|
  {
    (levels[k - 1][2 * i], levels[k - 1][2 * i + 1])
  }

  function OwnInput(h: HashFunction, levels: seq<seq<Node>>, k: nat, i: nat): Quadruple
    requires 0 < k < |levels| && |levels[k - 1]| == 2 * |levels[k]| && i < |levels[k]|
  {
    var c := ChildrenOf(h, levels, k, i);
    NodeInput(c.0, c.1)
  }

  lemma OwnInputIsHashed(h: HashFunction, levels: seq<seq<Node>>, k: nat, i: nat)
    requires IsTree(h, levels) && 0 < k < |levels| && |levels[k - 1]| == 2 * |levels[k]| && i < |levels[k]|
    ensures HashOf(h, OwnInput(h, levels, k, i)) == levels[k][i].hash
  {
    assert LevelFollows(h, levels, k - 1);
    var c := ChildrenOf(h, levels, k, i);
    InputsAreHashed(h, 0, 0, c.0, PathStep(c.1, false));
  }

  /** A leaf whose hash is that of a node whose right child is (0, 0). */
  predicate LeafIsNode(idHash: int, balance: U128, left: Node, right: Node) {
    && Reduce(idHash) == Reduce(left.hash) && balance == left.sum
    && Reduce(right.hash) == 0 && right.sum == 0
  }

  lemma EqualInputs(idHash: int, balance: U128, left: Node, right: Node)
    requires LeafInput(idHash, balance) == NodeInput(left, right)
    ensures LeafIsNode(idHash, balance, left, right)
  {
    ReduceTwice(balance);
    ReduceTwice(left.sum);
    ReduceTwice(right.sum);
  }

  /** The left and right input of the last node before the tree's own leaves. */
  function Ordered(node: Node, step: PathStep): (Node, Node) {
    if step.siblingIsLeft then (step.sibling, node) else (node, step.sibling)
  }

  lemma {:induction false} FoldSplits(h: HashFunction, node: Node, low: seq<PathStep>, high: seq<PathStep>)
    ensures FoldPath(h, node, low + high) == FoldPath(h, FoldPath(h, node, low), high)
    decreases low
  {
    if low == [] {
      assert low + high == high;
    } else {
      assert (low + high)[1..] == low[1..] + high;
      FoldSplits(h, FoldStep(h, node, low[0]), low[1..], high);
    }
  }

  lemma FoldEndsIn(h: HashFunction, node: Node, low: seq<PathStep>)
    requires low != []
    ensures FoldPath(h, node, low) == FoldStep(h, FoldPath(h, node, low[..|low| - 1]), low[|low| - 1])
  {
    var front, step := low[..|low| - 1], low[|low| - 1];
    assert low == front + [step] && [step][1..] == [];
    FoldSplits(h, node, front, [step]);
  }

  lemma CanonicalLeaves(h: HashFunction, leaves: seq<Node>, ids: seq<int>, balances: seq<U128>)
    requires LeavesAre(h, leaves, ids, balances)
    ensures forall n :: n in leaves ==> Reduce(n.hash) == n.hash
  {
  }

  lemma CanonicalLevel(h: HashFunction, levels: seq<seq<Node>>, k: nat, ids: seq<int>, balances: seq<U128>)
    requires IsTree(h, levels) && k < |levels| && LeavesAre(h, levels[0], ids, balances)
    ensures forall n :: n in levels[k] ==> Reduce(n.hash) == n.hash
  {
    if k == 0 {
      CanonicalLeaves(h, levels[0], ids, balances);
    } else {
      assert LevelFollows(h, levels, k - 1);
      CanonicalParents(h, levels[k - 1]);
    }
  }

  /** The leaf that high belongs to is the hash of the last node below it. */
  ghost predicate IncludedBelow(h: HashFunction, levels: seq<seq<Node>>, ids: seq<int>, balances: seq<U128>,
                                node: Node, low: seq<PathStep>, high: seq<PathStep>)
    requires PerfectTree(h, levels, |high|) && |levels[0]| == |ids| == |balances| && low != []
  {
    var i, last := IndexOf(high), FoldPath(h, node, low[..|low| - 1]);
    && i < |ids| && SamePath(high, PathFrom(h, levels, 0, i))
    && var c := Ordered(last, low[|low| - 1]); LeafIsNode(ids[i], balances[i], c.0, c.1)
  }

  /** What an accepted path tells when no collision is at hand, by its length against the depth d. */
  ghost predicate Included(h: HashFunction, levels: seq<seq<Node>>, d: nat, ids: seq<int>, balances: seq<U128>,
                           idHash: int, balance: U128, path: seq<PathStep>)
    requires PerfectTree(h, levels, d) && |levels[0]| == |ids| == |balances|
  {
    if |path| == d then
      var i := IndexOf(path);
      && i < |ids| && Reduce(idHash) == Reduce(ids[i]) && balance == balances[i]
      && SamePath(path, PathFrom(h, levels, 0, i))
    else if |path| < d then
      var k, i := d - |path|, IndexOf(path);
      && i < |levels[k]| && SamePath(path, PathFrom(h, levels, k, i))
      && var c := ChildrenOf(h, levels, k, i); LeafIsNode(idHash, balance, c.0, c.1)
    else
      IncludedBelow(h, levels, ids, balances, Leaf(h, idHash, balance), path[..|path| - d], path[|path| - d..])
  }

  /** Soundness, for paths of every length.  A path of the tree's depth comes from a leaf of the tree and is
      that leaf's own, ids and hashes compared as field elements.  A shorter one claims an inner node whose
      right child is (0, 0); a longer one hangs below a leaf whose id is the hash of a node paired with
      (0, 0).  Otherwise the extracted pair of inputs is a collision. */
  lemma InclusionSoundness(h: HashFunction, levels: seq<seq<Node>>, d: nat, ids: seq<int>, balances: seq<U128>,
                           idHash: int, balance: U128, path: seq<PathStep>)
    requires IsTree(h, levels) && LeavesAre(h, levels[0], ids, balances) && |levels[0]| == Pow2(d)
    requires FoldPath(h, Leaf(h, idHash, balance), path).hash == Root(levels).hash
    ensures PerfectTree(h, levels, d)
    ensures
      var q := ExtractFromLeaf(h, levels, d, ids, balances, idHash, balance, path);
      || (&& q.0 != q.1 && InField(q.0) && InField(q.1)
          && h(q.0.a, q.0.b, q.0.c, q.0.d) % BN254_ORDER == h(q.1.a, q.1.b, q.1.c, q.1.d) % BN254_ORDER)
      || Included(h, levels, d, ids, balances, idHash, balance, path)
  {
    PowerOfTwoIsPerfect(h, levels, d);
    if |path| == d {
      ExactPath(h, levels, ids, balances, idHash, balance, path);
    } else if |path| < d {
      ShortPath(h, levels, d, ids, balances, idHash, balance, path);
    } else {
      LongPath(h, levels, d, ids, balances, idHash, balance, path);
    }
  }

  lemma SameLeaf(h: HashFunction, idHash: int, balance: U128, id: int, b: U128)
    requires Leaf(h, idHash, balance).hash == Leaf(h, id, b).hash
    ensures
      || Collides(h, (LeafInput(idHash, balance), LeafInput(id, b)))
      || (Reduce(idHash) == Reduce(id) && balance == b)
  {
    var node := Leaf(h, id, b);
    InputsAreHashed(h, idHash, balance, node, PathStep(node, false));
    InputsAreHashed(h, id, b, node, PathStep(node, false));
    ReduceTwice(balance);
    ReduceTwice(b);
  }

  lemma ExactPath(h: HashFunction, levels: seq<seq<Node>>, ids: seq<int>, balances: seq<U128>,
                  idHash: int, balance: U128, path: seq<PathStep>)
    requires PerfectTree(h, levels, |path|) && LeavesAre(h, levels[0], ids, balances)
    requires FoldPath(h, Leaf(h, idHash, balance), path).hash == Root(levels).hash
    ensures
      || Collides(h, ExtractFromLeaf(h, levels, |path|, ids, balances, idHash, balance, path))
      || Included(h, levels, |path|, ids, balances, idHash, balance, path)
  {
    var i, leaf := IndexOf(path), Leaf(h, idHash, balance);
    CanonicalLeaves(h, levels[0], ids, balances);
    ExtractOrFollow(h, levels, 0, leaf, path);
    if !Collides(h, Extract(h, levels, 0, leaf, path)) {
      SameLeaf(h, idHash, balance, ids[i], balances[i]);
    }
  }

  lemma ShortPath(h: HashFunction, levels: seq<seq<Node>>, d: nat, ids: seq<int>, balances: seq<U128>,
                  idHash: int, balance: U128, path: seq<PathStep>)
    requires PerfectTree(h, levels, d) && LeavesAre(h, levels[0], ids, balances) && |path| < d
    requires FoldPath(h, Leaf(h, idHash, balance), path).hash == Root(levels).hash
    ensures
      || Collides(h, ExtractFromLeaf(h, levels, d, ids, balances, idHash, balance, path))
      || Included(h, levels, d, ids, balances, idHash, balance, path)
  {
    var k, i, leaf := d - |path|, IndexOf(path), Leaf(h, idHash, balance);
    CanonicalLevel(h, levels, k, ids, balances);
    ExtractOrFollow(h, levels, k, leaf, path);
    if !Collides(h, Extract(h, levels, k, leaf, path)) {
      InputsAreHashed(h, idHash, balance, leaf, PathStep(leaf, false));
      OwnInputIsHashed(h, levels, k, i);
      var c := ChildrenOf(h, levels, k, i);
      if LeafInput(idHash, balance) == OwnInput(h, levels, k, i) {
        EqualInputs(idHash, balance, c.0, c.1);
      }
    }
  }

  lemma NodeBelowLeaf(h: HashFunction, id: int, balance: U128, node: Node, step: PathStep)
    requires FoldStep(h, node, step).hash == Leaf(h, id, balance).hash
    ensures
      var c := Ordered(node, step);
      Collides(h, (StepInput(node, step), LeafInput(id, balance))) || LeafIsNode(id, balance, c.0, c.1)
  {
    InputsAreHashed(h, id, balance, node, step);
    var c := Ordered(node, step);
    if StepInput(node, step) == LeafInput(id, balance) {
      EqualInputs(id, balance, c.0, c.1);
    }
  }

  lemma BelowLeaf(h: HashFunction, levels: seq<seq<Node>>, ids: seq<int>, balances: seq<U128>, node: Node,
                  low: seq<PathStep>, high: seq<PathStep>)
    requires PerfectTree(h, levels, |high|) && LeavesAre(h, levels[0], ids, balances) && low != []
    requires FoldPath(h, FoldPath(h, node, low), high).hash == Root(levels).hash
    ensures
      || Collides(h, ExtractBelow(h, levels, ids, balances, node, low, high))
      || IncludedBelow(h, levels, ids, balances, node, low, high)
  {
    var last, step, i := FoldPath(h, node, low[..|low| - 1]), low[|low| - 1], IndexOf(high);
    FoldEndsIn(h, node, low);
    CanonicalStep(h, last, step);
    CanonicalLeaves(h, levels[0], ids, balances);
    ExtractOrFollow(h, levels, 0, FoldPath(h, node, low), high);
    if !Collides(h, Extract(h, levels, 0, FoldPath(h, node, low), high)) {
      NodeBelowLeaf(h, ids[i], balances[i], last, step);
    }
  }

  lemma LongPath(h: HashFunction, levels: seq<seq<Node>>, d: nat, ids: seq<int>, balances: seq<U128>,
                 idHash: int, balance: U128, path: seq<PathStep>)
    requires PerfectTree(h, levels, d) && LeavesAre(h, levels[0], ids, balances) && |path| > d
    requires FoldPath(h, Leaf(h, idHash, balance), path).hash == Root(levels).hash
    ensures
      || Collides(h, ExtractFromLeaf(h, levels, d, ids, balances, idHash, balance, path))
      || Included(h, levels, d, ids, balances, idHash, balance, path)
  {
    var low, high := path[..|path| - d], path[|path| - d..];
    assert path == low + high;
    FoldSplits(h, Leaf(h, idHash, balance), low, high);
    BelowLeaf(h, levels, ids, balances, Leaf(h, idHash, balance), low, high);
  }

  /** The long case does occur: below a customer whose id is itself the hash of a leaf. */
  lemma LongPathIsAccepted(h: HashFunction, inner: int, balance: U128, rest: seq<PathStep>)
    ensures
      var id := Leaf(h, inner, balance).hash;
      FoldPath(h, Leaf(h, inner, balance), [PathStep(Node(0, 0), false)] + rest)
          == FoldPath(h, Leaf(h, id, balance), rest)
  {
    var path := [PathStep(Node(0, 0), false)] + rest;
    assert path[1..] == rest;
  }
}
