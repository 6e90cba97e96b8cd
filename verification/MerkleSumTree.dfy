/** The prover's Merkle Sum Tree: built level by level, an odd level pairing its last node with itself.
    The hash is any function of four field elements; sums are 128-bit and saturate. */
module MerkleSumTree {
  import opened PrimeField
  import opened Sums

  const U128_MAX: int := 0xFFFF_FFFF_FFFF_FFFF_FFFF_FFFF_FFFF_FFFF

  type U128 = n: int | 0 <= n <= U128_MAX witness 0

  /** Any function on quadruples of reduced field elements. */
  type HashFunction = (int, int, int, int) -> int

  datatype Node = Node(hash: int, sum: U128)

  datatype PathStep = PathStep(sibling: Node, siblingIsLeft: bool)

  function Reduce(a: int): int {
    a % BN254_ORDER
  }

  /** Inputs are reduced on the way in, outputs are canonical. */
  function Hash4(h: HashFunction, a: int, b: int, c: int, d: int): int {
    Reduce(h(Reduce(a), Reduce(b), Reduce(c), Reduce(d)))
  }

  function SaturatingAdd(a: U128, b: U128): U128 {
    if a + b > U128_MAX then U128_MAX else a + b
  }

  function Leaf(h: HashFunction, idHash: int, balance: U128): Node {
    Node(Hash4(h, idHash, balance, 0, 0), balance)
  }

  function HashPair(h: HashFunction, left: Node, right: Node): Node {
    Node(Hash4(h, left.hash, left.sum, right.hash, right.sum), SaturatingAdd(left.sum, right.sum))
  }

  /** The parent level: node i combines nodes 2i and 2i+1, or node 2i with itself at an odd end. */
  function Parents(h: HashFunction, level: seq<Node>): (parents: seq<Node>)
    ensures |parents| == (|level| + 1) / 2
  {
    seq((|level| + 1) / 2, i requires 0 <= i < (|level| + 1) / 2 =>
      HashPair(h, level[2 * i], level[if 2 * i + 1 < |level| then 2 * i + 1 else 2 * i]))
  }

  method CombineLevel(h: HashFunction, current: seq<Node>) returns (parents: seq<Node>)
    ensures parents == Parents(h, current)
    ensures 2 * |parents| == |current| + |current| % 2
    ensures forall i :: 0 <= i < |parents| ==>
      parents[i] == HashPair(h, current[2 * i], current[if 2 * i + 1 < |current| then 2 * i + 1 else 2 * i])
  {
    parents := [];
    var i := 0;
    while i < |current|
      invariant 0 <= i <= |current| + 1
      invariant i % 2 == 0 && 2 * |parents| == i
      invariant forall k :: 0 <= k < |parents| ==> parents[k] == Parents(h, current)[k]
    {
      var pair := current[i..if i + 2 <= |current| then i + 2 else |current|];
      var left := pair[0];
      var right := if |pair| == 2 then pair[1] else pair[0];
      parents := parents + [HashPair(h, left, right)];
      i := i + 2;
    }
  }

  ghost predicate LevelFollows(h: HashFunction, levels: seq<seq<Node>>, k: nat)
    requires k + 1 < |levels|
  {
    |levels[k]| > 1 && levels[k + 1] == Parents(h, levels[k])
  }

  /** Every level but the last has several nodes and the next level is its parents. */
  ghost predicate Levels(h: HashFunction, levels: seq<seq<Node>>) {
    && |levels| > 0
    && (forall k :: 0 <= k < |levels| - 1 ==> LevelFollows(h, levels, k))
    && |levels[|levels| - 1]| > 0
  }

  ghost predicate IsTree(h: HashFunction, levels: seq<seq<Node>>) {
    Levels(h, levels) && |levels[|levels| - 1]| == 1
  }

  function Root(levels: seq<seq<Node>>): Node
    requires |levels| > 0 && |levels[|levels| - 1]| > 0
  {
    levels[|levels| - 1][0]
  }

  method Build(h: HashFunction, leaves: seq<Node>) returns (levels: seq<seq<Node>>)
    requires |leaves| > 0
    ensures IsTree(h, levels) && levels[0] == leaves
  {
    levels := [leaves];
    while |levels[|levels| - 1]| > 1
      invariant Levels(h, levels) && levels[0] == leaves
      decreases |levels[|levels| - 1]|
    {
      var parents := CombineLevel(h, levels[|levels| - 1]);
      ghost var was := levels;
      levels := levels + [parents];
      forall k | 0 <= k < |levels| - 1 ensures LevelFollows(h, levels, k) {
        assert k < |was| - 1 ==> LevelFollows(h, was, k);
      }
    }
  }

  function SiblingIndex(width: nat, i: nat): (s: nat)
    requires i < width
    ensures s < width
  {
    if i % 2 == 1 then i - 1 else if i + 1 < width then i + 1 else i
  }

  function StepAt(level: seq<Node>, i: nat): PathStep
    requires i < |level|
  {
    PathStep(level[SiblingIndex(|level|, i)], i % 2 == 1)
  }

  /** The sibling path of node i of level k. */
  function PathFrom(h: HashFunction, levels: seq<seq<Node>>, k: nat, i: nat): (path: seq<PathStep>)
    requires Levels(h, levels) && k < |levels| && i < |levels[k]|
    ensures |path| == |levels| - 1 - k
    decreases |levels| - k
  {
    if k == |levels| - 1 then []
    else
      assert LevelFollows(h, levels, k);
      [StepAt(levels[k], i)] + PathFrom(h, levels, k + 1, i / 2)
  }

  lemma HalfThenDivide(i: nat, m: nat)
    requires m > 0
    ensures i / 2 / m == i / (2 * m)
  {
    var q, r := i / (2 * m), i % (2 * m);
    assert i == 2 * (m * q) + r by {
      assert 2 * m * q == 2 * (m * q);
    }
    DivideBlock(m, q, r / 2);
  }

  lemma DivideBlock(m: nat, q: int, r: int)
    requires 0 <= r < m
    ensures (m * q + r) / m == q
  {
    var d, e := (m * q + r) / m, (m * q + r) % m;
    assert (q - d) * m == m * q - m * d;
    SmallMultiple(m, q - d, e - r);
  }

  /** Step j of a path is the sibling of node i / 2^j at level k + j; an odd index has its sibling on the left,
      and a node without a sibling is its own. */
  lemma {:induction false} PathAt(h: HashFunction, levels: seq<seq<Node>>, k: nat, i: nat, j: nat)
    requires Levels(h, levels) && k + j < |levels| - 1 && i < |levels[k]|
    ensures i / Pow2(j) < |levels[k + j]|
    ensures
      var n, level := i / Pow2(j), levels[k + j];
      PathFrom(h, levels, k, i)[j]
      == if n % 2 == 1 then PathStep(level[n - 1], true)
         else PathStep(level[if n + 1 < |level| then n + 1 else n], false)
    decreases j
  {
    assert LevelFollows(h, levels, k);
    if j > 0 {
      PathAt(h, levels, k + 1, i / 2, j - 1);
      HalfThenDivide(i, Pow2(j - 1));
    }
  }

  /** The path's bits are those of the index. */
  lemma PathBits(h: HashFunction, levels: seq<seq<Node>>, index: nat)
    requires IsTree(h, levels) && index < |levels[0]|
    ensures
      var path := PathFrom(h, levels, 0, index);
      forall j :: 0 <= j < |path| ==> path[j].siblingIsLeft == (index / Pow2(j) % 2 == 1)
  {
    var path := PathFrom(h, levels, 0, index);
    forall j | 0 <= j < |path| ensures path[j].siblingIsLeft == (index / Pow2(j) % 2 == 1) {
      PathAt(h, levels, 0, index, j);
    }
  }

  method InclusionPath(h: HashFunction, levels: seq<seq<Node>>, index: nat) returns (path: seq<PathStep>)
    requires IsTree(h, levels) && index < |levels[0]|
    ensures path == PathFrom(h, levels, 0, index)
    ensures |path| == |levels| - 1
    ensures forall j :: 0 <= j < |path| ==> path[j].siblingIsLeft == (index / Pow2(j) % 2 == 1)
  {
    path := [];
    var idx := index;
    var k := 0;
    while k < |levels| - 1
      invariant 0 <= k <= |levels| - 1 && 0 <= idx < |levels[k]|
      invariant path + PathFrom(h, levels, k, idx) == PathFrom(h, levels, 0, index)
    {
      var level := levels[k];
      assert LevelFollows(h, levels, k);
      var isRight := idx % 2 == 1;
      var siblingIdx := if isRight then idx - 1 else idx + 1;
      var sibling := if siblingIdx < |level| then level[siblingIdx] else level[idx];
      ghost var was := path;
      path := path + [PathStep(sibling, isRight)];
      assert PathFrom(h, levels, k, idx) == [PathStep(sibling, isRight)] + PathFrom(h, levels, k + 1, idx / 2);
      assert was + ([PathStep(sibling, isRight)] + PathFrom(h, levels, k + 1, idx / 2))
             == path + PathFrom(h, levels, k + 1, idx / 2);
      idx := idx / 2;
      k := k + 1;
    }
    assert path + [] == path;
    PathBits(h, levels, index);
  }

  // ----- folding a path, leaf to root

  function FoldStep(h: HashFunction, node: Node, step: PathStep): Node {
    if step.siblingIsLeft then HashPair(h, step.sibling, node) else HashPair(h, node, step.sibling)
  }

  function FoldPath(h: HashFunction, node: Node, path: seq<PathStep>): Node
    decreases path
  {
    if path == [] then node else FoldPath(h, FoldStep(h, node, path[0]), path[1..])
  }

  lemma StepFoldsToParent(h: HashFunction, level: seq<Node>, i: nat)
    requires i < |level|
    ensures FoldStep(h, level[i], StepAt(level, i)) == Parents(h, level)[i / 2]
  {
    assert i == 2 * (i / 2) + i % 2;
  }

  /** Completeness: from any node of any level, its path folds to the root. */
  lemma {:induction false} PathFoldsToRoot(h: HashFunction, levels: seq<seq<Node>>, k: nat, i: nat)
    requires IsTree(h, levels) && k < |levels| && i < |levels[k]|
    ensures FoldPath(h, levels[k][i], PathFrom(h, levels, k, i)) == Root(levels)
    decreases |levels| - k
  {
    if k < |levels| - 1 {
      assert LevelFollows(h, levels, k);
      StepFoldsToParent(h, levels[k], i);
      PathFoldsToRoot(h, levels, k + 1, i / 2);
      var path := PathFrom(h, levels, k, i);
      assert path[1..] == PathFrom(h, levels, k + 1, i / 2);
    }
  }

  // ----- the root sum

  function Saturate(n: nat): U128 {
    if n > U128_MAX then U128_MAX else n
  }

  function Total(s: seq<nat>): nat {
    if s == [] then 0 else s[0] + Total(s[1..])
  }

  /** The parent level's sums without saturation. */
  function PairSums(s: seq<nat>): (t: seq<nat>)
    ensures |t| == (|s| + 1) / 2
  {
    seq((|s| + 1) / 2, i requires 0 <= i < (|s| + 1) / 2 =>
      s[2 * i] + s[if 2 * i + 1 < |s| then 2 * i + 1 else 2 * i])
  }

  /** What duplicating the last node of odd levels adds to the root sum. */
  function Doubled(s: seq<nat>): nat
    requires |s| > 0
    decreases |s|
  {
    if |s| == 1 then 0 else (if |s| % 2 == 1 then s[|s| - 1] else 0) + Doubled(PairSums(s))
  }

  lemma {:induction false} TotalAppend(s: seq<nat>, x: nat)
    ensures Total(s + [x]) == Total(s) + x
  {
    if s == [] {
      assert [x][1..] == [];
    } else {
      TotalAppend(s[1..], x);
      assert (s + [x])[1..] == s[1..] + [x];
    }
  }

  lemma {:induction false} TotalOfPairs(s: seq<nat>)
    ensures Total(PairSums(s)) == Total(s) + if |s| % 2 == 1 then s[|s| - 1] else 0
    decreases |s|
  {
    if |s| == 1 {
      assert PairSums(s) == [s[0] + s[0]];
      assert [s[0] + s[0]][1..] == [] && s[1..] == [];
    } else if |s| >= 2 {
      var rest := s[2..];
      TotalOfPairs(rest);
      assert PairSums(s)[1..] == PairSums(rest);
      assert s[1..][1..] == rest;
    }
  }

  ghost predicate SumsSaturate(level: seq<Node>, s: seq<nat>) {
    |level| == |s| && forall i :: 0 <= i < |s| ==> level[i].sum == Saturate(s[i])
  }

  lemma {:induction false} RootSumFrom(h: HashFunction, levels: seq<seq<Node>>, k: nat, s: seq<nat>)
    requires IsTree(h, levels) && k < |levels| && SumsSaturate(levels[k], s)
    ensures |s| > 0
    ensures Root(levels).sum == Saturate(Total(s) + Doubled(s))
    decreases |levels| - k
  {
    if k < |levels| - 1 {
      assert LevelFollows(h, levels, k);
      TotalOfPairs(s);
      RootSumFrom(h, levels, k + 1, PairSums(s));
    } else {
      assert s[1..] == [];
    }
  }

  function Balances(leaves: seq<Node>): seq<nat> {
    seq(|leaves|, i requires 0 <= i < |leaves| => leaves[i].sum)
  }

  /** For every width, the root sum is the saturated total plus the duplicated odd ends. */
  lemma RootSum(h: HashFunction, levels: seq<seq<Node>>)
    requires IsTree(h, levels)
    ensures |levels[0]| > 0
    ensures Root(levels).sum == Saturate(Total(Balances(levels[0])) + Doubled(Balances(levels[0])))
  {
    assert |levels| > 1 ==> LevelFollows(h, levels, 0);
    RootSumFrom(h, levels, 0, Balances(levels[0]));
  }

  /** So it is the total exactly when nothing was duplicated, or saturation hides it. */
  lemma ConservationIff(h: HashFunction, levels: seq<seq<Node>>)
    requires IsTree(h, levels)
    ensures |levels[0]| > 0
    ensures
      var total := Total(Balances(levels[0]));
      Root(levels).sum == total <==> total <= U128_MAX && (Doubled(Balances(levels[0])) == 0 || total == U128_MAX)
  {
    RootSum(h, levels);
  }

  lemma {:induction false} PowerOfTwoDoublesNothing(s: seq<nat>, d: nat)
    requires |s| == Pow2(d)
    ensures |s| > 0 && Doubled(s) == 0
    decreases d
  {
    if d > 0 {
      PowerOfTwoDoublesNothing(PairSums(s), d - 1);
    }
  }

  lemma ConservationForPowersOfTwo(h: HashFunction, levels: seq<seq<Node>>, d: nat)
    requires IsTree(h, levels) && |levels[0]| == Pow2(d) && Total(Balances(levels[0])) <= U128_MAX
    ensures Root(levels).sum == Total(Balances(levels[0]))
  {
    PowerOfTwoDoublesNothing(Balances(levels[0]), d);
    RootSum(h, levels);
  }

  /** Three leaves: the third balance is counted twice. */
  lemma ThreeLeavesDoNotConserve(h: HashFunction, levels: seq<seq<Node>>, a: Node, b: Node, c: Node)
    requires IsTree(h, levels) && levels[0] == [a, b, c]
    requires a.sum == 1 && b.sum == 2 && c.sum == 3
    ensures Root(levels).sum == 9 && Total(Balances(levels[0])) == 6
  {
    RootSum(h, levels);
    var s := Balances(levels[0]);
    assert s == [1, 2, 3];
    assert [1, 2, 3][1..] == [2, 3] && [2, 3][1..] == [3] && [3][1..] == [];
    assert PairSums([1, 2, 3]) == [3, 6] && PairSums([3, 6]) == [9];
  }
}
