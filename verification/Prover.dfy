/** The prover service up to the proof itself: totals, padding, the tree, and each customer's path. */
module Prover {
  import opened MerkleSumTree
  import opened Results
  import opened Sums

  /** Customer leaves and reserve figures of the circuit; 8 = 2^3. */
  const N: nat := 8
  const M: nat := 4
  const DEPTH: nat := 3

  datatype Witness = Witness(leafIds: seq<int>, leafBalances: seq<U128>, reserves: seq<U128>, prevReserves: U128)

  datatype Bundle = Bundle(rootHash: int, reservesTotal: U128, liabilitiesTotal: U128, prevReserves: U128,
                           paths: seq<seq<PathStep>>)

  lemma {:induction false} TotalPrefix(s: seq<nat>, n: nat)
    requires n <= |s|
    ensures Total(s[..n]) <= Total(s)
  {
    if n > 0 {
      assert s[..n][1..] == s[1..][..n - 1];
      TotalPrefix(s[1..], n - 1);
    }
  }

  /** The builds trap on overflow, so the sum is exact or the call does not return. */
  method SumOf(values: seq<U128>) returns (total: Result<U128>)
    ensures total == if Total(values) > U128_MAX then Err("overflow") else Ok(Total(values))
  {
    var sum: U128 := 0;
    var i := 0;
    while i < |values|
      invariant 0 <= i <= |values| && sum == Total(values[..i])
    {
      TotalAppend(values[..i], values[i]);
      assert values[..i + 1] == values[..i] + [values[i]];
      TotalPrefix(values, i + 1);
      if sum + values[i] > U128_MAX {
        return Err("overflow");
      }
      sum := sum + values[i];
      i := i + 1;
    }
    assert values[..i] == values;
    return Ok(sum);
  }

  function CustomerLeaves(h: HashFunction, w: Witness): (leaves: seq<Node>)
    requires |w.leafIds| == |w.leafBalances|
  {
    seq(|w.leafIds|, i requires 0 <= i < |w.leafIds| => Leaf(h, w.leafIds[i], w.leafBalances[i]))
  }

  lemma {:induction false} PaddedTotal(h: HashFunction, leaves: seq<Node>, padded: seq<Node>)
    requires leaves <= padded
    requires forall i :: |leaves| <= i < |padded| ==> padded[i] == Leaf(h, 0, 0)
    ensures Total(Balances(padded)) == Total(Balances(leaves))
    decreases |padded|
  {
    if padded == leaves {
    } else {
      var n := |padded| - 1;
      PaddedTotal(h, leaves, padded[..n]);
      assert Balances(padded) == Balances(padded[..n]) + [0];
      TotalAppend(Balances(padded[..n]), 0);
    }
  }

  ghost predicate Provable(w: Witness) {
    && |w.leafIds| == |w.leafBalances|
    && 0 < |w.leafBalances| <= N
    && |w.reserves| <= M
    && Total(w.leafBalances) <= Total(w.reserves) <= U128_MAX
  }

  /** Every customer's path, folded as the registry does, meets the published root hash and total. */
  ghost predicate PathsVerify(h: HashFunction, w: Witness, bundle: Bundle)
    requires |w.leafIds| == |w.leafBalances|
  {
    && |bundle.paths| == |w.leafIds|
    && forall i :: 0 <= i < |w.leafIds| ==>
         && |bundle.paths[i]| == DEPTH
         && FoldPath(h, Leaf(h, w.leafIds[i], w.leafBalances[i]), bundle.paths[i])
             == Node(bundle.rootHash, bundle.liabilitiesTotal)
  }

  method SerializeTree(h: HashFunction, levels: seq<seq<Node>>, w: Witness) returns (paths: seq<seq<PathStep>>)
    requires IsTree(h, levels) && |w.leafBalances| <= |levels[0]|
    ensures |paths| == |w.leafBalances|
    ensures forall i :: 0 <= i < |paths| ==> paths[i] == PathFrom(h, levels, 0, i)
  {
    paths := [];
    for i := 0 to |w.leafBalances|
      invariant |paths| == i && forall k :: 0 <= k < i ==> paths[k] == PathFrom(h, levels, 0, k)
    {
      var path := InclusionPath(h, levels, i);
      paths := paths + [path];
    }
  }

  lemma PublishedTotals(h: HashFunction, levels: seq<seq<Node>>, w: Witness)
    requires Provable(w) && IsTree(h, levels) && |levels[0]| == N
    requires CustomerLeaves(h, w) <= levels[0]
    requires forall i :: |w.leafIds| <= i < N ==> levels[0][i] == Leaf(h, 0, 0)
    ensures Root(levels).sum == Total(w.leafBalances)
    ensures |levels| == DEPTH + 1
  {
    assert Balances(CustomerLeaves(h, w)) == w.leafBalances;
    PaddedTotal(h, CustomerLeaves(h, w), levels[0]);
    assert Pow2(3) == N;
    ConservationForPowersOfTwo(h, levels, 3);
    assert LevelFollows(h, levels, 0);
    assert LevelFollows(h, levels, 1);
    assert LevelFollows(h, levels, 2);
    assert |levels| > 4 ==> LevelFollows(h, levels, 3);
  }

  method Prove(h: HashFunction, w: Witness) returns (r: Result<Bundle>)
    ensures r.Ok? <==>
      && |w.leafIds| == |w.leafBalances|
      && 0 < |w.leafBalances| <= 8 && |w.reserves| <= 4
      && Total(w.leafBalances) <= Total(w.reserves) <= U128_MAX
    ensures r.Ok? ==>
      && r.value.liabilitiesTotal == Total(w.leafBalances)
      && r.value.reservesTotal == Total(w.reserves)
      && r.value.liabilitiesTotal <= r.value.reservesTotal
      && r.value.prevReserves == w.prevReserves
      && PathsVerify(h, w, r.value)
  {
    if |w.leafIds| != |w.leafBalances| {
      return Err("leaf_ids and leaf_balances length mismatch");
    }
    if |w.leafBalances| == 0 {
      return Err("at least one customer is required");
    }
    if |w.leafBalances| > N {
      return Err("at most N customers supported");
    }
    if |w.reserves| > M {
      return Err("at most M reserve figures supported");
    }
    var liabilities := SumOf(w.leafBalances);
    if liabilities.Err? {
      return Err("overflow");
    }
    var reserves := SumOf(w.reserves);
    if reserves.Err? {
      return Err("overflow");
    }
    if reserves.value < liabilities.value {
      return Err("insolvent");
    }
    var leaves := CustomerLeaves(h, w);
    while |leaves| < N
      invariant |w.leafIds| <= |leaves| <= N && CustomerLeaves(h, w) <= leaves
      invariant forall i :: |w.leafIds| <= i < |leaves| ==> leaves[i] == Leaf(h, 0, 0)
    {
      leaves := leaves + [Leaf(h, 0, 0)];
    }
    var levels := Build(h, leaves);
    PublishedTotals(h, levels, w);
    var paths := SerializeTree(h, levels, w);
    var root := Root(levels);
    var bundle := Bundle(root.hash, reserves.value, liabilities.value, w.prevReserves, paths);
    forall i | 0 <= i < |w.leafIds|
      ensures |paths[i]| == DEPTH && FoldPath(h, Leaf(h, w.leafIds[i], w.leafBalances[i]), paths[i])
              == Node(root.hash, liabilities.value)
    {
      PathFoldsToRoot(h, levels, 0, i);
      assert levels[0][i] == CustomerLeaves(h, w)[i];
    }
    return Ok(bundle);
  }
}
