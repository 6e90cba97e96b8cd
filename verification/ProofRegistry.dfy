/** The on-chain registry: contract storage, publishing, queries and inclusion checks. */
module ProofRegistry {
  import opened MerkleSumTree
  import opened Sums
  import Prover

  type Bytes = seq<int>

  type Address(==) = int

  datatype PubInputs = PubInputs(reservesTotal: U128, liabilitiesTotal: U128, rootHash: int, prevReserves: U128)

  datatype ProofMeta = ProofMeta(rootH: int, r: U128, l: U128, timestamp: nat)

  /** The contract's error codes; Unauthorized is the host's trap on a missing signature. */
  datatype Error =
    | AlreadyInitialized | NotInitialized | ProofInvalid | InsolventBound | ProofNotFound | PrevReservesMismatch
    | Unauthorized

  datatype Response<+T> = Ok(value: T) | Err(error: Error)

  /** UltraHonk verification: any predicate of key, proof and public inputs. */
  type Verifier = (Bytes, Bytes, PubInputs) -> bool

  datatype Option<+T> = None | Some(value: T)

  // ----- storage as a value, and what each call does to it

  datatype Storage = Storage(owner: Option<Address>, vk: Option<Bytes>, latestId: Option<nat>, proofs: map<nat,
                             ProofMeta>)

  const EMPTY := Storage(None, None, None, map[])

  datatype Call =
    | Construct(newOwner: Address, newVk: Bytes)
    | Publish(signers: set<Address>, proof: Bytes, inputs: PubInputs, now: nat)

  function EnforceGrowthBaseline(latestId: nat, previousReserves: U128, declared: U128,
                                 reservesTotal: U128): Response<()> {
    var expected := if latestId == 0 then reservesTotal else previousReserves;
    if declared != expected then Err(PrevReservesMismatch) else Ok(())
  }

  function GetProof(s: Storage, id: nat): Response<ProofMeta> {
    if id in s.proofs then Ok(s.proofs[id]) else Err(ProofNotFound)
  }

  function Latest(s: Storage): nat {
    if s.latestId.Some? then s.latestId.value else 0
  }

  function Meta(inputs: PubInputs, now: nat): ProofMeta {
    ProofMeta(inputs.rootHash, inputs.reservesTotal, inputs.liabilitiesTotal, now)
  }

  /** An inclusion query: the path must reproduce the committed hash and the committed total. */
  function InclusionVerdict(h: HashFunction, s: Storage, id: nat, idHash: int, balance: U128,
                            path: seq<PathStep>): Response<bool> {
    if id in s.proofs then Ok(FoldPath(h, Leaf(h, idHash, balance), path) == Node(s.proofs[id].rootH, s.proofs[id].l))
    else Err(ProofNotFound)
  }

  /** The verdict of a publish attempt; the checks run in this order. */
  function Judge(verifier: Verifier, s: Storage, signers: set<Address>, proof: Bytes,
                 inputs: PubInputs): Response<nat> {
    if s.owner.None? then Err(NotInitialized)
    else if s.owner.value !in signers then Err(Unauthorized)
    else if s.vk.None? then Err(NotInitialized)
    else if !verifier(s.vk.value, proof, inputs) then Err(ProofInvalid)
    else if inputs.reservesTotal < inputs.liabilitiesTotal then Err(InsolventBound)
    else
      var previous := if Latest(s) == 0 then Ok(0) else
        var p := GetProof(s, Latest(s));
        if p.Ok? then Ok(p.value.r) else Err(p.error);
      if previous.Err? then Err(previous.error)
      else
        var baseline := EnforceGrowthBaseline(Latest(s), previous.value, inputs.prevReserves, inputs.reservesTotal);
        if baseline.Err? then Err(baseline.error) else Ok(Latest(s) + 1)
  }

  function Apply(verifier: Verifier, s: Storage, call: Call): (Storage, Response<nat>) {
    match call
    case Construct(newOwner, newVk) =>
      if s.owner.Some? then (s, Err(AlreadyInitialized))
      else (s.(owner := Some(newOwner), vk := Some(newVk), latestId := Some(0)), Ok(0))
    case Publish(signers, proof, inputs, now) =>
      var verdict := Judge(verifier, s, signers, proof, inputs);
      if verdict.Err? then (s, verdict)
      else (s.(proofs := s.proofs[verdict.value := Meta(inputs, now)], latestId := Some(verdict.value)), verdict)
  }

  function Run(verifier: Verifier, s: Storage, calls: seq<Call>): Storage
    decreases calls
  {
    if calls == [] then s else Run(verifier, Apply(verifier, s, calls[0]).0, calls[1..])
  }

  // ----- the contract object

  class Registry {
    const verifier: Verifier
    const hash: HashFunction
    var owner: Option<Address>
    var vk: Option<Bytes>
    var latestId: Option<nat>
    var proofs: map<nat, ProofMeta>

    function State(): Storage
      reads this
    {
      Storage(owner, vk, latestId, proofs)
    }

    constructor (v: Verifier, h: HashFunction)
      ensures State() == EMPTY && verifier == v && hash == h
    {
      verifier, hash := v, h;
      owner, vk, latestId, proofs := None, None, None, map[];
    }

    method Initialize(newOwner: Address, newVk: Bytes) returns (r: Response<nat>)
      modifies this
      ensures (State(), r) == Apply(verifier, old(State()), Construct(newOwner, newVk))
      ensures old(owner).Some? ==> r == Err(AlreadyInitialized) && State() == old(State())
      ensures old(owner).None? ==>
        && r.Ok? && owner == Some(newOwner) && vk == Some(newVk) && latestId == Some(0) && proofs == old(proofs)
    {
      if owner.Some? {
        return Err(AlreadyInitialized);
      }
      owner := Some(newOwner);
      vk := Some(newVk);
      latestId := Some(0);
      return Ok(0);
    }

    method PublishProof(signers: set<Address>, proof: Bytes, inputs: PubInputs, now: nat) returns (r: Response<nat>)
      modifies this
      ensures (State(), r) == Apply(verifier, old(State()), Publish(signers, proof, inputs, now))
      ensures r.Err? ==> State() == old(State())
      ensures r.Ok? ==>
        && latestId == Some(r.value) && owner == old(owner) && vk == old(vk)
        && proofs == old(proofs)[r.value := ProofMeta(inputs.rootHash, inputs.reservesTotal, inputs.liabilitiesTotal,
                                                      now)]
    {
      if owner.None? {
        return Err(NotInitialized);
      }
      if owner.value !in signers {
        return Err(Unauthorized);
      }
      if vk.None? {
        return Err(NotInitialized);
      }
      if !verifier(vk.value, proof, inputs) {
        return Err(ProofInvalid);
      }
      if inputs.reservesTotal < inputs.liabilitiesTotal {
        return Err(InsolventBound);
      }
      var latest := if latestId.Some? then latestId.value else 0;
      var previousReserves: U128 := 0;
      if latest != 0 {
        var previous := GetProofById(latest);
        if previous.Err? {
          return Err(previous.error);
        }
        previousReserves := previous.value.r;
      }
      var baseline := EnforceGrowthBaseline(latest, previousReserves, inputs.prevReserves, inputs.reservesTotal);
      if baseline.Err? {
        return Err(baseline.error);
      }
      var id := latest + 1;
      proofs := proofs[id := Meta(inputs, now)];
      latestId := Some(id);
      return Ok(id);
    }

    method GetProofById(id: nat) returns (r: Response<ProofMeta>)
      ensures r == GetProof(State(), id)
      ensures r == if id in proofs then Ok(proofs[id]) else Err(ProofNotFound)
    {
      if id !in proofs {
        return Err(ProofNotFound);
      }
      return Ok(proofs[id]);
    }

    method GetLatestProof() returns (r: Response<ProofMeta>)
      ensures r == if latestId.None? then Err(NotInitialized)
                   else if latestId.value in proofs then Ok(proofs[latestId.value])
                   else Err(ProofNotFound)
    {
      if latestId.None? {
        return Err(NotInitialized);
      }
      r := GetProofById(latestId.value);
    }

    /** Folds the path leaf to root and compares both the hash and the total. */
    method VerifyInclusion(id: nat, idHash: int, balance: U128, path: seq<PathStep>) returns (r: Response<bool>)
      ensures r == InclusionVerdict(hash, State(), id, idHash, balance, path)
      ensures id !in proofs ==> r == Err(ProofNotFound)
      ensures id in proofs ==>
        var folded := FoldPath(hash, Leaf(hash, idHash, balance), path);
        r == Ok(folded.hash == proofs[id].rootH && folded.sum == proofs[id].l)
    {
      var stored := GetProofById(id);
      if stored.Err? {
        return Err(stored.error);
      }
      var meta := stored.value;
      var nodeHash := Hash4(hash, idHash, balance, 0, 0);
      var nodeSum := balance;
      var i := 0;
      while i < |path|
        invariant 0 <= i <= |path|
        invariant FoldPath(hash, Leaf(hash, idHash, balance), path)
                  == FoldPath(hash, Node(nodeHash, nodeSum), path[i..])
      {
        var step := path[i];
        assert path[i..][1..] == path[i + 1..];
        var (leftHash, leftSum, rightHash, rightSum) :=
          if step.siblingIsLeft then (step.sibling.hash, step.sibling.sum, nodeHash, nodeSum)
          else (nodeHash, nodeSum, step.sibling.hash, step.sibling.sum);
        nodeHash := Hash4(hash, leftHash, leftSum, rightHash, rightSum);
        nodeSum := SaturatingAdd(nodeSum, step.sibling.sum);
        i := i + 1;
      }
      return Ok(nodeHash == meta.rootH && nodeSum == meta.l);
    }
  }

  // ----- what every run keeps

  /** Ids are exactly 1..latest, and nothing is stored before initialization. */
  ghost predicate Consistent(s: Storage) {
    && (forall id :: id in s.proofs <==> 1 <= id <= Latest(s))
    && (s.latestId.None? ==> s.owner.None?)
    && (s.owner.None? ==> s.latestId.None?)
  }

  /** Every stored proof is solvent. */
  ghost predicate Solvent(s: Storage) {
    forall id :: id in s.proofs ==> s.proofs[id].l <= s.proofs[id].r
  }

  ghost predicate GrowthAt(s: Storage, id: nat) {
    id in s.proofs && id + 1 in s.proofs ==> 10 * s.proofs[id + 1].r <= 11 * s.proofs[id].r
  }

  ghost predicate BoundedGrowth(s: Storage) {
    forall id :: GrowthAt(s, id)
  }

  /** The circuit's growth bound, as far as the contract states it. */
  ghost predicate EnforcesGrowth(verifier: Verifier) {
    forall vk, proof, inputs :: verifier(vk, proof, inputs) ==> 10 * inputs.reservesTotal <= 11 * inputs.prevReserves
  }

  ghost predicate KeepsEntries(s: Storage, t: Storage) {
    && Latest(s) <= Latest(t)
    && forall id :: id in s.proofs ==> id in t.proofs && t.proofs[id] == s.proofs[id]
  }

  lemma StepKeeps(verifier: Verifier, s: Storage, call: Call)
    requires Consistent(s)
    ensures
      var (t, r) := Apply(verifier, s, call);
      && Consistent(t) && KeepsEntries(s, t)
      && (Solvent(s) ==> Solvent(t))
      && (EnforcesGrowth(verifier) && BoundedGrowth(s) ==> BoundedGrowth(t))
      && (r.Err? ==> t == s)
      && (r.Ok? && call.Publish? ==> r.value == Latest(s) + 1 == Latest(t) && r.value !in s.proofs)
  {
    var (t, r) := Apply(verifier, s, call);
    if call.Publish? && r.Ok? && EnforcesGrowth(verifier) && BoundedGrowth(s) {
      assert verifier(s.vk.value, call.proof, call.inputs);
      forall id ensures GrowthAt(t, id) {
        assert GrowthAt(s, id);
      }
    }
  }

  /** Append-only: whatever is called, stored proofs stay and only new ids are written. */
  lemma {:induction false} RunKeepsEntries(verifier: Verifier, s: Storage, calls: seq<Call>)
    requires Consistent(s)
    ensures Consistent(Run(verifier, s, calls)) && KeepsEntries(s, Run(verifier, s, calls))
    decreases calls
  {
    if calls != [] {
      StepKeeps(verifier, s, calls[0]);
      RunKeepsEntries(verifier, Apply(verifier, s, calls[0]).0, calls[1..]);
    }
  }

  lemma {:induction false} RunKeepsBounds(verifier: Verifier, s: Storage, calls: seq<Call>)
    requires Consistent(s) && Solvent(s)
    requires EnforcesGrowth(verifier) && BoundedGrowth(s)
    ensures
      var t := Run(verifier, s, calls);
      Consistent(t) && Solvent(t) && BoundedGrowth(t)
    decreases calls
  {
    if calls != [] {
      StepKeeps(verifier, s, calls[0]);
      RunKeepsBounds(verifier, Apply(verifier, s, calls[0]).0, calls[1..]);
    }
  }

  /** From deployment on, in every state any calls lead to. */
  lemma RegistryHistory(verifier: Verifier, calls: seq<Call>)
    requires EnforcesGrowth(verifier)
    ensures
      var s := Run(verifier, EMPTY, calls);
      && (forall id :: id in s.proofs <==> 1 <= id <= Latest(s))
      && (forall id :: id in s.proofs ==> s.proofs[id].l <= s.proofs[id].r)
      && (forall id :: 1 <= id < Latest(s) ==> 10 * s.proofs[id + 1].r <= 11 * s.proofs[id].r)
      && (forall id :: 1 <= id <= Latest(s) ==> Pow(10, id - 1) * s.proofs[id].r <= Pow(11, id - 1) * s.proofs[1].r)
  {
    RunKeepsBounds(verifier, EMPTY, calls);
    var s := Run(verifier, EMPTY, calls);
    forall id: nat | 1 <= id < Latest(s) ensures 10 * s.proofs[id + 1].r <= 11 * s.proofs[id].r {
      assert GrowthAt(s, id);
    }
    forall id: nat | 1 <= id <= Latest(s) ensures Pow(10, id - 1) * s.proofs[id].r <= Pow(11, id - 1) * s.proofs[1].r {
      CompoundGrowth(s, id);
    }
  }

  lemma {:induction false} CompoundGrowth(s: Storage, id: nat)
    requires Consistent(s) && BoundedGrowth(s) && 1 <= id <= Latest(s)
    ensures Pow(10, id - 1) * s.proofs[id].r <= Pow(11, id - 1) * s.proofs[1].r
  {
    if id > 1 {
      CompoundGrowth(s, id - 1);
      assert GrowthAt(s, id - 1);
      PowIsPositive(10, id - 2);
      Compound(Pow(10, id - 2), Pow(11, id - 2), s.proofs[id].r, s.proofs[id - 1].r, s.proofs[1].r);
    }
  }

  lemma {:induction false} PowIsPositive(b: int, n: nat)
    requires b > 0
    ensures Pow(b, n) > 0
  {
    if n > 0 {
      PowIsPositive(b, n - 1);
      assert Pow(b, n - 1) * b >= Pow(b, n - 1) * 1;
    }
  }

  lemma Compound(p: int, q: int, r: int, s: int, t: int)
    requires p > 0 && 10 * r <= 11 * s && p * s <= q * t
    ensures p * 10 * r <= q * 11 * t
  {
    assert p * (10 * r) <= p * (11 * s);
    assert p * 10 * r == p * (10 * r) && p * (11 * s) == 11 * (p * s) && q * 11 * t == 11 * (q * t);
  }

  /** Exactly which attempts an initialized registry accepts. */
  lemma PublishAccepts(verifier: Verifier, s: Storage, signers: set<Address>, proof: Bytes, inputs: PubInputs)
    requires Consistent(s) && s.owner.Some? && s.vk.Some?
    ensures Judge(verifier, s, signers, proof, inputs).Ok?
      <==> && s.owner.value in signers
           && verifier(s.vk.value, proof, inputs)
           && inputs.liabilitiesTotal <= inputs.reservesTotal
           && inputs.prevReserves == if Latest(s) == 0 then inputs.reservesTotal else s.proofs[Latest(s)].r
  {
  }

  /** Why an attempt is refused: the first of the checks that fails decides. */
  lemma RefusedFor(verifier: Verifier, s: Storage, signers: set<Address>, proof: Bytes, inputs: PubInputs)
    requires Consistent(s)
    ensures
      var r := Judge(verifier, s, signers, proof, inputs);
      var signed := s.owner.Some? && s.owner.value in signers;
      var proved := signed && s.vk.Some? && verifier(s.vk.value, proof, inputs);
      var solvent := proved && inputs.liabilitiesTotal <= inputs.reservesTotal;
      && (r == Err(NotInitialized) <==> s.owner.None? || (signed && s.vk.None?))
      && (r == Err(Unauthorized) <==> s.owner.Some? && !signed)
      && (r == Err(ProofInvalid) <==> signed && s.vk.Some? && !proved)
      && (r == Err(InsolventBound) <==> proved && !solvent)
      && (r == Err(PrevReservesMismatch) <==>
            solvent && inputs.prevReserves != if Latest(s) == 0 then inputs.reservesTotal else s.proofs[Latest(s)].r)
      && r != Err(ProofNotFound) && r != Err(AlreadyInitialized)
  {
  }

  /** What an accepted attempt stores: the published figures and the ledger's time, under the next id. */
  lemma PublishStores(verifier: Verifier, s: Storage, signers: set<Address>, proof: Bytes, inputs: PubInputs, now: nat)
    requires Consistent(s)
    ensures
      var (t, r) := Apply(verifier, s, Publish(signers, proof, inputs, now));
      r.Ok? ==>
        && r.value == Latest(s) + 1 && t.latestId == Some(r.value) && t.owner == s.owner && t.vk == s.vk
        && t.proofs == s.proofs[r.value := ProofMeta(inputs.rootHash, inputs.reservesTotal, inputs.liabilitiesTotal,
                                                     now)]
  {
  }

  /** A fresh contract: the constructor's owner and key are those the first attempt is judged by, and it must
      declare zero growth; a later constructor call changes nothing. */
  lemma FirstPublish(verifier: Verifier, owner: Address, vk: Bytes, again: Call, signers: set<Address>, proof: Bytes,
                     inputs: PubInputs, now: nat)
    requires again.Construct?
    ensures
      var s := Run(verifier, EMPTY, [Construct(owner, vk), again]);
      var (t, r) := Apply(verifier, s, Publish(signers, proof, inputs, now));
      && Apply(verifier, s, again) == (s, Err(AlreadyInitialized))
      && (r.Ok? <==> && owner in signers && verifier(vk, proof, inputs)
                     && inputs.liabilitiesTotal <= inputs.reservesTotal == inputs.prevReserves)
      && (r.Ok? ==> r.value == 1 && t.proofs == map[1 := ProofMeta(inputs.rootHash, inputs.reservesTotal,
                                                                   inputs.liabilitiesTotal, now)])
  {
    var s := Apply(verifier, EMPTY, Construct(owner, vk)).0;
    assert [Construct(owner, vk), again][1..] == [again] && [again][1..] == [];
    assert Run(verifier, s, []) == s;
    assert Run(verifier, s, [again]) == s;
    assert Run(verifier, EMPTY, [Construct(owner, vk), again]) == s;
    assert s.proofs[1 := Meta(inputs, now)] == map[1 := Meta(inputs, now)];
  }

  /** A published bundle serves its customers for good: whatever is called later, every customer's
      serialized path is accepted under the id the publication returned. */
  lemma CustomersStayIncluded(verifier: Verifier, h: HashFunction, w: Prover.Witness, bundle: Prover.Bundle, s: Storage,
                              signers: set<Address>, proof: Bytes, now: nat, later: seq<Call>, i: nat)
    requires Consistent(s) && |w.leafIds| == |w.leafBalances| && Prover.PathsVerify(h, w, bundle) && i < |w.leafIds|
    ensures
      var inputs := PubInputs(bundle.reservesTotal, bundle.liabilitiesTotal, bundle.rootHash, bundle.prevReserves);
      var (t, r) := Apply(verifier, s, Publish(signers, proof, inputs, now));
      r.Ok? ==>
        InclusionVerdict(h, Run(verifier, t, later), r.value, w.leafIds[i], w.leafBalances[i], bundle.paths[i])
            == Ok(true)
  {
    var inputs := PubInputs(bundle.reservesTotal, bundle.liabilitiesTotal, bundle.rootHash, bundle.prevReserves);
    var (t, r) := Apply(verifier, s, Publish(signers, proof, inputs, now));
    if r.Ok? {
      StepKeeps(verifier, s, Publish(signers, proof, inputs, now));
      RunKeepsEntries(verifier, t, later);
    }
  }
}
