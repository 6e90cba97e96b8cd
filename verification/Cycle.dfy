/** The orchestrator's cycle as it runs: objects for Redis, Postgres and the chain, and Run as an ordered
    sequence of effects on them, shown to be a sequence of events of CycleProtocol on every path. */
module Cycle {
  import opened MerkleSumTree
  import opened ProofRegistry
  import opened CycleProtocol

  datatype Reserve = Reserve(sourceId: string, balance: Option<int>)

  /** The sum of the balances, or nothing when one is not an integer. */
  function SumOfReserves(reserves: seq<Reserve>, n: nat): Option<int>
    requires n <= |reserves|
  {
    if n == 0 then Some(0)
    else
      var rest, last := SumOfReserves(reserves, n - 1), reserves[n - 1].balance;
      if rest.None? || last.None? then None else Some(rest.value + last.value)
  }

  lemma {:induction false} NonIntegerStays(reserves: seq<Reserve>, m: nat, n: nat)
    requires m <= n <= |reserves| && SumOfReserves(reserves, m).None?
    ensures SumOfReserves(reserves, n).None?
  {
    if m < n {
      NonIntegerStays(reserves, m, n - 1);
    }
  }

  lemma SumIgnoresRest(a: seq<Reserve>, b: seq<Reserve>, n: nat)
    requires n <= |a|
    ensures SumOfReserves(a + b, n) == SumOfReserves(a, n)
  {
  }

  /** What fixes the sum: nothing adds up to 0, one reserve to its balance, and lists add up. */
  lemma {:induction false} SumConcat(a: seq<Reserve>, b: seq<Reserve>, r: Reserve)
    ensures SumOfReserves([], 0) == Some(0) && SumOfReserves([r], 1) == r.balance
    ensures
      var x, y := SumOfReserves(a, |a|), SumOfReserves(b, |b|);
      SumOfReserves(a + b, |a + b|) == if x.None? || y.None? then None else Some(x.value + y.value)
    decreases |b|
  {
    assert SumOfReserves([r], 0) == Some(0);
    SumIgnoresRest(a, b, |a|);
    if b == [] {
      assert a + b == a;
    } else {
      var front, last := b[..|b| - 1], b[|b| - 1];
      assert b == front + [last];
      assert a + b == a + front + [last];
      SumConcat(a, front, r);
      SumIgnoresRest(a + front, [last], |a + front|);
      SumIgnoresRest(front, [last], |front|);
    }
  }

  method SumReserves(reserves: seq<Reserve>) returns (total: Option<int>)
    ensures total == SumOfReserves(reserves, |reserves|)
    ensures total.Some? <==> forall i :: 0 <= i < |reserves| ==> reserves[i].balance.Some?
  {
    var sum := 0;
    for i := 0 to |reserves|
      invariant SumOfReserves(reserves, i) == Some(sum)
      invariant forall j :: 0 <= j < i ==> reserves[j].balance.Some?
    {
      if reserves[i].balance.None? {
        NonIntegerStays(reserves, i + 1, |reserves|);
        return None;
      }
      sum := sum + reserves[i].balance.value;
    }
    return Some(sum);
  }

  class RedisCache {
    var locks: map<Tenant, nat>
    var latest: map<Tenant, nat>

    method AcquireCycleLock(now: nat, tenant: Tenant) returns (locked: bool)
      modifies this`locks
      ensures locked <==> !(tenant in old(locks) && now < old(locks)[tenant])
      ensures locks == if locked then old(locks)[tenant := now + 900] else old(locks)
    {
      locked := !(tenant in locks && now < locks[tenant]);
      if locked {
        locks := locks[tenant := now + CYCLE_LOCK_TTL];
      }
    }

    method ReleaseCycleLock(tenant: Tenant)
      modifies this`locks
      ensures locks == old(locks) - {tenant}
    {
      locks := locks - {tenant};
    }

    method SetLatest(tenant: Tenant, proofId: nat)
      modifies this`latest
      ensures latest == old(latest)[tenant := proofId]
    {
      latest := latest[tenant := proofId];
    }
  }

  class Postgres {
    var claims: set<(Tenant, RequestKey)>
    var saved: map<Tenant, seq<U128>>

    method ClaimCycle(tenant: Tenant, key: RequestKey) returns (claimed: bool)
      modifies this`claims
      ensures claimed == ((tenant, key) !in old(claims))
      ensures claims == old(claims) + {(tenant, key)}
    {
      claimed := (tenant, key) !in claims;
      claims := claims + {(tenant, key)};
    }

    method LatestReservesTotal(tenant: Tenant) returns (total: U128)
      ensures total == LatestReserves(saved, tenant)
    {
      if tenant !in saved || |saved[tenant]| == 0 {
        return 0;
      }
      return saved[tenant][|saved[tenant]| - 1];
    }

    method SaveProof(tenant: Tenant, reservesTotal: U128)
      modifies this`saved
      ensures saved == old(saved)[tenant := History(old(saved), tenant) + [reservesTotal]]
    {
      saved := saved[tenant := (if tenant in saved then saved[tenant] else []) + [reservesTotal]];
    }
  }

  class StellarPublisher {
    const verifier: Verifier
    var chain: map<Tenant, Storage>

    constructor (v: Verifier)
      ensures verifier == v && chain == map[]
    {
      verifier := v;
      chain := map[];
    }

    /** One transaction: the registry call either commits or leaves no trace. */
    method PublishProof(tenant: Tenant, signers: set<Address>, proof: Bytes, inputs: PubInputs, now: nat)
        returns (r: Response<nat>)
      modifies this`chain
      ensures (RegistryOf(chain, tenant), r) == ProofRegistry.Apply(verifier, RegistryOf(old(chain), tenant),
                                                                    ProofRegistry.Publish(signers, proof, inputs, now))
      ensures chain == old(chain)[tenant := RegistryOf(chain, tenant)]
    {
      var (after, verdict) := ProofRegistry.Apply(verifier, RegistryOf(chain, tenant),
                                                  ProofRegistry.Publish(signers, proof, inputs, now));
      chain := chain[tenant := after];
      r := verdict;
    }
  }

  datatype PublishReply = NotSent | Lost | Delivered

  /** What the calls outside the model answer, and how long they take. */
  datatype Outside = Outside(
    lockReachable: bool,
    claimReachable: bool,
    reserves: Option<seq<Reserve>>,
    loaded: bool,
    proved: Option<(Bytes, U128, int)>,
    resolved: bool,
    signers: set<Address>,
    seconds: nat,
    reply: PublishReply,
    saved: bool,
    cached: bool,
    audited: bool,
    released: bool)

  datatype CycleOutcome = InProgress | Duplicate | Failed | Completed(chainProofId: nat)

  lemma {:induction false} ExecuteConcat(verifier: Verifier, s: State, trace: seq<Event>, more: seq<Event>)
    ensures Execute(verifier, s, trace + more) == Execute(verifier, Execute(verifier, s, trace), more)
    decreases trace
  {
    if trace == [] {
      assert trace + more == more;
    } else {
      assert (trace + more)[1..] == trace[1..] + more;
      ExecuteConcat(verifier, Step(verifier, s, trace[0]), trace[1..], more);
    }
  }

  // ----- what a cycle submits, and what comes of it

  /** The sum of the fetched reserves; none if they were not fetched or one is not an integer. */
  function TotalOf(outside: Outside): Option<int> {
    if outside.reserves.Some? then SumOfReserves(outside.reserves.value, |outside.reserves.value|) else None
  }

  /** Everything up to the publish transaction went well. */
  predicate Ready(outside: Outside) {
    && outside.loaded && TotalOf(outside).Some? && 0 <= TotalOf(outside).value <= U128_MAX
    && outside.proved.Some? && outside.resolved
  }

  /** The public inputs: the first cycle declares zero growth, every other the last saved total. */
  function InputsOf(saved: map<Tenant, seq<U128>>, tenant: Tenant, outside: Outside): PubInputs
    requires Ready(outside)
  {
    var total: U128 := TotalOf(outside).value;
    PubInputs(total, outside.proved.value.1, outside.proved.value.2, Baseline(LatestReserves(saved, tenant), total))
  }

  /** The registry's answer to the transaction. */
  function Answer(v: Verifier, chain: map<Tenant, Storage>, now: nat, tenant: Tenant, proof: Bytes, inputs: PubInputs,
                  outside: Outside): (Storage, Response<nat>)
  {
    ProofRegistry.Apply(v, RegistryOf(chain, tenant),
                        ProofRegistry.Publish(outside.signers, proof, inputs, now + outside.seconds))
  }

  /** The proof and its inputs in hand: the reply, if it is heard and positive, and the stores afterwards. */
  ghost predicate Sent(v: Verifier, s: State, t: State, now: nat, tenant: Tenant, key: RequestKey, proof: Bytes,
                       inputs: PubInputs, outside: Outside, r: Option<nat>) {
    var answer := Answer(v, s.chain, now, tenant, proof, inputs, outside);
    && t.claims == s.claims && t.saved == s.saved
    && t.chain == (if outside.reply.NotSent? then s.chain else s.chain[tenant := answer.0])
    && t.attempts == (if outside.reply.NotSent? then s.attempts else s.attempts + [(tenant, key)])
    && r == (if outside.reply.Delivered? && answer.1.Ok? then Some(answer.1.value) else None)
  }

  /** From a proof in hand to the end of the cycle. */
  ghost predicate Finished(v: Verifier, s: State, t: State, now: nat, tenant: Tenant, key: RequestKey, proof: Bytes,
                           inputs: PubInputs, outside: Outside, latest: map<Tenant, nat>,
                           latest': map<Tenant, nat>, outcome: CycleOutcome) {
    var answer := Answer(v, s.chain, now, tenant, proof, inputs, outside);
    var heard := outside.reply.Delivered? && answer.1.Ok?;
    && t.claims == s.claims
    && t.chain == (if outside.reply.NotSent? then s.chain else s.chain[tenant := answer.0])
    && t.attempts == (if outside.reply.NotSent? then s.attempts else s.attempts + [(tenant, key)])
    && t.saved == (if heard && outside.saved then s.saved[tenant := History(s.saved, tenant) + [inputs.reservesTotal]]
                   else s.saved)
    && latest' == (if heard && outside.saved && outside.cached then latest[tenant := answer.1.value] else latest)
    && outcome == (if heard && outside.saved && outside.cached && outside.audited then Completed(answer.1.value)
                   else Failed)
  }

  /** From a granted lock on. */
  ghost predicate Worked(v: Verifier, s: State, t: State, now: nat, tenant: Tenant, key: RequestKey, outside: Outside,
                         latest: map<Tenant, nat>, latest': map<Tenant, nat>, outcome: CycleOutcome) {
    var claimed := s.(claims := s.claims + {(tenant, key)});
    if !outside.claimReachable then
      t.claims == s.claims && Unpublished(s, t) && latest' == latest && outcome == Failed
    else if (tenant, key) in s.claims then
      t.claims == s.claims && Unpublished(s, t) && latest' == latest && outcome == Duplicate
    else if !Ready(outside) then
      t.claims == claimed.claims && Unpublished(s, t) && latest' == latest && outcome == Failed
    else
      Finished(v, claimed, t, now, tenant, key, outside.proved.value.0, InputsOf(s.saved, tenant, outside), outside,
               latest, latest', outcome)
  }

  /** When a cycle behind a granted lock completes: exactly when nothing on its way fails. */
  lemma CompletesIff(v: Verifier, s: State, t: State, now: nat, tenant: Tenant, key: RequestKey, outside: Outside,
                     latest: map<Tenant, nat>, latest': map<Tenant, nat>, outcome: CycleOutcome)
    requires Worked(v, s, t, now, tenant, key, outside, latest, latest', outcome)
    ensures outcome != InProgress
    ensures outcome == Duplicate <==> outside.claimReachable && (tenant, key) in s.claims
    ensures outcome.Completed? <==>
      && outside.claimReachable && (tenant, key) !in s.claims
      && outside.reserves.Some? && outside.loaded && outside.proved.Some? && outside.resolved
      && (var total := SumOfReserves(outside.reserves.value, |outside.reserves.value|);
          && total.Some? && 0 <= total.value <= U128_MAX
          && var last := LatestReserves(s.saved, tenant);
             var inputs := PubInputs(total.value, outside.proved.value.1, outside.proved.value.2,
                                     if last == 0 then total.value else last);
             ProofRegistry.Apply(v, RegistryOf(s.chain, tenant),
                                 ProofRegistry.Publish(outside.signers, outside.proved.value.0, inputs,
                                                       now + outside.seconds)).1.Ok?)
      && outside.reply.Delivered? && outside.saved && outside.cached && outside.audited
  {
  }

  /** What a completed cycle leaves behind. */
  lemma CompletedEffects(v: Verifier, s: State, t: State, now: nat, tenant: Tenant, key: RequestKey, outside: Outside,
                         latest: map<Tenant, nat>, latest': map<Tenant, nat>, outcome: CycleOutcome)
    requires Worked(v, s, t, now, tenant, key, outside, latest, latest', outcome) && outcome.Completed?
    ensures latest' == latest[tenant := outcome.chainProofId]
    ensures t.claims == s.claims + {(tenant, key)} && t.attempts == s.attempts + [(tenant, key)]
    ensures outside.reserves.Some? && SumOfReserves(outside.reserves.value, |outside.reserves.value|).Some?
    ensures History(t.saved, tenant)
         == History(s.saved, tenant) + [SumOfReserves(outside.reserves.value, |outside.reserves.value|).value]
    ensures outcome.chainProofId == Latest(RegistryOf(s.chain, tenant)) + 1 == Latest(RegistryOf(t.chain, tenant))
  {
  }

  ghost predicate Unpublished(s: State, t: State) {
    t.chain == s.chain && t.attempts == s.attempts && t.saved == s.saved
  }

  // ----- what the events of a cycle do

  lemma ClaimReplies(verifier: Verifier, s: State, id: RunId, t: State)
    requires id in s.runs && s.runs[id].stage.Locked?
    requires
      var r := s.runs[id];
      t == At(s.(claims := s.claims + {(r.tenant, r.key)}), id, r,
              if (r.tenant, r.key) in s.claims then Releasing else Claimed)
    ensures Execute(verifier, s, [Event.Claim(id)]) == t
  {
    var claim := (s.runs[id].tenant, s.runs[id].key);
    assert claim in s.claims ==> s.claims + {claim} == s.claims;
    ExecuteOne(verifier, s, Event.Claim(id), t);
  }

  lemma Failing(verifier: Verifier, s: State, id: RunId, t: State)
    requires id in s.runs && t == At(s, id, s.runs[id], Releasing)
    ensures Execute(verifier, s, [Fail(id)]) == t
  {
    ExecuteOne(verifier, s, Fail(id), t);
  }

  /** Reserves, the previous total and a proof, one after the other. */
  function Witnessing(id: RunId, proof: Bytes, inputs: PubInputs): seq<Event> {
    [Fetch(id, inputs.reservesTotal), LoadPrevious(id), Prove(id, proof, inputs.liabilitiesTotal, inputs.rootHash)]
  }

  lemma FetchLoads(verifier: Verifier, s: State, id: RunId, r: CycleRun, total: U128, fetched: State, loaded: State)
    requires id in s.runs && r == s.runs[id] && r.stage.Claimed?
    requires fetched == At(s, id, r, Fetched(total))
    requires loaded == At(s, id, r, Loaded(total, Baseline(LatestReserves(s.saved, r.tenant), total)))
    ensures Step(verifier, s, Fetch(id, total)) == fetched
    ensures Step(verifier, fetched, LoadPrevious(id)) == loaded
  {
    assert fetched.runs[id := r.(stage := loaded.runs[id].stage)] == loaded.runs;
  }

  lemma ProveProves(verifier: Verifier, s: State, id: RunId, r: CycleRun, proof: Bytes, inputs: PubInputs,
                    loaded: State, proved: State)
    requires id in s.runs && r == s.runs[id]
    requires loaded == At(s, id, r, Loaded(inputs.reservesTotal, inputs.prevReserves))
    requires proved == At(s, id, r, Proved(proof, inputs))
    ensures Step(verifier, loaded, Prove(id, proof, inputs.liabilitiesTotal, inputs.rootHash)) == proved
  {
    assert loaded.runs[id := r.(stage := Proved(proof, inputs))] == proved.runs;
  }

  lemma WitnessingProves(verifier: Verifier, s: State, id: RunId, r: CycleRun, proof: Bytes, inputs: PubInputs,
                         t: State)
    requires id in s.runs && r == s.runs[id] && r.stage.Claimed?
    requires inputs.prevReserves == Baseline(LatestReserves(s.saved, r.tenant), inputs.reservesTotal)
    requires t == At(s, id, r, Proved(proof, inputs))
    ensures Execute(verifier, s, Witnessing(id, proof, inputs)) == t
  {
    var total := inputs.reservesTotal;
    var fetched, loaded := At(s, id, r, Fetched(total)), At(s, id, r, Loaded(total, inputs.prevReserves));
    FetchLoads(verifier, s, id, r, total, fetched, loaded);
    ProveProves(verifier, s, id, r, proof, inputs, loaded, t);
    ExecuteThree(verifier, s, Fetch(id, total), LoadPrevious(id),
                 Prove(id, proof, inputs.liabilitiesTotal, inputs.rootHash), fetched, loaded, t);
  }

  lemma TickPasses(verifier: Verifier, s: State, seconds: nat, later: State)
    requires later == s.(now := s.now + seconds)
    ensures Step(verifier, s, Tick(seconds)) == later
  {
  }

  lemma AttemptHeard(verifier: Verifier, s: State, id: RunId, r: CycleRun, signers: set<Address>, t: State)
    requires id in s.runs && r == s.runs[id] && r.stage.Proved?
    requires t == At(Attempt(verifier, s, r, signers), id, r,
                     if Chained(verifier, s, r, signers).1.Ok? then Published(r.stage.inputs) else Releasing)
    ensures Step(verifier, s, Event.Publish(id, signers)) == t
  {
  }

  lemma AttemptUnheard(verifier: Verifier, s: State, id: RunId, r: CycleRun, signers: set<Address>, t: State)
    requires id in s.runs && r == s.runs[id] && r.stage.Proved?
    requires t == At(Attempt(verifier, s, r, signers), id, r, Releasing)
    ensures Step(verifier, s, PublishReplyLost(id, signers)) == t
  {
  }

  lemma Submitting(verifier: Verifier, s: State, id: RunId, r: CycleRun, seconds: nat, signers: set<Address>,
                   later: State, t: State)
    requires id in s.runs && r == s.runs[id] && r.stage.Proved? && later == s.(now := s.now + seconds)
    requires t == At(Attempt(verifier, later, r, signers), id, r,
                     if Chained(verifier, later, r, signers).1.Ok? then Published(r.stage.inputs) else Releasing)
    ensures Execute(verifier, s, [Tick(seconds), Event.Publish(id, signers)]) == t
  {
    TickPasses(verifier, s, seconds, later);
    AttemptHeard(verifier, later, id, r, signers, t);
    ExecuteTwo(verifier, s, Tick(seconds), Event.Publish(id, signers), later, t);
  }

  lemma SubmittingUnheard(verifier: Verifier, s: State, id: RunId, r: CycleRun, seconds: nat, signers: set<Address>,
                          later: State, t: State)
    requires id in s.runs && r == s.runs[id] && r.stage.Proved? && later == s.(now := s.now + seconds)
    requires t == At(Attempt(verifier, later, r, signers), id, r, Releasing)
    ensures Execute(verifier, s, [Tick(seconds), PublishReplyLost(id, signers)]) == t
  {
    TickPasses(verifier, s, seconds, later);
    AttemptUnheard(verifier, later, id, r, signers, t);
    ExecuteTwo(verifier, s, Tick(seconds), PublishReplyLost(id, signers), later, t);
  }

  lemma SavePersists(verifier: Verifier, s: State, id: RunId, r: CycleRun, t: State)
    requires id in s.runs && r == s.runs[id] && r.stage.Published?
    requires t == At(s.(saved := s.saved[r.tenant := History(s.saved, r.tenant) + [r.stage.saving.reservesTotal]]),
                     id, r, Releasing)
    ensures Step(verifier, s, Save(id)) == t
  {
  }

  lemma SavingCompletes(verifier: Verifier, s: State, id: RunId, r: CycleRun, t: State)
    requires id in s.runs && r == s.runs[id] && r.stage.Published?
    requires t == At(s.(saved := s.saved[r.tenant := History(s.saved, r.tenant) + [r.stage.saving.reservesTotal]]),
                     id, r, Releasing)
    ensures Execute(verifier, s, [Save(id)]) == t
  {
    SavePersists(verifier, s, id, r, t);
    ExecuteOne(verifier, s, Save(id), t);
  }

  lemma ReleaseEnds(verifier: Verifier, s: State, id: RunId, released: State, kept: State)
    requires id in s.runs && s.runs[id].stage.Releasing?
    requires released == Gone(s.(locks := s.locks - {s.runs[id].tenant}), id) && kept == Gone(s, id)
    ensures Step(verifier, s, Release(id)) == released
    ensures Step(verifier, s, ReleaseFails(id)) == kept
  {
  }

  lemma LettingGo(verifier: Verifier, s: State, id: RunId, released: State, kept: State)
    requires id in s.runs && s.runs[id].stage.Releasing?
    requires released == Gone(s.(locks := s.locks - {s.runs[id].tenant}), id) && kept == Gone(s, id)
    ensures Execute(verifier, s, [Release(id)]) == released
    ensures Execute(verifier, s, [ReleaseFails(id)]) == kept
  {
    ReleaseEnds(verifier, s, id, released, kept);
    ExecuteOne(verifier, s, Release(id), released);
    ExecuteOne(verifier, s, ReleaseFails(id), kept);
  }

  lemma Starting(verifier: Verifier, s: State, id: RunId, tenant: Tenant, key: RequestKey, t: State)
    requires id !in s.runs && !LockHeld(s.now, s.locks, tenant) && t == Started(s, id, tenant, key)
    ensures Execute(verifier, s, [Acquire(id, tenant, key)]) == t
  {
    ExecuteOne(verifier, s, Acquire(id, tenant, key), t);
  }

  class CycleRunner {
    const cache: RedisCache
    const proofs: Postgres
    const stellar: StellarPublisher

    constructor (c: RedisCache, p: Postgres, s: StellarPublisher)
      ensures cache == c && proofs == p && stellar == s
    {
      cache, proofs, stellar := c, p, s;
    }

    ghost predicate Stores(s: State)
      reads cache, proofs, stellar
    {
      s.locks == cache.locks && s.claims == proofs.claims && s.saved == proofs.saved && s.chain == stellar.chain
    }

    /** The durable claim; a run that cannot get it is releasing. */
    method Claim(now: nat, tenant: Tenant, key: RequestKey, outside: Outside, ghost id: RunId, ghost s: State)
      returns (claimed: bool, ghost trace: seq<Event>)
      requires Stores(s) && s.now == now && id in s.runs && s.runs[id] == CycleRun(tenant, key, now, Locked)
      modifies proofs`claims
      ensures
        var t := Execute(stellar.verifier, s, trace);
        && Stores(t)
        && t == s.(claims := if outside.claimReachable then s.claims + {(tenant, key)} else s.claims,
                   runs := s.runs[id := CycleRun(tenant, key, now, if claimed then Claimed else Releasing)])
      ensures outside.claimReachable ==> (claimed <==> (tenant, key) !in s.claims)
      ensures claimed ==> outside.claimReachable
    {
      if !outside.claimReachable {
        Failing(stellar.verifier, s, id, At(s, id, s.runs[id], Releasing));
        return false, [Fail(id)];
      }
      claimed := proofs.ClaimCycle(tenant, key);
      ghost var t := At(s.(claims := proofs.claims), id, s.runs[id], if claimed then Claimed else Releasing);
      ClaimReplies(stellar.verifier, s, id, t);
      trace := [Event.Claim(id)];
    }

    /** From the claim to a proof in hand: reserves, the previous total, the baseline, the proof. */
    method Witness(now: nat, tenant: Tenant, key: RequestKey, outside: Outside, ghost id: RunId, ghost s: State)
      returns (ready: bool, proof: Bytes, inputs: PubInputs, ghost trace: seq<Event>)
      requires Stores(s) && s.now == now && id in s.runs && s.runs[id] == CycleRun(tenant, key, now, Claimed)
      ensures
        var t := Execute(stellar.verifier, s, trace);
        && Stores(t)
        && t == s.(runs := s.runs[id := CycleRun(tenant, key, now, if ready then Proved(proof, inputs) else Releasing)])
      ensures ready <==> Ready(outside)
      ensures ready ==> proof == outside.proved.value.0 && inputs == InputsOf(s.saved, tenant, outside)
    {
      ready, proof, inputs := false, [], PubInputs(0, 0, 0, 0);
      var total := None;
      if outside.reserves.Some? && outside.loaded {
        total := SumReserves(outside.reserves.value);
      }
      if total.None? || !(0 <= total.value <= U128_MAX) || outside.proved.None? || !outside.resolved {
        Failing(stellar.verifier, s, id, At(s, id, s.runs[id], Releasing));
        trace := [Fail(id)];
        return;
      }
      var prev := proofs.LatestReservesTotal(tenant);
      if IsGenesisReserves(prev) {
        prev := total.value;
      }
      ready, proof := true, outside.proved.value.0;
      inputs := PubInputs(total.value, outside.proved.value.1, outside.proved.value.2, prev);
      ghost var r := s.runs[id];
      WitnessingProves(stellar.verifier, s, id, r, proof, inputs, At(s, id, r, Proved(proof, inputs)));
      trace := Witnessing(id, proof, inputs);
    }

    /** The publish transaction; afterwards the run is Published, or releasing if it was refused or the reply
        was lost. */
    method Submit(now: nat, tenant: Tenant, proof: Bytes, inputs: PubInputs, outside: Outside, ghost id: RunId,
                  ghost s: State)
      returns (r: Option<nat>, ghost trace: seq<Event>)
      requires Stores(s) && s.now == now && id in s.runs && s.runs[id].tenant == tenant
               && s.runs[id].stage == Proved(proof, inputs)
      modifies stellar`chain
      ensures
        var t := Execute(stellar.verifier, s, trace);
        && Stores(t)
        && t.runs == s.runs[id := s.runs[id].(stage := if r.Some? then Published(inputs) else Releasing)]
        && Sent(stellar.verifier, s, t, now, tenant, s.runs[id].key, proof, inputs, outside, r)
    {
      r := None;
      if outside.reply.NotSent? {
        Failing(stellar.verifier, s, id, At(s, id, s.runs[id], Releasing));
        trace := [Fail(id)];
        return;
      }
      ghost var run, later := s.runs[id], s.(now := s.now + outside.seconds);
      ghost var sent := Attempt(stellar.verifier, later, run, outside.signers);
      var published := stellar.PublishProof(tenant, outside.signers, proof, inputs, now + outside.seconds);
      if outside.reply.Lost? {
        SubmittingUnheard(stellar.verifier, s, id, run, outside.seconds, outside.signers, later,
                          At(sent, id, run, Releasing));
        trace := [Tick(outside.seconds), PublishReplyLost(id, outside.signers)];
        return;
      }
      ghost var t := At(sent, id, run, if published.Ok? then Published(inputs) else Releasing);
      Submitting(stellar.verifier, s, id, run, outside.seconds, outside.signers, later, t);
      trace := [Tick(outside.seconds), Event.Publish(id, outside.signers)];
      if published.Ok? {
        r := Some(published.value);
      }
    }

    /** Persist and cache; the run is releasing afterwards, whatever failed. */
    method Persist(tenant: Tenant, inputs: PubInputs, proofId: nat, outside: Outside, ghost id: RunId, ghost s: State)
      returns (done: bool, ghost trace: seq<Event>)
      requires Stores(s) && id in s.runs && s.runs[id].tenant == tenant && s.runs[id].stage == Published(inputs)
      modifies cache`latest, proofs`saved
      ensures
        var t := Execute(stellar.verifier, s, trace);
        && Stores(t)
        && t.runs == s.runs[id := s.runs[id].(stage := Releasing)]
        && t.attempts == s.attempts && t.chain == s.chain && t.claims == s.claims
        && t.saved == if outside.saved then s.saved[tenant := History(s.saved, tenant) + [inputs.reservesTotal]]
                      else s.saved
      ensures done <==> outside.saved && outside.cached && outside.audited
      ensures cache.latest == if outside.saved && outside.cached then old(cache.latest)[tenant := proofId]
                              else old(cache.latest)
    {
      done := false;
      if !outside.saved {
        Failing(stellar.verifier, s, id, At(s, id, s.runs[id], Releasing));
        trace := [Fail(id)];
        return;
      }
      proofs.SaveProof(tenant, inputs.reservesTotal);
      SavingCompletes(stellar.verifier, s, id, s.runs[id], At(s.(saved := proofs.saved), id, s.runs[id], Releasing));
      trace := [Save(id)];
      if outside.cached {
        cache.SetLatest(tenant, proofId);
        done := outside.audited;
      }
    }

    /** The proof in hand goes to the chain and, if accepted, to the database and the cache. */
    method Deliver(now: nat, tenant: Tenant, key: RequestKey, proof: Bytes, inputs: PubInputs, outside: Outside,
                   ghost id: RunId, ghost s: State)
      returns (outcome: CycleOutcome, ghost trace: seq<Event>)
      requires Stores(s) && s.now == now && id in s.runs
      requires s.runs[id] == CycleRun(tenant, key, now, Proved(proof, inputs))
      modifies cache`latest, proofs`saved, stellar`chain
      ensures
        var t := Execute(stellar.verifier, s, trace);
        && Stores(t)
        && t.runs == s.runs[id := CycleRun(tenant, key, now, Releasing)]
        && Finished(stellar.verifier, s, t, now, tenant, key, proof, inputs, outside, old(cache.latest), cache.latest,
                    outcome)
    {
      outcome := Failed;
      var published, submitted := Submit(now, tenant, proof, inputs, outside, id, s);
      trace := submitted;
      if published.None? {
        return;
      }
      ghost var t := Execute(stellar.verifier, s, trace);
      var done, persisted := Persist(tenant, inputs, published.value, outside, id, t);
      trace, t := Continue(stellar.verifier, s, trace, t, persisted);
      if done {
        outcome := Completed(published.value);
      }
    }

    /** Everything between the granted lock and its deferred release. */
    method Work(now: nat, tenant: Tenant, key: RequestKey, outside: Outside, ghost id: RunId, ghost s: State)
      returns (outcome: CycleOutcome, ghost trace: seq<Event>)
      requires Stores(s) && s.now == now && id in s.runs && s.runs[id] == CycleRun(tenant, key, now, Locked)
      modifies cache`latest, proofs, stellar`chain
      ensures
        var t := Execute(stellar.verifier, s, trace);
        && Stores(t)
        && t.runs == s.runs[id := CycleRun(tenant, key, now, Releasing)]
        && Worked(stellar.verifier, s, t, now, tenant, key, outside, old(cache.latest), cache.latest, outcome)
    {
      var v := stellar.verifier;
      outcome := Failed;
      var claimed, claiming := Claim(now, tenant, key, outside, id, s);
      trace := claiming;
      ghost var t := Execute(v, s, trace);
      if !claimed {
        if outside.claimReachable {
          outcome := Duplicate;
          assert s.claims + {(tenant, key)} == s.claims;
        }
        return;
      }
      var ready, proof, inputs, proving := Witness(now, tenant, key, outside, id, t);
      trace, t := Continue(v, s, trace, t, proving);
      if !ready {
        return;
      }
      ghost var delivering;
      outcome, delivering := Deliver(now, tenant, key, proof, inputs, outside, id, t);
      trace, t := Continue(v, s, trace, t, delivering);
    }

    method ReleaseDeferred(tenant: Tenant, outside: Outside, ghost id: RunId, ghost s: State)
        returns (ghost trace: seq<Event>)
      requires Stores(s) && id in s.runs && s.runs[id].tenant == tenant && s.runs[id].stage.Releasing?
      modifies cache`locks
      ensures
        var t := Execute(stellar.verifier, s, trace);
        && Stores(t)
        && t.runs == s.runs - {id} && Unpublished(s, t) && t.claims == s.claims
        && t.locks == if outside.released then s.locks - {tenant} else s.locks
    {
      LettingGo(stellar.verifier, s, id, Gone(s.(locks := s.locks - {tenant}), id), Gone(s, id));
      trace := [ReleaseFails(id)];
      if outside.released {
        cache.ReleaseCycleLock(tenant);
        trace := [Release(id)];
      }
    }

    /** A run that holds the lock, deferred release included. */
    method RunLocked(now: nat, tenant: Tenant, key: RequestKey, outside: Outside, ghost id: RunId, ghost s: State)
      returns (outcome: CycleOutcome, ghost trace: seq<Event>)
      requires id !in s.runs && s.now == now && Stores(Started(s, id, tenant, key))
      modifies cache, proofs, stellar`chain
      ensures
        var t := Execute(stellar.verifier, Started(s, id, tenant, key), trace);
        && Stores(t) && t.runs == s.runs
        && Worked(stellar.verifier, s, t, now, tenant, key, outside, old(cache.latest), cache.latest, outcome)
        && (outside.released ==> tenant !in t.locks)
    {
      ghost var begun := Started(s, id, tenant, key);
      outcome, trace := Work(now, tenant, key, outside, id, begun);
      ghost var t := Execute(stellar.verifier, begun, trace);
      ghost var release := ReleaseDeferred(tenant, outside, id, t);
      trace, t := Continue(stellar.verifier, begun, trace, t, release);
    }

    /** From the granted lock to its release, as events from before the grant. */
    method RunGranted(now: nat, tenant: Tenant, key: RequestKey, outside: Outside, ghost id: RunId, ghost s: State)
      returns (outcome: CycleOutcome, ghost trace: seq<Event>)
      requires id !in s.runs && s.now == now && !LockHeld(now, s.locks, tenant) && Stores(Started(s, id, tenant, key))
      modifies cache, proofs, stellar`chain
      ensures
        var t := Execute(stellar.verifier, s, trace);
        && Stores(t) && t.runs == s.runs
        && Worked(stellar.verifier, s, t, now, tenant, key, outside, old(cache.latest), cache.latest, outcome)
        && (outside.released ==> tenant !in t.locks)
    {
      ghost var begun, work := Started(s, id, tenant, key), [];
      Starting(stellar.verifier, s, id, tenant, key, begun);
      outcome, work := RunLocked(now, tenant, key, outside, id, s);
      trace, begun := Continue(stellar.verifier, s, [Acquire(id, tenant, key)], begun, work);
    }

    /** One cycle: whatever the outside answers, the stores move as some events of the protocol say, the
        run is gone at the end, and the lock goes with it unless its release failed.  The outcome is in
        progress exactly behind a held lock and duplicate exactly for a claimed key behind a granted one; the
        cycle completes exactly when nothing on its way fails. */
    method Run(now: nat, tenant: Tenant, key: RequestKey, outside: Outside, ghost id: RunId, ghost s: State)
      returns (outcome: CycleOutcome, ghost trace: seq<Event>)
      requires Stores(s) && s.now == now && id !in s.runs
      modifies cache, proofs, stellar`chain
      ensures Stores(Execute(stellar.verifier, s, trace)) && Execute(stellar.verifier, s, trace).runs == s.runs
      ensures outcome == InProgress <==> outside.lockReachable && LockHeld(now, s.locks, tenant)
      ensures outcome == Duplicate <==>
        outside.lockReachable && !LockHeld(now, s.locks, tenant) && outside.claimReachable && (tenant, key) in s.claims
      ensures outcome.Completed? <==>
        && outside.lockReachable && !LockHeld(now, s.locks, tenant)
        && outside.claimReachable && (tenant, key) !in s.claims
        && outside.reserves.Some? && outside.loaded && outside.proved.Some? && outside.resolved
        && (var total := SumOfReserves(outside.reserves.value, |outside.reserves.value|);
            && total.Some? && 0 <= total.value <= U128_MAX
            && var last := LatestReserves(s.saved, tenant);
               var inputs := PubInputs(total.value, outside.proved.value.1, outside.proved.value.2,
                                       if last == 0 then total.value else last);
               ProofRegistry.Apply(stellar.verifier, RegistryOf(s.chain, tenant),
                                   ProofRegistry.Publish(outside.signers, outside.proved.value.0, inputs,
                                                         now + outside.seconds)).1.Ok?)
        && outside.reply.Delivered? && outside.saved && outside.cached && outside.audited
      ensures outcome.Completed? ==>
        && cache.latest == old(cache.latest)[tenant := outcome.chainProofId]
        && proofs.claims == old(proofs.claims) + {(tenant, key)}
        && History(proofs.saved, tenant)
           == History(old(proofs.saved), tenant)
              + [SumOfReserves(outside.reserves.value, |outside.reserves.value|).value]
        && outcome.chainProofId == Latest(RegistryOf(s.chain, tenant)) + 1 == Latest(RegistryOf(stellar.chain, tenant))
        && Execute(stellar.verifier, s, trace).attempts == s.attempts + [(tenant, key)]
      ensures
        var t := Execute(stellar.verifier, s, trace);
        if outside.lockReachable && !LockHeld(now, s.locks, tenant) then
          && Worked(stellar.verifier, s, t, now, tenant, key, outside, old(cache.latest), cache.latest, outcome)
          && (outside.released ==> tenant !in t.locks)
        else t == s && cache.latest == old(cache.latest)
    {
      trace, outcome := [], Failed;
      if !outside.lockReachable {
        return;
      }
      var locked := cache.AcquireCycleLock(now, tenant);
      if !locked {
        return InProgress, [];
      }
      ghost var latest := cache.latest;
      outcome, trace := RunGranted(now, tenant, key, outside, id, s);
      ghost var t := Execute(stellar.verifier, s, trace);
      CompletesIff(stellar.verifier, s, t, now, tenant, key, outside, latest, cache.latest, outcome);
      if outcome.Completed? {
        CompletedEffects(stellar.verifier, s, t, now, tenant, key, outside, latest, cache.latest, outcome);
      }
    }

    ghost method Continue(v: Verifier, s: State, trace: seq<Event>, t: State, more: seq<Event>)
      returns (trace': seq<Event>, t': State)
      requires t == Execute(v, s, trace)
      ensures trace' == trace + more && t' == Execute(v, t, more) == Execute(v, s, trace')
    {
      ExecuteConcat(v, s, trace, more);
      trace', t' := trace + more, Execute(v, t, more);
    }
  }
}
