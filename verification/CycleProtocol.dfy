/** Proof cycles as a transition system: interleaved runs of any tenants, an expiring lock that is
    released unconditionally, a durable claim per request key, crashes and lost replies. */
module CycleProtocol {
  import opened MerkleSumTree
  import opened ProofRegistry

  type Tenant = int

  type RequestKey = int

  type RunId = nat

  /** Lock lifetime in seconds. */
  const CYCLE_LOCK_TTL: nat := 15 * 60

  /** How far a run has come; a run that returned or crashed is gone. */
  datatype Stage =
    | Locked
    | Claimed
    | Fetched(reserves: U128)
    | Loaded(reserves: U128, prev: U128)
    | Proved(proof: Bytes, inputs: PubInputs)
    | Published(saving: PubInputs)
    | Releasing

  datatype CycleRun = CycleRun(tenant: Tenant, key: RequestKey, acquiredAt: nat, stage: Stage)

  /** Redis (locks), Postgres (claims, saved totals in commit order) and one registry per tenant; runs and
      attempts record who is where and which claims reached PublishProof. */
  datatype State = State(
    now: nat,
    locks: map<Tenant, nat>,
    claims: set<(Tenant, RequestKey)>,
    saved: map<Tenant, seq<U128>>,
    chain: map<Tenant, Storage>,
    runs: map<RunId, CycleRun>,
    attempts: seq<(Tenant, RequestKey)>)

  datatype Event =
    | Tick(seconds: nat)
    | Acquire(id: RunId, tenant: Tenant, key: RequestKey)
    | AcquireReplyLost(tenant: Tenant)
    | Claim(id: RunId)
    | Fetch(id: RunId, total: U128)
    | LoadPrevious(id: RunId)
    | Prove(id: RunId, proof: Bytes, liabilities: U128, rootHash: int)
    | Publish(id: RunId, signers: set<Address>)
    | PublishReplyLost(id: RunId, signers: set<Address>)
    | Save(id: RunId)
    | Finish(id: RunId)
    | Fail(id: RunId)
    | Release(id: RunId)
    | ReleaseFails(id: RunId)
    | Crash(id: RunId)

  // ----- the shared stores

  /** SET NX with a TTL: a key past its expiry is as good as absent. */
  predicate LockHeld(now: nat, locks: map<Tenant, nat>, tenant: Tenant) {
    tenant in locks && now < locks[tenant]
  }

  function History(saved: map<Tenant, seq<U128>>, tenant: Tenant): seq<U128> {
    if tenant in saved then saved[tenant] else []
  }

  function RegistryOf(chain: map<Tenant, Storage>, tenant: Tenant): Storage {
    if tenant in chain then chain[tenant] else EMPTY
  }

  /** The most recent saved total, "0" when there is none. */
  function LatestReserves(saved: map<Tenant, seq<U128>>, tenant: Tenant): U128 {
    var h := History(saved, tenant);
    if h == [] then 0 else h[|h| - 1]
  }

  predicate IsGenesisReserves(prev: U128) {
    prev == 0
  }

  /** The baseline a run declares: the first cycle counts as zero growth. */
  function Baseline(latest: U128, reserves: U128): U128 {
    if IsGenesisReserves(latest) then reserves else latest
  }

  function Chained(verifier: Verifier, s: State, r: CycleRun, signers: set<Address>): (Storage, Response<nat>)
    requires r.stage.Proved?
  {
    ProofRegistry.Apply(verifier, RegistryOf(s.chain, r.tenant),
                        ProofRegistry.Publish(signers, r.stage.proof, r.stage.inputs, s.now))
  }

  // ----- steps

  function At(s: State, id: RunId, r: CycleRun, stage: Stage): State {
    s.(runs := s.runs[id := r.(stage := stage)])
  }

  function Gone(s: State, id: RunId): State {
    s.(runs := s.runs - {id})
  }

  function Attempt(verifier: Verifier, s: State, r: CycleRun, signers: set<Address>): State
    requires r.stage.Proved?
  {
    s.(chain := s.chain[r.tenant := Chained(verifier, s, r, signers).0], attempts := s.attempts + [(r.tenant, r.key)])
  }

  function RunStep(verifier: Verifier, s: State, id: RunId, r: CycleRun, e: Event): State {
    match e
    case Claim(_) =>
      if !r.stage.Locked? then s
      else if (r.tenant, r.key) in s.claims then At(s, id, r, Releasing)
      else At(s.(claims := s.claims + {(r.tenant, r.key)}), id, r, Claimed)
    case Fetch(_, total) =>
      if r.stage.Claimed? then At(s, id, r, Fetched(total)) else s
    case LoadPrevious(_) =>
      if r.stage.Fetched?
      then At(s, id, r, Loaded(r.stage.reserves, Baseline(LatestReserves(s.saved, r.tenant), r.stage.reserves)))
      else s
    case Prove(_, proof, liabilities, rootHash) =>
      if r.stage.Loaded?
      then At(s, id, r, Proved(proof, PubInputs(r.stage.reserves, liabilities, rootHash, r.stage.prev)))
      else s
    case Publish(_, signers) =>
      if !r.stage.Proved? then s
      else At(Attempt(verifier, s, r, signers), id, r,
              if Chained(verifier, s, r, signers).1.Ok? then Published(r.stage.inputs) else Releasing)
    case PublishReplyLost(_, signers) =>
      if r.stage.Proved? then At(Attempt(verifier, s, r, signers), id, r, Releasing) else s
    case Save(_) =>
      if r.stage.Published?
      then At(s.(saved := s.saved[r.tenant := History(s.saved, r.tenant) + [r.stage.saving.reservesTotal]]), id, r,
              Releasing)
      else s
    case Fail(_) => At(s, id, r, Releasing)
    case Release(_) =>
      if r.stage.Releasing? then Gone(s.(locks := s.locks - {r.tenant}), id) else s
    case ReleaseFails(_) =>
      if r.stage.Releasing? then Gone(s, id) else s
    case Crash(_) => Gone(s, id)
    case _ => s
  }

  function Started(s: State, id: RunId, tenant: Tenant, key: RequestKey): State {
    s.(locks := s.locks[tenant := s.now + CYCLE_LOCK_TTL], runs := s.runs[id := CycleRun(tenant, key, s.now, Locked)])
  }

  /** An event that is not possible in a state leaves it unchanged. */
  function Step(verifier: Verifier, s: State, e: Event): State {
    match e
    case Tick(seconds) => s.(now := s.now + seconds)
    case Acquire(id, tenant, key) =>
      if id in s.runs || LockHeld(s.now, s.locks, tenant) then s
      else Started(s, id, tenant, key)
    case AcquireReplyLost(tenant) =>
      if LockHeld(s.now, s.locks, tenant) then s else s.(locks := s.locks[tenant := s.now + CYCLE_LOCK_TTL])
    case _ =>
      if e.id in s.runs then RunStep(verifier, s, e.id, s.runs[e.id], e) else s
  }

  function Execute(verifier: Verifier, s: State, events: seq<Event>): State
    decreases events
  {
    if |events| == 0 then s else Execute(verifier, Step(verifier, s, events[0]), events[1..])
  }

  lemma ExecuteOne(verifier: Verifier, s: State, e: Event, t: State)
    requires t == Step(verifier, s, e)
    ensures Execute(verifier, s, [e]) == t
  {
    assert [e][1..] == [];
    assert Execute(verifier, t, []) == t;
  }

  lemma ExecuteTwo(verifier: Verifier, s: State, e: Event, f: Event, t: State, u: State)
    requires t == Step(verifier, s, e) && u == Step(verifier, t, f)
    ensures Execute(verifier, s, [e, f]) == u
  {
    assert [e, f][1..] == [f];
    ExecuteOne(verifier, t, f, u);
  }

  lemma ExecuteThree(verifier: Verifier, s: State, e: Event, f: Event, g: Event, t: State, u: State, v: State)
    requires t == Step(verifier, s, e) && u == Step(verifier, t, f) && v == Step(verifier, u, g)
    ensures Execute(verifier, s, [e, f, g]) == v
  {
    assert [e, f, g][1..] == [f, g];
    ExecuteTwo(verifier, t, f, g, u, v);
  }

  /** What faults leave behind: a crash every store as it was, the lock included; a lost reply to SET NX a lock
      that no run holds, until it expires. */
  lemma FaultsLeave(verifier: Verifier, s: State, id: RunId, tenant: Tenant)
    ensures Step(verifier, s, Crash(id)) == s.(runs := s.runs - {id})
    ensures Step(verifier, s, AcquireReplyLost(tenant))
         == if tenant in s.locks && s.now < s.locks[tenant] then s
            else s.(locks := s.locks[tenant := s.now + 900])
  {
    assert id !in s.runs ==> s.runs - {id} == s.runs;
  }

  /** Release deletes the lock whoever set it; a failed release keeps it. */
  lemma ReleaseLeaves(verifier: Verifier, s: State, id: RunId)
    requires id in s.runs && s.runs[id].stage.Releasing?
    ensures Step(verifier, s, ReleaseFails(id)) == s.(runs := s.runs - {id})
    ensures Step(verifier, s, Release(id)) == s.(locks := s.locks - {s.runs[id].tenant}, runs := s.runs - {id})
  {
  }

  /** A lost reply to the transaction leaves what the transaction did, unsaved. */
  lemma LostReplyLeaves(verifier: Verifier, s: State, id: RunId, signers: set<Address>)
    requires id in s.runs && s.runs[id].stage.Proved?
    ensures
      var t, lost := Step(verifier, s, Event.Publish(id, signers)), Step(verifier, s, PublishReplyLost(id, signers));
      lost == t.(runs := s.runs[id := s.runs[id].(stage := Releasing)]) && lost.saved == s.saved
  {
  }

  /** No runs yet; the registries may already be initialized. */
  ghost predicate Initial(s: State) {
    && s.locks == map[] && s.claims == {} && s.saved == map[] && s.runs == map[] && s.attempts == []
    && forall t :: t in s.chain ==> Consistent(s.chain[t]) && Latest(s.chain[t]) == 0
  }

  // ----- at most one publish per request key

  predicate HasClaim(stage: Stage) {
    !stage.Locked? && !stage.Releasing?
  }

  predicate MayPublish(stage: Stage) {
    HasClaim(stage) && !stage.Published?
  }

  ghost predicate ClaimHeld(s: State, id: RunId)
    requires id in s.runs
  {
    var r := s.runs[id];
    && (HasClaim(r.stage) ==> (r.tenant, r.key) in s.claims)
    && (MayPublish(r.stage) ==> (r.tenant, r.key) !in s.attempts)
  }

  ghost predicate ClaimsApart(s: State, i: RunId, j: RunId)
    requires i in s.runs && j in s.runs
  {
    HasClaim(s.runs[i].stage) && HasClaim(s.runs[j].stage) && i != j
    ==> (s.runs[i].tenant, s.runs[i].key) != (s.runs[j].tenant, s.runs[j].key)
  }

  ghost predicate ClaimInvariant(s: State) {
    && (forall id :: id in s.runs ==> ClaimHeld(s, id))
    && (forall i, j :: i in s.runs && j in s.runs ==> ClaimsApart(s, i, j))
    && (forall a :: a in s.attempts ==> a in s.claims)
    && (forall i, j :: 0 <= i < j < |s.attempts| ==> s.attempts[i] != s.attempts[j])
  }

  predicate IsAttempt(e: Event) {
    e.Publish? || e.PublishReplyLost?
  }

  predicate SameKey(r: CycleRun, r': CycleRun) {
    r.tenant == r'.tenant && r.key == r'.key
  }

  /** A run with a claim had it before, or has just made it as the first to do so. */
  lemma ClaimOrigin(verifier: Verifier, s: State, e: Event, id: RunId)
    requires id in Step(verifier, s, e).runs && HasClaim(Step(verifier, s, e).runs[id].stage)
    ensures id in s.runs && SameKey(s.runs[id], Step(verifier, s, e).runs[id])
    ensures
      var r, r' := s.runs[id], Step(verifier, s, e).runs[id];
      || (HasClaim(r.stage) && (MayPublish(r'.stage) ==> MayPublish(r.stage)))
      || (e == Claim(id) && (r.tenant, r.key) !in s.claims && (r.tenant, r.key) in Step(verifier, s, e).claims)
  {
  }

  lemma ClaimsGrow(verifier: Verifier, s: State, e: Event)
    ensures s.claims <= Step(verifier, s, e).claims
    ensures !IsAttempt(e) ==> Step(verifier, s, e).attempts == s.attempts
  {
  }

  lemma ClaimHeldAttempt(verifier: Verifier, s: State, e: Event, id: RunId)
    requires ClaimInvariant(s) && IsAttempt(e) && id in Step(verifier, s, e).runs
    ensures ClaimHeld(Step(verifier, s, e), id)
  {
    assert id in s.runs && ClaimHeld(s, id);
    if e.id in s.runs {
      assert ClaimHeld(s, e.id) && ClaimsApart(s, id, e.id);
    }
  }

  lemma ClaimHeldOtherwise(verifier: Verifier, s: State, e: Event, id: RunId, t: State)
    requires t == Step(verifier, s, e)
    requires ClaimInvariant(s) && !IsAttempt(e) && id in t.runs && HasClaim(t.runs[id].stage)
    ensures ClaimHeld(t, id)
  {
    ClaimOrigin(verifier, s, e, id);
    ClaimsGrow(verifier, s, e);
    assert ClaimHeld(s, id);
  }

  lemma ClaimHeldStep(verifier: Verifier, s: State, e: Event, id: RunId)
    requires ClaimInvariant(s) && id in Step(verifier, s, e).runs
    ensures ClaimHeld(Step(verifier, s, e), id)
  {
    var t := Step(verifier, s, e);
    if HasClaim(t.runs[id].stage) {
      if IsAttempt(e) {
        ClaimHeldAttempt(verifier, s, e, id);
      } else {
        ClaimHeldOtherwise(verifier, s, e, id, t);
      }
    }
  }

  lemma ClaimsApartStep(verifier: Verifier, s: State, e: Event, i: RunId, j: RunId, t: State)
    requires t == Step(verifier, s, e)
    requires ClaimInvariant(s) && i in t.runs && j in t.runs
    ensures ClaimsApart(t, i, j)
  {
    if HasClaim(t.runs[i].stage) && HasClaim(t.runs[j].stage) {
      ClaimOrigin(verifier, s, e, i);
      ClaimOrigin(verifier, s, e, j);
      assert ClaimHeld(s, i) && ClaimHeld(s, j) && ClaimsApart(s, i, j);
    }
  }

  /** Only the publishing run's claim joins the attempts, and it was not among them. */
  lemma AttemptsStep(verifier: Verifier, s: State, e: Event)
    requires ClaimInvariant(s)
    ensures
      var t := Step(verifier, s, e);
      && s.claims <= t.claims
      && (|| t.attempts == s.attempts
          || exists id :: id in s.runs && MayPublish(s.runs[id].stage)
              && t.attempts == s.attempts + [(s.runs[id].tenant, s.runs[id].key)])
  {
  }

  lemma ClaimStep(verifier: Verifier, s: State, e: Event)
    requires ClaimInvariant(s)
    ensures ClaimInvariant(Step(verifier, s, e))
  {
    var t := Step(verifier, s, e);
    forall id | id in t.runs ensures ClaimHeld(t, id) {
      ClaimHeldStep(verifier, s, e, id);
    }
    forall i, j | i in t.runs && j in t.runs ensures ClaimsApart(t, i, j) {
      ClaimsApartStep(verifier, s, e, i, j, t);
    }
    AttemptsStep(verifier, s, e);
    if t.attempts != s.attempts {
      var id :| id in s.runs && MayPublish(s.runs[id].stage)
          && t.attempts == s.attempts + [(s.runs[id].tenant, s.runs[id].key)];
      assert ClaimHeld(s, id);
    }
  }

  lemma {:induction false} ClaimRun(verifier: Verifier, s: State, events: seq<Event>)
    requires ClaimInvariant(s)
    ensures ClaimInvariant(Execute(verifier, s, events))
    decreases events
  {
    if events != [] {
      ClaimStep(verifier, s, events[0]);
      ClaimRun(verifier, Step(verifier, s, events[0]), events[1..]);
    }
  }

  /** In every interleaving, however long runs take and whatever crashes: a request key reaches
      PublishProof at most once. */
  lemma AtMostOnePublishPerKey(verifier: Verifier, s: State, events: seq<Event>)
    requires Initial(s)
    ensures
      var attempts := Execute(verifier, s, events).attempts;
      forall i, j :: 0 <= i < j < |attempts| ==> attempts[i] != attempts[j]
  {
    ClaimRun(verifier, s, events);
  }

  // ----- mutual exclusion, and exactly when it fails

  predicate Outlived(s: State, id: RunId)
    requires id in s.runs
  {
    s.now >= s.runs[id].acquiredAt + CYCLE_LOCK_TTL
  }

  ghost predicate Timely(s: State) {
    forall id :: id in s.runs ==> !Outlived(s, id)
  }

  /** The tenant's lock lasts at least as long as the run's own would. */
  ghost predicate LockCovers(s: State, id: RunId)
    requires id in s.runs
  {
    s.runs[id].tenant in s.locks && s.locks[s.runs[id].tenant] >= s.runs[id].acquiredAt + CYCLE_LOCK_TTL
  }

  /** The tenant's lock is the run's own. */
  ghost predicate LockOwned(s: State, id: RunId)
    requires id in s.runs
  {
    s.runs[id].tenant in s.locks && s.locks[s.runs[id].tenant] == s.runs[id].acquiredAt + CYCLE_LOCK_TTL
  }

  /** No two runs of one tenant. */
  ghost predicate Serial(s: State) {
    forall i, j :: i in s.runs && j in s.runs && s.runs[i].tenant == s.runs[j].tenant ==> i == j
  }

  ghost predicate Exclusive(s: State) {
    Serial(s) && forall id :: id in s.runs ==> LockCovers(s, id)
  }

  ghost predicate OutlivedRunOf(s: State, tenant: Tenant) {
    exists o :: o in s.runs && s.runs[o].tenant == tenant && Outlived(s, o)
  }

  /** A new run asks for the lock of a tenant whose run has outlived its own, and nobody renewed the key. */
  ghost predicate StartsBeside(s: State, e: Event) {
    e.Acquire? && e.id !in s.runs && !LockHeld(s.now, s.locks, e.tenant) && OutlivedRunOf(s, e.tenant)
  }

  /** A run keeps its tenant and start; a new one was granted a lock that nobody held. */
  lemma RunOrigin(verifier: Verifier, s: State, e: Event, id: RunId)
    requires id in Step(verifier, s, e).runs
    ensures
      var r := Step(verifier, s, e).runs[id];
      || (id in s.runs && r.tenant == s.runs[id].tenant && r.acquiredAt == s.runs[id].acquiredAt)
      || (&& id !in s.runs && e == Acquire(id, r.tenant, r.key) && r.acquiredAt == s.now
          && !LockHeld(s.now, s.locks, r.tenant))
  {
  }

  lemma CoveredStep(verifier: Verifier, s: State, e: Event, id: RunId)
    requires Exclusive(s) && id in Step(verifier, s, e).runs
    ensures LockCovers(Step(verifier, s, e), id)
  {
    RunOrigin(verifier, s, e, id);
    assert id in s.runs ==> LockCovers(s, id);
  }

  lemma SerialStep(verifier: Verifier, s: State, e: Event)
    requires Exclusive(s) && !StartsBeside(s, e)
    ensures Serial(Step(verifier, s, e))
  {
    var t := Step(verifier, s, e);
    forall i, j | i in t.runs && j in t.runs && t.runs[i].tenant == t.runs[j].tenant ensures i == j {
      RunOrigin(verifier, s, e, i);
      RunOrigin(verifier, s, e, j);
      assert i in s.runs ==> LockCovers(s, i);
      assert j in s.runs ==> LockCovers(s, j);
    }
  }

  lemma BesideBreaks(verifier: Verifier, s: State, e: Event)
    requires StartsBeside(s, e)
    ensures !Serial(Step(verifier, s, e))
  {
    var t := Step(verifier, s, e);
    var o :| o in s.runs && s.runs[o].tenant == e.tenant && Outlived(s, o);
    assert o in t.runs && e.id in t.runs && t.runs[o].tenant == t.runs[e.id].tenant;
  }

  /** One step from an exclusive state breaks exclusion if and only if it starts beside an outlived run. */
  lemma ExclusiveStepIff(verifier: Verifier, s: State, e: Event)
    requires Exclusive(s)
    ensures Serial(Step(verifier, s, e)) <==> !StartsBeside(s, e)
    ensures !StartsBeside(s, e) ==> Exclusive(Step(verifier, s, e))
  {
    var t := Step(verifier, s, e);
    if StartsBeside(s, e) {
      BesideBreaks(verifier, s, e);
    } else {
      SerialStep(verifier, s, e);
      forall id | id in t.runs ensures LockCovers(t, id) {
        CoveredStep(verifier, s, e, id);
      }
    }
  }

  /** While every run's lock is its own, it does so if and only if a fresh run asks for the lock of a tenant
      whose run has outlived it. */
  lemma OwnedStepIff(verifier: Verifier, s: State, e: Event)
    requires Serial(s) && forall id :: id in s.runs ==> LockOwned(s, id)
    ensures Serial(Step(verifier, s, e)) <==> !(e.Acquire? && e.id !in s.runs && OutlivedRunOf(s, e.tenant))
  {
    assert forall id :: id in s.runs ==> LockCovers(s, id) by {
      forall id | id in s.runs ensures LockCovers(s, id) {
        assert LockOwned(s, id);
      }
    }
    ExclusiveStepIff(verifier, s, e);
    if e.Acquire? && OutlivedRunOf(s, e.tenant) {
      var o :| o in s.runs && s.runs[o].tenant == e.tenant && Outlived(s, o);
      assert LockOwned(s, o);
    }
  }

  /** Every state passed through has at most one run per tenant. */
  ghost predicate SerialThroughout(verifier: Verifier, s: State, events: seq<Event>)
    decreases events
  {
    Serial(s) && (events != [] ==> SerialThroughout(verifier, Step(verifier, s, events[0]), events[1..]))
  }

  ghost predicate NeverBeside(verifier: Verifier, s: State, events: seq<Event>)
    decreases events
  {
    events != [] ==> !StartsBeside(s, events[0]) && NeverBeside(verifier, Step(verifier, s, events[0]), events[1..])
  }

  lemma {:induction false} ExclusionIff(verifier: Verifier, s: State, events: seq<Event>)
    requires Exclusive(s)
    ensures SerialThroughout(verifier, s, events) <==> NeverBeside(verifier, s, events)
    decreases events
  {
    if events != [] {
      ExclusiveStepIff(verifier, s, events[0]);
      if !StartsBeside(s, events[0]) {
        ExclusionIff(verifier, Step(verifier, s, events[0]), events[1..]);
      } else {
        NotSerialAtOnce(verifier, Step(verifier, s, events[0]), events[1..]);
      }
    }
  }

  lemma NotSerialAtOnce(verifier: Verifier, s: State, events: seq<Event>)
    requires !Serial(s)
    ensures !SerialThroughout(verifier, s, events)
  {
  }

  /** Over whole executions, from no runs at all: the runs of every tenant stay serialised if and only if no
      run ever starts beside one that has outlived its lock. */
  lemma RunsAreSerialisedIff(verifier: Verifier, s: State, events: seq<Event>)
    requires Initial(s)
    ensures SerialThroughout(verifier, s, events) <==> NeverBeside(verifier, s, events)
  {
    ExclusionIff(verifier, s, events);
  }

  lemma ExclusiveStep(verifier: Verifier, s: State, e: Event)
    requires Exclusive(s) && Timely(s)
    ensures Exclusive(Step(verifier, s, e))
  {
    ExclusiveStepIff(verifier, s, e);
  }

  /** Every state passed through is timely. */
  ghost predicate TimelyThroughout(verifier: Verifier, s: State, events: seq<Event>)
    decreases events
  {
    Timely(s) && (events != [] ==> TimelyThroughout(verifier, Step(verifier, s, events[0]), events[1..]))
  }

  lemma {:induction false} TimelyNeverBeside(verifier: Verifier, s: State, events: seq<Event>)
    requires TimelyThroughout(verifier, s, events)
    ensures NeverBeside(verifier, s, events)
    decreases events
  {
    if events != [] {
      TimelyNeverBeside(verifier, Step(verifier, s, events[0]), events[1..]);
    }
  }

  /** So they are while no run outlives the lock. */
  lemma RunsAreSerialised(verifier: Verifier, s: State, events: seq<Event>)
    requires Initial(s) && TimelyThroughout(verifier, s, events)
    ensures SerialThroughout(verifier, s, events)
  {
    TimelyNeverBeside(verifier, s, events);
    RunsAreSerialisedIff(verifier, s, events);
  }

  lemma SecondStarts(verifier: Verifier, s: State, tenant: Tenant, a: RequestKey, b: RequestKey, first: State,
                     later: State, two: State)
    requires Initial(s) && first == Started(s, 0, tenant, a) && later == first.(now := s.now + CYCLE_LOCK_TTL)
    requires two == Started(later, 1, tenant, b)
    ensures Execute(verifier, s, [Acquire(0, tenant, a), Tick(CYCLE_LOCK_TTL), Acquire(1, tenant, b)]) == two
  {
    ExecuteThree(verifier, s, Acquire(0, tenant, a), Tick(CYCLE_LOCK_TTL), Acquire(1, tenant, b), first, later, two);
  }

  lemma ThirdStarts(verifier: Verifier, s: State, tenant: Tenant, c: RequestKey, failed: State, released: State,
                    three: State)
    requires 0 in s.runs && 2 !in s.runs && s.runs[0].tenant == tenant
    requires failed == At(s, 0, s.runs[0], Releasing) && released == Gone(failed.(locks := s.locks - {tenant}), 0)
    requires three == Started(released, 2, tenant, c)
    ensures Execute(verifier, s, [Fail(0), Release(0), Acquire(2, tenant, c)]) == three
  {
    ExecuteThree(verifier, s, Fail(0), Release(0), Acquire(2, tenant, c), failed, released, three);
  }

  /** A run that outlives the lock breaks exclusion twice over: the next run starts beside it, and its own
      release then deletes that run's lock, so that a third starts beside the second, which is on time. */
  lemma OutlivingTheLockBreaksExclusion(verifier: Verifier, s: State, tenant: Tenant, a: RequestKey, b: RequestKey,
                                        c: RequestKey)
    requires Initial(s)
    ensures
      var two := Execute(verifier, s, [Acquire(0, tenant, a), Tick(CYCLE_LOCK_TTL), Acquire(1, tenant, b)]);
      var three := Execute(verifier, two, [Fail(0), Release(0), Acquire(2, tenant, c)]);
      && 0 in two.runs && 1 in two.runs && two.runs[0].tenant == two.runs[1].tenant == tenant
      && 1 in three.runs && 2 in three.runs && three.runs[1].tenant == three.runs[2].tenant == tenant
      && Timely(three)
  {
    var first := Started(s, 0, tenant, a);
    var later := first.(now := s.now + CYCLE_LOCK_TTL);
    var two := Started(later, 1, tenant, b);
    SecondStarts(verifier, s, tenant, a, b, first, later, two);
    var failed := At(two, 0, two.runs[0], Releasing);
    var released := Gone(failed.(locks := two.locks - {tenant}), 0);
    ThirdStarts(verifier, two, tenant, c, failed, released, Started(released, 2, tenant, c));
  }

  // ----- the database follows the chain

  /** The registry's totals are exactly the given ones, in order. */
  ghost predicate Matches(c: Storage, totals: seq<U128>) {
    && Consistent(c)
    && Latest(c) == |totals|
    && forall i :: 0 <= i < |totals| ==> c.proofs[i + 1].r == totals[i]
  }

  /** The declared baseline is accepted, unless a saved total of zero passes for "no proof yet". */
  lemma BaselineAcceptedIff(c: Storage, totals: seq<U128>, reserves: U128)
    requires Matches(c, totals)
    ensures
      var latest := if totals == [] then 0 else totals[|totals| - 1];
      var previous := if Latest(c) == 0 then 0 else c.proofs[Latest(c)].r;
      EnforceGrowthBaseline(Latest(c), previous, Baseline(latest, reserves), reserves).Ok?
      <==> totals == [] || latest != 0 || reserves == 0
  {
  }

  ghost predicate StageInSync(s: State, id: RunId)
    requires id in s.runs
  {
    var r := s.runs[id];
    var latest := LatestReserves(s.saved, r.tenant);
    match r.stage
    case Fetched(reserves) => reserves > 0
    case Loaded(reserves, prev) => reserves > 0 && prev == Baseline(latest, reserves)
    case Proved(_, inputs) => inputs.reservesTotal > 0 && inputs.prevReserves == Baseline(latest, inputs.reservesTotal)
    case Published(saving) =>
      saving.reservesTotal > 0
      && Matches(RegistryOf(s.chain, r.tenant), History(s.saved, r.tenant) + [saving.reservesTotal])
    case _ => true
  }

  ghost predicate Saving(s: State, tenant: Tenant) {
    exists id :: id in s.runs && s.runs[id].tenant == tenant && s.runs[id].stage.Published?
  }

  ghost predicate TenantInSync(s: State, tenant: Tenant) {
    && (!Saving(s, tenant) ==> Matches(RegistryOf(s.chain, tenant), History(s.saved, tenant)))
    && (forall i :: 0 <= i < |History(s.saved, tenant)| ==> History(s.saved, tenant)[i] > 0)
  }

  ghost predicate InSync(s: State) {
    && (forall id :: id in s.runs ==> StageInSync(s, id))
    && (forall tenant: Tenant :: TenantInSync(s, tenant))
  }

  /** Every publish is also saved, and reserve totals are positive. */
  ghost predicate Reliable(s: State, e: Event) {
    && !e.PublishReplyLost?
    && (e.Fail? || e.Crash? ==> e.id in s.runs ==> !s.runs[e.id].stage.Published?)
    && (e.Fetch? ==> e.total > 0)
  }

  lemma MatchesNext(verifier: Verifier, c: Storage, totals: seq<U128>, signers: set<Address>, proof: Bytes,
                    inputs: PubInputs, now: nat)
    requires Matches(c, totals)
    ensures
      var (d, r) := ProofRegistry.Apply(verifier, c, ProofRegistry.Publish(signers, proof, inputs, now));
      if r.Ok? then Matches(d, totals + [inputs.reservesTotal]) else d == c
  {
    StepKeeps(verifier, c, ProofRegistry.Publish(signers, proof, inputs, now));
  }

  lemma TenantStep(verifier: Verifier, s: State, e: Event, tenant: Tenant)
    requires InSync(s) && Exclusive(s) && Reliable(s, e)
    ensures TenantInSync(Step(verifier, s, e), tenant)
  {
    assert TenantInSync(s, tenant);
    if MovesRun(s, e) && e.Publish? && s.runs[e.id].stage.Proved? && s.runs[e.id].tenant == tenant {
      assert !Saving(s, tenant);
      PublishingTenant(verifier, s, e, tenant);
    } else if MovesRun(s, e) && e.Save? && s.runs[e.id].stage.Published? && s.runs[e.id].tenant == tenant {
      assert StageInSync(s, e.id);
    } else {
      UntouchedTenant(verifier, s, e, tenant);
    }
  }

  lemma PublishingTenant(verifier: Verifier, s: State, e: Event, tenant: Tenant)
    requires e.Publish? && e.id in s.runs && s.runs[e.id].stage.Proved? && s.runs[e.id].tenant == tenant
    requires TenantInSync(s, tenant) && !Saving(s, tenant)
    ensures TenantInSync(Step(verifier, s, e), tenant)
  {
    var r, t := s.runs[e.id], Step(verifier, s, e);
    MatchesNext(verifier, RegistryOf(s.chain, tenant), History(s.saved, tenant), e.signers, r.stage.proof,
                r.stage.inputs, s.now);
    if Chained(verifier, s, r, e.signers).1.Ok? {
      assert t.runs[e.id].stage.Published?;
      assert Saving(t, tenant);
    }
  }

  /** Any other event leaves the tenant's totals and registry alone, and does not end a wait for a save. */
  lemma UntouchedTenant(verifier: Verifier, s: State, e: Event, tenant: Tenant)
    requires TenantInSync(s, tenant) && Reliable(s, e)
    requires !(MovesRun(s, e) && e.Publish? && s.runs[e.id].stage.Proved? && s.runs[e.id].tenant == tenant)
    requires !(MovesRun(s, e) && e.Save? && s.runs[e.id].stage.Published? && s.runs[e.id].tenant == tenant)
    ensures TenantInSync(Step(verifier, s, e), tenant)
  {
    var t := Step(verifier, s, e);
    assert History(t.saved, tenant) == History(s.saved, tenant)
           && RegistryOf(t.chain, tenant) == RegistryOf(s.chain, tenant);
    if Saving(s, tenant) {
      StillSaving(verifier, s, e, tenant);
    }
  }

  predicate MovesRun(s: State, e: Event) {
    !e.Tick? && !e.Acquire? && !e.AcquireReplyLost? && e.id in s.runs
  }

  /** Only Save ends the wait for a save. */
  lemma StillSaving(verifier: Verifier, s: State, e: Event, tenant: Tenant)
    requires Reliable(s, e) && Saving(s, tenant)
    requires !(MovesRun(s, e) && e.Save? && s.runs[e.id].stage.Published? && s.runs[e.id].tenant == tenant)
    ensures Saving(Step(verifier, s, e), tenant)
  {
    var id :| id in s.runs && s.runs[id].tenant == tenant && s.runs[id].stage.Published?;
    assert Step(verifier, s, e).runs[id].stage.Published?;
  }

  lemma OthersStayPut(verifier: Verifier, s: State, e: Event, id: RunId)
    requires id in s.runs && id in Step(verifier, s, e).runs
    requires MovesRun(s, e) ==> s.runs[e.id].tenant != s.runs[id].tenant
    ensures Step(verifier, s, e).runs[id] == s.runs[id]
  {
  }

  /** An event moves the totals and the registry of one tenant at most. */
  lemma StoresStand(verifier: Verifier, s: State, e: Event, tenant: Tenant)
    requires MovesRun(s, e) ==> s.runs[e.id].tenant != tenant
    ensures History(Step(verifier, s, e).saved, tenant) == History(s.saved, tenant)
    ensures RegistryOf(Step(verifier, s, e).chain, tenant) == RegistryOf(s.chain, tenant)
  {
  }

  /** A run keeps its stage while another moves, and the stores of its tenant stand still. */
  lemma OtherStands(verifier: Verifier, s: State, e: Event, id: RunId, t: State)
    requires id in s.runs && StageInSync(s, id)
    requires MovesRun(s, e) ==> s.runs[e.id].tenant != s.runs[id].tenant
    requires t == Step(verifier, s, e) && id in t.runs
    ensures StageInSync(t, id)
  {
    OthersStayPut(verifier, s, e, id);
    StoresStand(verifier, s, e, s.runs[id].tenant);
  }

  lemma OwnStep(verifier: Verifier, s: State, e: Event)
    requires MovesRun(s, e) && StageInSync(s, e.id) && Reliable(s, e)
    requires s.runs[e.id].stage.Proved? ==>
               Matches(RegistryOf(s.chain, s.runs[e.id].tenant), History(s.saved, s.runs[e.id].tenant))
    requires e.id in Step(verifier, s, e).runs
    ensures StageInSync(Step(verifier, s, e), e.id)
  {
    var r := s.runs[e.id];
    if e.Publish? && r.stage.Proved? {
      MatchesNext(verifier, RegistryOf(s.chain, r.tenant), History(s.saved, r.tenant), e.signers, r.stage.proof,
                  r.stage.inputs, s.now);
    }
  }

  lemma StageStep(verifier: Verifier, s: State, e: Event, id: RunId)
    requires InSync(s) && Exclusive(s) && Reliable(s, e) && id in Step(verifier, s, e).runs
    ensures StageInSync(Step(verifier, s, e), id)
  {
    if id in s.runs {
      assert StageInSync(s, id);
      assert TenantInSync(s, s.runs[id].tenant);
      if MovesRun(s, e) && e.id == id {
        assert s.runs[id].stage.Proved? ==> !Saving(s, s.runs[id].tenant);
        OwnStep(verifier, s, e);
      } else {
        OtherStands(verifier, s, e, id, Step(verifier, s, e));
      }
    }
  }

  lemma SyncStep(verifier: Verifier, s: State, e: Event)
    requires InSync(s) && Exclusive(s) && Reliable(s, e)
    ensures InSync(Step(verifier, s, e))
  {
    var t := Step(verifier, s, e);
    forall id | id in t.runs ensures StageInSync(t, id) {
      StageStep(verifier, s, e, id);
    }
    forall tenant: Tenant ensures TenantInSync(t, tenant) {
      TenantStep(verifier, s, e, tenant);
    }
  }

  ghost predicate ReliableThroughout(verifier: Verifier, s: State, events: seq<Event>)
    decreases events
  {
    && Timely(s)
    && (events != [] ==>
          Reliable(s, events[0]) && ReliableThroughout(verifier, Step(verifier, s, events[0]), events[1..]))
  }

  lemma {:induction false} SyncRun(verifier: Verifier, s: State, events: seq<Event>)
    requires InSync(s) && Exclusive(s) && ReliableThroughout(verifier, s, events)
    ensures
      var t := Execute(verifier, s, events);
      InSync(t) && Exclusive(t)
    decreases events
  {
    if events != [] {
      SyncStep(verifier, s, events[0]);
      ExclusiveStep(verifier, s, events[0]);
      SyncRun(verifier, Step(verifier, s, events[0]), events[1..]);
    }
  }

  /** Between a tenant's publish-and-save pairs the database and the registry agree, so no run is ever
      refused for its baseline. */
  lemma DatabaseFollowsChain(verifier: Verifier, s: State, events: seq<Event>, tenant: Tenant)
    requires Initial(s) && ReliableThroughout(verifier, s, events)
    ensures
      var t := Execute(verifier, s, events);
      var c, h := RegistryOf(t.chain, tenant), History(t.saved, tenant);
      && (!Saving(t, tenant) ==>
            && Latest(c) == |h|
            && (forall i :: 0 <= i < |h| ==> i + 1 in c.proofs && c.proofs[i + 1].r == h[i])
            && (h != [] ==> Latest(c) in c.proofs && LatestReserves(t.saved, tenant) == c.proofs[Latest(c)].r))
      && (forall id, signers :: id in t.runs && t.runs[id].stage.Proved? ==>
            Chained(verifier, t, t.runs[id], signers).1 != Err(PrevReservesMismatch))
  {
    assert InSync(s);
    SyncRun(verifier, s, events);
    var t := Execute(verifier, s, events);
    assert TenantInSync(t, tenant);
    forall id, signers | id in t.runs && t.runs[id].stage.Proved?
      ensures Chained(verifier, t, t.runs[id], signers).1 != Err(PrevReservesMismatch)
    {
      var r := t.runs[id];
      assert StageInSync(t, id);
      assert TenantInSync(t, r.tenant);
      assert !Saving(t, r.tenant);
      BaselineAcceptedIff(RegistryOf(t.chain, r.tenant), History(t.saved, r.tenant), r.stage.inputs.reservesTotal);
    }
  }
}
