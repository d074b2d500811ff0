/**
 Sequences of verified calls, by any clients and against any replies.  A sequence is a run of the cache state
 machine; so what the calls accepted lies on the history of the state their slot ends with.
 */
module Calls {
  import opened Wrappers
  import opened ImmuStore
  import opened History
  import opened GetVerification
  import opened SetVerification
  import opened CacheProtocol
  import opened Operations
  import opened Refinement

  /** What is asked and what the server answers.  A batch write has no pairs if they could not be captured. */
  datatype Exchange =
    | Read(kReq: KeyRequest, entry: Result<VerifiableEntry>)
    | StreamRead(kReq: KeyRequest, entry: Result<VerifiableEntry>)
    | BatchRead(reqs: seq<KeyRequest>, items: Result<MultiReply>)
    | ArtifactRead(hash: Option<Bytes>, artifacts: Result<seq<ArtifactEntry>>)
    | Write(kv: KeyValue, tx: Result<VerifiableTx>)
    | StreamWrite(kvs: Option<seq<KeyValue>>, tx: Result<VerifiableTx>)

  datatype Call = Call(client: nat, slot: string, db: string, key: Option<Verifier>, env: Env, exchange: Exchange)

  /** The verified artifact read needs a non-empty reply. */
  predicate WellFormed(x: Exchange) {
    x.ArtifactRead? && x.artifacts.Success? ==> x.artifacts.value != []
  }

  /** The effect the client's methods promise. */
  function EffectOf(call: Call, start: Result<ImmutableState>): Effect
    requires WellFormed(call.exchange)
  {
    var fails := call.env.setFails;
    match call.exchange
    case Read(kReq, entry) => ReadEffect(call.slot, start, entry, kReq, call.db, fails(0), call.key)
    case StreamRead(kReq, entry) => StreamReadEffect(call.slot, start, entry, kReq, call.db, fails(0), call.key)
    case BatchRead(reqs, items) => BatchEffect(call.slot, start, items, reqs, call.db, fails, call.key)
    case ArtifactRead(hash, found) => ArtifactEffect(call.slot, start, hash, found, call.db, fails(0), call.key)
    case Write(kv, tx) => WriteEffect(call.slot, start, kv.key, kv.value, tx, call.db, fails(0), call.key)
    case StreamWrite(kvs, tx) => StreamWriteEffect(call.slot, start, kvs, tx, call.db, fails(0), call.key)
  }

  /** What an accepted reply proves; of a batch read, its last error-free item. */
  function Claims(call: Call, start: ImmutableState): seq<Evidence> {
    match call.exchange
    case Read(kReq, entry) => GetEvidences(start, entry, kReq)
    case StreamRead(kReq, entry) => GetEvidences(start, entry, kReq)
    case BatchRead(reqs, items) =>
      if items.Failure? || Misshapen(items.value, reqs) then []
      else
        var last := LastJudged(ItemVerdicts(start, items.value.0, items.value.1, reqs, call.db), |reqs|);
        if last.None? then [] else [GetEvidence(start, items.value.0[last.value].item, reqs[last.value])]
    case ArtifactRead(hash, found) =>
      if found.Failure? || found.value == [] then []
      else
        var a := found.value[0];
        [GetEvidence(start, AssembledEntry(a), KeyRequest(a.proof.immudbFullKey, 0, 0))]
    case Write(kv, tx) => WriteEvidence([kv], tx)
    case StreamWrite(kvs, tx) => if kvs.None? then [] else WriteEvidence(kvs.value, tx)
  }

  function WriteEvidence(kvs: seq<KeyValue>, tx: Result<VerifiableTx>): seq<Evidence> {
    if tx.Failure? || |kvs| != |tx.value.tx.entries| then [] else SetEvidence(kvs, tx.value.tx)
  }

  lemma EffectLawful(call: Call, start: ImmutableState)
    requires WellFormed(call.exchange)
    ensures Lawful(call.slot, start, EffectOf(call, Success(start)))
  {
    match call.exchange
    case Read(kReq, entry) => GetSound(start, entry, kReq, call.db);
    case StreamRead(kReq, entry) => GetSound(start, entry, kReq, call.db);
    case BatchRead(reqs, items) =>
      BatchEffectLawful(call.slot, start, items, reqs, call.db, call.env.setFails, call.key);
    case ArtifactRead(hash, found) => ArtifactBound(start, hash, found, call.db);
    case Write(kv, tx) => SetSound(start, kv.key, kv.value, tx, call.db);
    case StreamWrite(kvs, tx) =>
      if kvs.Some? {
        StreamSetSound(start, kvs.value, tx, call.db);
      }
  }

  lemma BatchClaims(call: Call, start: ImmutableState)
    requires call.exchange.BatchRead? && EffectOf(call, Success(start)).error.None?
    ensures Claims(call, start) == Last(start, EffectOf(call, Success(start)).stores).1
  {
    var items, reqs := call.exchange.items.value, call.exchange.reqs;
    var vs := ItemVerdicts(start, items.0, items.1, reqs, call.db);
    BatchStores(call.slot, start, vs, call.env.setFails, call.key, 0);
  }

  /** An accepted call either stored nothing and claims nothing, or claims what its last store rested on. */
  lemma ClaimsOfLastStore(call: Call, start: ImmutableState)
    requires WellFormed(call.exchange) && EffectOf(call, Success(start)).error.None?
    ensures Claims(call, start) == Last(start, EffectOf(call, Success(start)).stores).1
  {
    match call.exchange
    case Read(_, _) =>
    case StreamRead(_, _) =>
    case BatchRead(_, _) => BatchClaims(call, start);
    case ArtifactRead(_, _) =>
    case Write(_, _) =>
    case StreamWrite(_, _) =>
  }

  lemma BatchSigned(call: Call, start: ImmutableState)
    requires call.exchange.BatchRead? && EffectOf(call, Success(start)).error.None?
    requires EffectOf(call, Success(start)).stores != []
    ensures EffectOf(call, Success(start)).state.db == call.db
    ensures call.key.Some? ==> call.key.value(EffectOf(call, Success(start)).state)
  {
    var items, reqs := call.exchange.items.value, call.exchange.reqs;
    var vs := ItemVerdicts(start, items.0, items.1, reqs, call.db);
    var stop := BatchOutcome(call.slot, start, vs, call.env.setFails, call.key);
    BatchStores(call.slot, start, vs, call.env.setFails, call.key, 0);
    var last := LastJudged(vs, |vs|).value;
    assert ItemOk(vs[last].value, call.env.setFails(last), call.key);
  }

  /** What an accepted call stores last is a state under the call's Db name, with a checked signature. */
  lemma AcceptedIsSigned(call: Call, start: ImmutableState)
    requires WellFormed(call.exchange) && EffectOf(call, Success(start)).error.None?
    requires EffectOf(call, Success(start)).stores != []
    ensures EffectOf(call, Success(start)).state.db == call.db
    ensures call.key.Some? ==> call.key.value(EffectOf(call, Success(start)).state)
  {
    match call.exchange
    case Read(_, _) =>
    case StreamRead(_, _) =>
    case BatchRead(_, _) => BatchSigned(call, start);
    case ArtifactRead(_, _) =>
    case Write(_, _) =>
    case StreamWrite(_, _) =>
  }

  /** The key accepts only states under this Db name. */
  ghost predicate SignsOnlyFor(key: Verifier, name: string) {
    forall s: ImmutableState :: key(s) ==> s.db == name
  }

  /**
   If one signing key accepts states under one Db name only, all calls that are accepted with it and store
   anything use that name.  The client's reads store states under the hashed API key, its writes and streamed
   read under the API key itself: with such a key it cannot do both, once these differ.
   */
  lemma OneNamePerKey(a: Call, startA: ImmutableState, b: Call, startB: ImmutableState, key: Verifier, name: string)
    requires WellFormed(a.exchange) && WellFormed(b.exchange)
    requires a.key == Some(key) && b.key == Some(key) && SignsOnlyFor(key, name)
    requires EffectOf(a, Success(startA)).stores != [] && EffectOf(b, Success(startB)).stores != []
    requires EffectOf(a, Success(startA)).error.None? && EffectOf(b, Success(startB)).error.None?
    ensures a.db == b.db == name
  {
    AcceptedIsSigned(a, startA);
    AcceptedIsSigned(b, startB);
  }

  /* ---------- One call and many ---------- */

  function StartOf(call: Call, cache: map<string, ImmutableState>): Result<ImmutableState> {
    Begin(false, Lookup(cache, call.slot), call.env)
  }

  function CacheAfter(call: Call, cache: map<string, ImmutableState>): map<string, ImmutableState>
    requires WellFormed(call.exchange)
  {
    var start := StartOf(call, cache);
    if start.Failure? then cache else cache[call.slot := EffectOf(call, start).state]
  }

  function EventsOf(call: Call, cache: map<string, ImmutableState>): seq<Event>
    requires WellFormed(call.exchange)
  {
    var start := StartOf(call, cache);
    if start.Success? then [Acquire, Fetch(call.slot, start.value)] + EffectOf(call, start).stores + [Release]
    else if call.env.lockFails then []
    else [Acquire, Release]
  }

  /** The methods of the client promise exactly this cache and these events. */
  lemma EndedAsCalled(call: Call, cache: map<string, ImmutableState>, cache': map<string, ImmutableState>,
                      trace: seq<Event>, trace': seq<Event>)
    requires WellFormed(call.exchange)
    requires Ended(false, call.env, call.slot, StartOf(call, cache), EffectOf(call, StartOf(call, cache)),
                   cache, cache', trace, trace')
    ensures cache' == CacheAfter(call, cache) && trace' == trace + EventsOf(call, cache)
  {
    assert trace' == trace + trace'[|trace|..];
  }

  function CacheAfterAll(calls: seq<Call>, cache: map<string, ImmutableState>): map<string, ImmutableState>
    requires forall call | call in calls :: WellFormed(call.exchange)
  {
    if calls == [] then cache
    else CacheAfter(calls[|calls| - 1], CacheAfterAll(calls[..|calls| - 1], cache))
  }

  /** The calls as steps of the machine. */
  function RunOf(calls: seq<Call>, cache: map<string, ImmutableState>): Run
    requires forall call | call in calls :: WellFormed(call.exchange)
  {
    if calls == [] then []
    else
      var front, last := calls[..|calls| - 1], calls[|calls| - 1];
      RunOf(front, cache) + Steps(last.client, EventsOf(last, CacheAfterAll(front, cache)))
  }

  /** The machine after one call. */
  function GlobalAfter(call: Call, g: Global): Global
    requires WellFormed(call.exchange)
  {
    var start := StartOf(call, g.cache);
    if start.Failure? then g
    else
      var effect := EffectOf(call, start);
      After(g, call.slot, start.value, effect.state, Last(start.value, effect.stores).1)
  }

  lemma {:induction false} CallRuns(call: Call, g: Global)
    requires WellFormed(call.exchange) && Ready(g, call.client)
    ensures Exec(g, Steps(call.client, EventsOf(call, g.cache))) == Some(GlobalAfter(call, g))
    ensures GlobalAfter(call, g).cache == CacheAfter(call, g.cache)
  {
    var start := StartOf(call, g.cache);
    if start.Success? {
      EffectLawful(call, start.value);
      OperationRuns(g, call.client, call.slot, start.value, EffectOf(call, start), CacheAfter(call, g.cache),
                    EventsOf(call, g.cache));
    } else if call.env.lockFails {
      assert Steps(call.client, []) == [];
    } else {
      RefusalRuns(g, call.client);
    }
  }

  lemma {:induction false} ExecConcat(g: Global, a: Run, b: Run)
    requires Exec(g, a).Some?
    ensures Exec(g, a + b) == Exec(Exec(g, a).value, b)
    decreases |b|
  {
    if b == [] {
      assert a + b == a;
    } else {
      assert (a + b)[..|a + b| - 1] == a + b[..|b| - 1];
      ExecConcat(g, a, b[..|b| - 1]);
    }
  }

  function GlobalAfterAll(calls: seq<Call>, g: Global): Global
    requires forall call | call in calls :: WellFormed(call.exchange)
  {
    if calls == [] then g else GlobalAfter(calls[|calls| - 1], GlobalAfterAll(calls[..|calls| - 1], g))
  }

  /** The clients of the calls take part in the machine, which is at rest. */
  ghost predicate AtRest(g: Global, calls: seq<Call>) {
    && g.owner.None? && (forall c :: 0 <= c < |g.phases| ==> g.phases[c] == Idle)
    && forall call | call in calls :: call.client < |g.phases| && WellFormed(call.exchange)
  }

  /** A sequence of calls is a run of the machine, with the cache the calls leave. */
  lemma {:induction false} CallsRun(calls: seq<Call>, g: Global)
    requires AtRest(g, calls)
    ensures Exec(g, RunOf(calls, g.cache)) == Some(GlobalAfterAll(calls, g))
    ensures var h := GlobalAfterAll(calls, g);
            h.owner.None? && h.phases == g.phases && h.cache == CacheAfterAll(calls, g.cache)
    decreases |calls|
  {
    if calls != [] {
      var front, last := calls[..|calls| - 1], calls[|calls| - 1];
      CallsRun(front, g);
      var mid := GlobalAfterAll(front, g);
      CallRuns(last, mid);
      ExecConcat(g, RunOf(front, g.cache), Steps(last.client, EventsOf(last, mid.cache)));
    }
  }

  /* ---------- What a sequence accepted ---------- */

  /** The call is accepted when it finds this cache. */
  predicate Accepted(call: Call, cache: map<string, ImmutableState>)
    requires WellFormed(call.exchange)
  {
    StartOf(call, cache).Success? && EffectOf(call, StartOf(call, cache)).error.None?
  }

  /** Without a state to start from, the call reports why and stores nothing. */
  lemma UnstartedReports(call: Call, e: Error)
    requires WellFormed(call.exchange)
    ensures EffectOf(call, Failure(e)).error == Some(e) && EffectOf(call, Failure(e)).stores == []
  {
  }

  /** An effect without error is an accepted call; without a state to start from there is always one. */
  lemma AcceptedIsNoError(call: Call, cache: map<string, ImmutableState>)
    requires WellFormed(call.exchange)
    ensures Accepted(call, cache) <==> EffectOf(call, StartOf(call, cache)).error.None?
  {
  }

  /** The call was made: it left this cache by these steps, and was accepted or not. */
  predicate Made(call: Call, accepted: bool, cache: map<string, ImmutableState>, cache': map<string, ImmutableState>,
                 trace: seq<Event>, trace': seq<Event>)
  {
    && WellFormed(call.exchange)
    && cache' == CacheAfter(call, cache) && trace' == trace + EventsOf(call, cache)
    && (accepted <==> Accepted(call, cache))
  }

  /** Calls made one after the other leave the caches of the sequence. */
  lemma {:induction false} MadeInTurn(calls: seq<Call>, caches: seq<map<string, ImmutableState>>, i: nat)
    requires |caches| == |calls| + 1 && i <= |calls|
    requires forall j :: 0 <= j < |calls| ==>
               WellFormed(calls[j].exchange) && caches[j + 1] == CacheAfter(calls[j], caches[j])
    ensures forall call | call in calls :: WellFormed(call.exchange)
    ensures caches[i] == CacheAfterAll(calls[..i], caches[0])
    decreases i
  {
    if i > 0 {
      MadeInTurn(calls, caches, i - 1);
      assert calls[..i][..i - 1] == calls[..i - 1];
      assert WellFormed(calls[i - 1].exchange);
    }
  }

  /** The state the call leaves has transactions and is anchored. */
  predicate Anchors(call: Call, cache: map<string, ImmutableState>)
    requires WellFormed(call.exchange) && Accepted(call, cache)
  {
    var s := EffectOf(call, StartOf(call, cache)).state;
    s.txId > 0 && Anchored(s)
  }

  function ClaimsOn(call: Call, cache: map<string, ImmutableState>): seq<Evidence>
    requires WellFormed(call.exchange) && Accepted(call, cache)
  {
    Claims(call, StartOf(call, cache).value)
  }

  /** An accepted call that claims anything leaves an anchored state, unless it is a first use. */
  lemma OnlyFirstUseMisanchors(call: Call, cache: map<string, ImmutableState>)
    requires WellFormed(call.exchange) && Accepted(call, cache) && ClaimsOn(call, cache) != []
    requires StartOf(call, cache).value.txId > 0
    ensures Anchors(call, cache)
  {
    var start := StartOf(call, cache).value;
    var e := EffectOf(call, Success(start));
    EffectLawful(call, start);
    ClaimsOfLastStore(call, start);
    assert Justified(start, e.state, Last(start, e.stores).1);
    LaterThanStart(start, e.state);
  }

  lemma LaterThanStart(start: ImmutableState, next: ImmutableState)
    requires start.txId > 0 && Extends(next, start)
    ensures next.txId > 0
  {
  }

  /** This start counts as fetched in the machine, and these claims as accepted. */
  predicate CountedIn(h: Global, slot: string, start: ImmutableState, claims: seq<Evidence>) {
    slot in h.cache && start in At(h.fetched, slot) && forall ev | ev in claims :: ev in At(h.accepted, slot)
  }

  lemma CountedNow(call: Call, g: Global)
    requires WellFormed(call.exchange) && Accepted(call, g.cache)
    ensures CountedIn(GlobalAfter(call, g), call.slot, StartOf(call, g.cache).value,
                      if Anchors(call, g.cache) then ClaimsOn(call, g.cache) else [])
  {
    var start, h := StartOf(call, g.cache).value, GlobalAfter(call, g);
    ClaimsOfLastStore(call, start);
    assert At(h.fetched, call.slot) == At(g.fetched, call.slot) + [start];
    if Anchors(call, g.cache) {
      assert At(h.accepted, call.slot) == At(g.accepted, call.slot) + ClaimsOn(call, g.cache);
    }
  }

  lemma CountedStill(last: Call, g: Global, slot: string, start: ImmutableState, claims: seq<Evidence>)
    requires WellFormed(last.exchange) && CountedIn(g, slot, start, claims)
    ensures CountedIn(GlobalAfter(last, g), slot, start, claims)
  {
    var h := GlobalAfter(last, g);
    assert At(g.fetched, slot) <= At(h.fetched, slot) && At(g.accepted, slot) <= At(h.accepted, slot);
  }

  lemma {:induction false} CountedLater(calls: seq<Call>, n: nat, g: Global, slot: string, start: ImmutableState,
                                        claims: seq<Evidence>)
    requires n <= |calls| && forall call | call in calls :: WellFormed(call.exchange)
    requires CountedIn(GlobalAfterAll(calls[..n], g), slot, start, claims)
    ensures CountedIn(GlobalAfterAll(calls, g), slot, start, claims)
    decreases |calls|
  {
    if n == |calls| {
      assert calls[..n] == calls;
    } else {
      var front := calls[..|calls| - 1];
      assert calls[..n] == front[..n];
      CountedLater(front, n, g, slot, start, claims);
      CountedStill(calls[|calls| - 1], GlobalAfterAll(front, g), slot, start, claims);
    }
  }

  lemma Counted(calls: seq<Call>, g: Global, i: nat)
    requires AtRest(g, calls) && i < |calls|
    requires Accepted(calls[i], CacheAfterAll(calls[..i], g.cache))
    ensures var before := CacheAfterAll(calls[..i], g.cache);
            CountedIn(GlobalAfterAll(calls, g), calls[i].slot, StartOf(calls[i], before).value,
                      if Anchors(calls[i], before) then ClaimsOn(calls[i], before) else [])
  {
    var before := CacheAfterAll(calls[..i], g.cache);
    CallsRun(calls[..i], g);
    CountedNow(calls[i], GlobalAfterAll(calls[..i], g));
    assert calls[..i + 1][..i] == calls[..i];
    CountedLater(calls, i + 1, g, calls[i].slot, StartOf(calls[i], before).value,
                 if Anchors(calls[i], before) then ClaimsOn(calls[i], before) else []);
  }

  /**
   No fork and no rollback, for every sequence of verified calls by any clients and every server.  At the end,
   the slot's state continues the state each accepted call started from, and what the call claims (its read
   entry, or its written pairs) is recorded on that state's history.  `Anchors` can fail only on first use.
   */
  lemma AcceptedStaysRecorded(calls: seq<Call>, g: Global, i: nat)
    requires AtRest(g, calls) && g.fetched == map[] && g.accepted == map[]
    requires i < |calls| && Accepted(calls[i], CacheAfterAll(calls[..i], g.cache))
    ensures var before, final := CacheAfterAll(calls[..i], g.cache), CacheAfterAll(calls, g.cache);
            && calls[i].slot in final
            && Extends(final[calls[i].slot], StartOf(calls[i], before).value)
            && (Anchors(calls[i], before) ==>
                  forall ev | ev in ClaimsOn(calls[i], before) :: Recorded(final[calls[i].slot], ev))
  {
    var slot, run, h := calls[i].slot, RunOf(calls, g.cache), GlobalAfterAll(calls, g);
    CallsRun(calls, g);
    Counted(calls, g, i);
    RunsKeepInv(g, run);
    assert SlotOk(h, OwnerPhase(h), slot);
  }

  /** Of an accepted batch read, every error-free item no newer than its start stays recorded as well. */
  lemma OlderItemStaysRecorded(calls: seq<Call>, g: Global, i: nat, k: nat)
    requires AtRest(g, calls) && g.fetched == map[] && g.accepted == map[]
    requires i < |calls| && Accepted(calls[i], CacheAfterAll(calls[..i], g.cache))
    requires calls[i].exchange.BatchRead? && calls[i].exchange.items.Success?
    requires var (items, errors) := calls[i].exchange.items.value;
             k < |calls[i].exchange.reqs| == |items| == |errors| && errors[k] == ""
    requires var start := StartOf(calls[i], CacheAfterAll(calls[..i], g.cache)).value;
             start.txId > 0 && ClaimedTx(calls[i].exchange.items.value.0[k].item.entry) <= start.txId
    ensures var start := StartOf(calls[i], CacheAfterAll(calls[..i], g.cache)).value;
            var final := CacheAfterAll(calls, g.cache);
            var ev := GetEvidence(start, calls[i].exchange.items.value.0[k].item, calls[i].exchange.reqs[k]);
            calls[i].slot in final && Recorded(final[calls[i].slot], ev)
  {
    var start := StartOf(calls[i], CacheAfterAll(calls[..i], g.cache)).value;
    AcceptedStaysRecorded(calls, g, i);
    OlderItemIsRecorded(calls[i], start, k);
    RecordedPersists(start, CacheAfterAll(calls, g.cache)[calls[i].slot],
                     GetEvidence(start, calls[i].exchange.items.value.0[k].item, calls[i].exchange.reqs[k]));
  }

  /** Such an item is recorded on the start itself. */
  lemma OlderItemIsRecorded(call: Call, start: ImmutableState, k: nat)
    requires call.exchange.BatchRead? && call.exchange.items.Success?
    requires var (items, errors) := call.exchange.items.value;
             k < |call.exchange.reqs| == |items| == |errors| && errors[k] == ""
    requires EffectOf(call, Success(start)).error.None?
    requires start.txId > 0 && ClaimedTx(call.exchange.items.value.0[k].item.entry) <= start.txId
    ensures Recorded(start, GetEvidence(start, call.exchange.items.value.0[k].item, call.exchange.reqs[k]))
  {
    var (items, errors) := call.exchange.items.value;
    BatchRecords(call.slot, start, items, errors, call.exchange.reqs, call.db, call.env.setFails, call.key, k);
    GetTransition(start, items[k].item, call.exchange.reqs[k], call.db);
  }

  /** Two accepted calls on one slot whose claims have the same transaction ID are about the same transaction. */
  lemma AcceptedAgree(calls: seq<Call>, g: Global, i: nat, j: nat, evI: Evidence, evJ: Evidence)
    requires AtRest(g, calls) && g.fetched == map[] && g.accepted == map[]
    requires i < |calls| && j < |calls| && calls[i].slot == calls[j].slot
    requires var before := CacheAfterAll(calls[..i], g.cache);
             Accepted(calls[i], before) && Anchors(calls[i], before) && evI in ClaimsOn(calls[i], before)
    requires var before := CacheAfterAll(calls[..j], g.cache);
             Accepted(calls[j], before) && Anchors(calls[j], before) && evJ in ClaimsOn(calls[j], before)
    ensures evI.txId == evJ.txId ==> evI.txAlh == evJ.txAlh
  {
    AcceptedStaysRecorded(calls, g, i);
    AcceptedStaysRecorded(calls, g, j);
    if evI.txId == evJ.txId {
      SameIdSameTransaction(CacheAfterAll(calls, g.cache)[calls[i].slot], evI, evJ);
    }
  }
}
