/**
 The client: its identity, and the verified operations as they take the lock, read the trusted state, ask
 the server, verify, store and unlock.  The server is an arbitrary function of the request.
 */
module Client {
  import opened Wrappers
  import opened ImmuStore
  import opened History
  import opened GetVerification
  import opened SetVerification
  import opened CacheProtocol
  import opened Operations
  import opened StateService
  import opened StreamCapture
  import opened ApiKey
  import opened CacheKeys
  import opened Text
  import opened Base64

  datatype VerifiableGetRequest = VerifiableGetRequest(keyRequest: KeyRequest, proveSinceTx: nat)
  datatype VerifiableSetRequest = VerifiableSetRequest(kv: KeyValue, proveSinceTx: nat)

  /** The reply to a request that asks for a proof since the client's own state. */
  function Ask<T>(start: Result<ImmutableState>, kReq: KeyRequest, server: VerifiableGetRequest -> Result<T>)
    : Result<T>
  {
    if start.Failure? then Failure(start.error) else server(VerifiableGetRequest(kReq, start.value.txId))
  }

  function AskSet(start: Result<ImmutableState>, kv: KeyValue, server: VerifiableSetRequest -> Result<VerifiableTx>)
    : Result<VerifiableTx>
  {
    if start.Failure? then Failure(start.error) else server(VerifiableSetRequest(kv, start.value.txId))
  }

  function AskAll(start: Result<ImmutableState>, reqs: seq<KeyRequest>,
                  server: seq<VerifiableGetRequest> -> Result<MultiReply>): Result<MultiReply>
  {
    if start.Failure? then Failure(start.error) else server(Requests(reqs, start.value.txId))
  }

  /** Request `i` asks for `keys[i]` at transaction `txs[i]`. */
  function PairUp(keys: seq<Bytes>, txs: seq<nat>): (r: seq<KeyRequest>)
    requires |keys| == |txs|
    ensures |r| == |keys|
    ensures forall i :: 0 <= i < |keys| ==> r[i] == KeyRequest(keys[i], txs[i], 0)
  {
    seq(|keys|, i requires 0 <= i < |keys| => KeyRequest(keys[i], txs[i], 0))
  }

  function AskArtifact(start: Result<ImmutableState>, q: ArtifactsGetRequest,
                       server: ArtifactsGetRequest -> Result<seq<ArtifactEntry>>): Result<seq<ArtifactEntry>>
  {
    if start.Failure? then Failure(start.error) else server(q.(proveSinceTx := start.value.txId))
  }

  function AskStream(start: Result<ImmutableState>, sent: seq<SentPair>,
                     server: (nat, seq<SentPair>) -> Result<VerifiableTx>): Result<VerifiableTx>
  {
    if start.Failure? then Failure(start.error) else server(start.value.txId, sent)
  }

  function Requests(reqs: seq<KeyRequest>, since: nat): (r: seq<VerifiableGetRequest>)
    ensures |r| == |reqs|
    ensures forall i :: 0 <= i < |reqs| ==> r[i] == VerifiableGetRequest(reqs[i], since)
  {
    seq(|reqs|, i requires 0 <= i < |reqs| => VerifiableGetRequest(reqs[i], since))
  }

  /**
   A batch read of one key at one transaction is the single read of it: if the server answers a request alike
   alone and in a batch of one, both make the same effect from whatever the start, and return the same.
   */
  lemma OneRequestBatch(slot: string, start: Result<ImmutableState>, k: Bytes, tx: nat, db: string,
                        setFails: nat -> bool, key: Option<Verifier>,
                        single: VerifiableGetRequest -> Result<VerifiableItemExt>,
                        multi: seq<VerifiableGetRequest> -> Result<MultiReply>)
    requires forall req :: multi([req]) == AsBatch(single(req))
    ensures var kReq, reqs := KeyRequest(k, tx, 0), PairUp([k], [tx]);
            var reply, batchReply := Ask(start, kReq, single), AskAll(start, reqs, multi);
            var effect := BatchEffect(slot, start, batchReply, reqs, db, setFails, key);
            && effect == ReadEffect(slot, start, ItemOf(reply), kReq, db, setFails(0), key)
            && var r := ReadReturns(reply, effect);
               BatchReturns(batchReply, reqs, effect) == (if r.Success? then ([r.value], [""]) else ([], []))
  {
    var kReq := KeyRequest(k, tx, 0);
    assert PairUp([k], [tx]) == [kReq];
    if start.Success? {
      assert Requests([kReq], start.value.txId) == [VerifiableGetRequest(kReq, start.value.txId)];
    }
    SingletonBatch(slot, start, Ask(start, kReq, single), kReq, db, setFails, key);
  }

  lemma FirstFailureStep(rs: seq<Result<()>>, i: nat)
    requires i < |rs|
    ensures FirstFailure(rs[i..]) == if rs[i].Failure? then rs[i] else FirstFailure(rs[i + 1..])
  {
    assert rs[i..][1..] == rs[i + 1..];
  }

  lemma Overwrite(m: map<string, ImmutableState>, slot: string, a: ImmutableState, b: ImmutableState)
    ensures m[slot := a][slot := b] == m[slot := b]
  {
  }

  lemma Regroup(a: seq<Event>, b: seq<Event>, c: seq<Event>)
    ensures (a + b) + c == a + (b + c)
  {
  }

  /** One round of the inclusion loop. */
  method CheckInclusion(tx: Tx, kv: KeyValue, md: Option<KVMetadata>) returns (r: Result<()>)
    ensures r == CheckPair(tx, kv, md)
  {
    var inclusionProof := ProofFor(tx, EncodeKey(kv.key));
    if inclusionProof.None? {
      return Failure(KeyNotFound);
    }
    var e := EncodeEntrySpec(kv.key, md, kv.value);
    if !VerifyInclusion(inclusionProof.value, EntrySpecDigest(tx.header.version, e), tx.header.eh) {
      return Failure(CorruptedData);
    }
    r := Success(());
  }

  /** The inclusion loop of the streamed write. */
  method CheckInclusions(tx: Tx, kvs: seq<KeyValue>) returns (r: Result<()>)
    requires |kvs| == |tx.entries|
    ensures r == FirstFailure(PairChecks(tx, kvs))
  {
    ghost var rs := PairChecks(tx, kvs);
    for i := 0 to |kvs|
      invariant FirstFailure(rs) == FirstFailure(rs[i..])
    {
      FirstFailureStep(rs, i);
      r := CheckInclusion(tx, kvs[i], tx.entries[i].md);
      if r.Failure? {
        return;
      }
    }
    r := Success(());
  }

  /** The verification written out again in the streamed read. */
  method StreamVerification(state: ImmutableState, vEntry: VerifiableEntry, kReq: KeyRequest, apiKey: string)
    returns (r: Result<ImmutableState>)
    ensures r == VerifyGet(state, vEntry, kReq, apiKey)
  {
    var version := vEntry.verifiableTx.tx.header.version;
    if !SupportedVersion(version) {
      return Failure(UnsupportedTxVersion);
    }
    var inclusionProof := vEntry.inclusionProof;
    var dualProof := vEntry.verifiableTx.dualProof;
    var eh: Digest;
    var sourceID: nat, targetID: nat;
    var sourceAlh: Digest, targetAlh: Digest;
    var vTx: nat;
    var e: EntrySpec;

    if vEntry.entry.referencedBy == None {
      vTx := vEntry.entry.tx;
      e := EncodeEntrySpec(kReq.key, vEntry.entry.metadata, vEntry.entry.value);
    } else {
      var ref := vEntry.entry.referencedBy.value;
      vTx := ref.tx;
      e := EncodeReference(ref.key, ref.metadata, vEntry.entry.key, ref.atTx);
    }

    if state.txId <= vTx {
      eh := dualProof.target.eh;
      sourceID := state.txId;
      sourceAlh := state.txHash;
      targetID := vTx;
      targetAlh := Alh(dualProof.target);
    } else {
      eh := dualProof.source.eh;
      sourceID := vTx;
      sourceAlh := Alh(dualProof.source);
      targetID := state.txId;
      targetAlh := state.txHash;
    }

    if !VerifyInclusion(inclusionProof, EntrySpecDigest(version, e), eh) {
      return Failure(CorruptedData);
    }
    if state.txId > 0 {
      if !VerifyDualProof(dualProof, sourceID, targetID, sourceAlh, targetAlh) {
        return Failure(CorruptedData);
      }
    }
    r := Success(ImmutableState(apiKey, targetID, targetAlh, vEntry.verifiableTx.signature));
  }

  /** The verification of the streamed write. */
  method StreamSetVerification(state: ImmutableState, stdKVs: seq<KeyValue>, verifiableTx: VerifiableTx, apiKey: string)
    returns (r: Result<ImmutableState>)
    ensures r == VerifyStreamSet(state, stdKVs, verifiableTx, apiKey)
  {
    if verifiableTx.tx.header.nentries != Int32(|stdKVs|) || |verifiableTx.tx.entries| != |stdKVs| {
      return Failure(CorruptedData);
    }
    var tx := TxFromProto(verifiableTx.tx);
    if !SupportedVersion(tx.header.version) {
      return Failure(UnsupportedTxVersion);
    }
    var checked := CheckInclusions(tx, stdKVs);
    if checked.Failure? {
      return Failure(checked.error);
    }
    r := AdvanceTo(state, verifiableTx, apiKey);
  }

  /** The request list of the batch read. */
  method BuildRequests(reqs: seq<KeyRequest>, since: nat) returns (requests: seq<VerifiableGetRequest>)
    ensures requests == Requests(reqs, since)
  {
    requests := [];
    for i := 0 to |reqs|
      invariant requests == Requests(reqs, since)[..i]
    {
      requests := requests + [VerifiableGetRequest(reqs[i], since)];
    }
  }

  /**
   The capture and the sending of a streamed write.  It succeeds exactly when every Read does; `sent` is what
   the Reads delivered, with the sizes the caller declared, and the captured pairs are the delivered bytes,
   filled with zeros.
   */
  method CaptureForSending(kvs: array<StreamPair>) returns (captured: Option<seq<KeyValue>>, sent: seq<SentPair>)
    modifies kvs, ReadersOf(kvs[..])`pending
    ensures CaptureEnds(old(PendingOf(ReadersOf(kvs[..]))), old(kvs[..]), captured, sent)
  {
    ghost var pairs := kvs[..];
    var stdKVs, delivered := CaptureAll(kvs);
    if stdKVs.Failure? {
      return None, [];
    }
    sent := Contents(kvs);
    assert sent == Declared(delivered, pairs);
    assert forall i :: 0 <= i < |pairs| ==> PutBack(kvs[i], delivered[i], stdKVs.value[i]);
    captured := Some(stdKVs.value);
  }

  /** What the sender gets: the pairs' readers, and their declared sizes. */
  method Contents(kvs: array<StreamPair>) returns (sent: seq<SentPair>)
    ensures |sent| == kvs.Length
    ensures forall i :: 0 <= i < kvs.Length ==> sent[i] == ToSend(kvs[i])
  {
    sent := [];
    for i := 0 to kvs.Length
      invariant |sent| == i
      invariant forall j :: 0 <= j < i ==> sent[j] == ToSend(kvs[j])
    {
      sent := sent + [ToSend(kvs[i])];
    }
  }

  function ToSend(pair: StreamPair): SentPair
    reads pair.key.content, pair.value.content
  {
    SentPair(KeyValue(pair.key.content.pending, pair.value.content.pending), pair.key.size, pair.value.size)
  }

  class LcClient {
    var apiKey: string
    var apiKeyHash: string
    var signingKey: Option<Verifier>
    const service: StateService

    constructor (apiKey: string, signingKey: Option<Verifier>, service: StateService)
      ensures this.apiKey == apiKey && this.apiKeyHash == "" && this.signingKey == signingKey && this.service == service
    {
      this.apiKey, this.apiKeyHash, this.signingKey, this.service := apiKey, "", signingKey, service;
    }

    /** The identity part of connecting. */
    method Connect()
      modifies this`apiKeyHash
      ensures var id := HashedApiKey(service.sha, apiKey);
              apiKeyHash == if id.Some? then id.value else old(apiKeyHash)
    {
      if apiKey != "" {
        var apiKeyPieces := Split(apiKey, API_KEY_SEPARATOR);
        if |apiKeyPieces| >= 2 {
          var signerID := Join(apiKeyPieces[..|apiKeyPieces| - 1], API_KEY_SEPARATOR);
          var hashed := service.sha(apiKeyPieces[|apiKeyPieces| - 1]);
          apiKeyHash := signerID + [API_KEY_SEPARATOR] + Encode(RawURL, hashed);
        }
      }
    }

    /** The client's slot is that of its API key. */
    function Slot(): (slot: string)
      reads this`apiKey
      ensures slot == Encode(Std, service.sha(apiKey))
    {
      service.Slot(apiKey)
    }

    /** The state an operation would start from. */
    function Start(env: Env): Result<ImmutableState>
      reads this`apiKey, service`locked, service`cache
    {
      Begin(service.locked, Lookup(service.cache, Slot()), env)
    }

    /** What the operations have in common at their start: lock, deferred unlock, fetch the state. */
    method Enter(env: Env) returns (r: Result<ImmutableState>)
      modifies service
      ensures r == old(Start(env))
      ensures r.Failure? ==>
                && service.locked == old(service.locked) && old(service.trace) <= service.trace
                && Refused(old(service.locked), env, old(service.cache), service.cache,
                           service.trace[|old(service.trace)|..])
      ensures r.Success? ==>
                && service.locked && !old(service.locked)
                && service.cache == old(service.cache)[Slot() := r.value]
                && service.trace == old(service.trace) + [Acquire, Fetch(Slot(), r.value)]
    {
      var lock := service.CacheLock(env);
      if lock.Failure? {
        return Failure(lock.error);
      }
      r := service.GetState(apiKey, env);
      if r.Failure? {
        service.CacheUnlock();
        assert service.trace[|old(service.trace)|..] == [Acquire, Release];
      } else {
        assert service.trace == old(service.trace) + [Acquire, Fetch(Slot(), r.value)];
      }
    }

    /** The deferred unlock, and with it the account of the whole operation. */
    method Leave(env: Env, ghost start: ImmutableState, ghost effect: Effect,
                 ghost cache: map<string, ImmutableState>, ghost trace: seq<Event>)
      requires Lawful(Slot(), start, effect)
      requires service.cache == cache[Slot() := effect.state]
      requires service.trace == trace + [Acquire, Fetch(Slot(), start)] + effect.stores
      modifies service`locked, service`trace
      ensures !service.locked
      ensures Ended(false, env, Slot(), Success(start), effect, cache, service.cache, trace, service.trace)
    {
      hide Section, Lawful;
      service.CacheUnlock();
      ghost var events := service.trace[|trace|..];
      assert events == [Acquire, Fetch(Slot(), start)] + effect.stores + [Release];
      PerformedIsSection(Slot(), start, effect, cache, service.cache, events);
    }

    /** The end of the reads: store the new state, then check its signature; unlock in any case. */
    method StoreThenCheck(next: Result<ImmutableState>, env: Env, ghost start: ImmutableState, ghost evs: seq<Evidence>,
                          ghost cache: map<string, ImmutableState>, ghost trace: seq<Event>)
      returns (err: Option<Error>)
      requires Sound(start, Judged(next, evs))
      requires service.cache == cache[Slot() := start] && service.trace == trace + [Acquire, Fetch(Slot(), start)]
      modifies service
      ensures !service.locked
      ensures var effect := CommitThenCheck(Slot(), start, Judged(next, evs), env.setFails(0), signingKey);
              && err == effect.error
              && Ended(false, env, Slot(), Success(start), effect, cache, service.cache, trace, service.trace)
    {
      ghost var effect := CommitThenCheck(Slot(), start, Judged(next, evs), env.setFails(0), signingKey);
      CommitLawful(Slot(), start, start, Judged(next, evs), env.setFails(0), signingKey);
      err := None;
      if next.Failure? {
        err := Some(next.error);
      } else {
        var set' := service.SetState(apiKey, next.value, env.setFails(0), evs);
        if set'.Failure? {
          err := Some(set'.error);
        } else if signingKey.Some? {
          if !signingKey.value(next.value) {
            err := Some(SignatureMismatch);
          }
        }
      }
      Leave(env, start, effect, cache, trace);
    }

    /** The end of the writes and of the streamed read: check the signature, then store; unlock in any case. */
    method CheckThenStore(next: Result<ImmutableState>, env: Env, ghost start: ImmutableState, ghost evs: seq<Evidence>,
                          ghost cache: map<string, ImmutableState>, ghost trace: seq<Event>)
      returns (err: Option<Error>)
      requires Sound(start, Judged(next, evs))
      requires service.cache == cache[Slot() := start] && service.trace == trace + [Acquire, Fetch(Slot(), start)]
      modifies service
      ensures !service.locked
      ensures var effect := CheckThenCommit(Slot(), start, Judged(next, evs), env.setFails(0), signingKey);
              && err == effect.error
              && Ended(false, env, Slot(), Success(start), effect, cache, service.cache, trace, service.trace)
    {
      ghost var effect := CheckThenCommit(Slot(), start, Judged(next, evs), env.setFails(0), signingKey);
      err := None;
      if next.Failure? {
        err := Some(next.error);
      } else if signingKey.Some? && !signingKey.value(next.value) {
        err := Some(SignatureMismatch);
      } else {
        var set' := service.SetState(apiKey, next.value, env.setFails(0), evs);
        if set'.Failure? {
          err := Some(set'.error);
        }
      }
      Leave(env, start, effect, cache, trace);
    }

    /** An operation that got no state only reports the error. */
    lemma NotStarted(env: Env, start: Result<ImmutableState>, effect: Effect, locked: bool,
                     cache: map<string, ImmutableState>, trace: seq<Event>)
      requires start.Failure? && trace <= service.trace
      requires Refused(locked, env, cache, service.cache, service.trace[|trace|..])
      ensures Ended(locked, env, Slot(), start, effect, cache, service.cache, trace, service.trace)
    {
      RefusedIsSection(locked, env, cache, service.cache, service.trace[|trace|..]);
    }

    method VerifiedGet(kReq: KeyRequest, env: Env, server: VerifiableGetRequest -> Result<VerifiableEntry>)
      returns (r: Result<Entry>)
      modifies service
      ensures service.locked == old(service.locked)
      ensures var start := old(Start(env));
              var reply := Ask(start, kReq, server);
              var effect := ReadEffect(Slot(), start, reply, kReq, apiKeyHash, env.setFails(0), signingKey);
              && Ended(old(service.locked), env, Slot(), start, effect,
                       old(service.cache), service.cache, old(service.trace), service.trace)
              && r == if effect.error.Some? then Failure(effect.error.value) else Success(reply.value.entry)
    {
      var state := Enter(env);
      if state.Failure? {
        NotStarted(env, state, Unstarted(state.error), old(service.locked), old(service.cache), old(service.trace));
        return Failure(state.error);
      }
      var req := VerifiableGetRequest(kReq, state.value.txId);
      var vEntry := server(req);
      GetSound(state.value, vEntry, kReq, apiKeyHash);
      var newState := if vEntry.Failure? then Failure(vEntry.error)
                      else VerifyGet(state.value, vEntry.value, kReq, apiKeyHash);
      var err := StoreThenCheck(newState, env, state.value, GetEvidences(state.value, vEntry, kReq),
                                old(service.cache), old(service.trace));
      r := if err.Some? then Failure(err.value) else Success(vEntry.value.entry);
    }

    method VerifiedGetExt(kReq: KeyRequest, env: Env, server: VerifiableGetRequest -> Result<VerifiableItemExt>)
      returns (r: Result<VerifiableItemExt>)
      modifies service
      ensures service.locked == old(service.locked)
      ensures var start := old(Start(env));
              var reply := Ask(start, kReq, server);
              var effect := ReadEffect(Slot(), start, ItemOf(reply), kReq, apiKeyHash, env.setFails(0), signingKey);
              && Ended(old(service.locked), env, Slot(), start, effect,
                       old(service.cache), service.cache, old(service.trace), service.trace)
              && r == ReadReturns(reply, effect)
    {
      var state := Enter(env);
      if state.Failure? {
        NotStarted(env, state, Unstarted(state.error), old(service.locked), old(service.cache), old(service.trace));
        return Failure(state.error);
      }
      var req := VerifiableGetRequest(kReq, state.value.txId);
      var vEntryExt := server(req);
      GetSound(state.value, ItemOf(vEntryExt), kReq, apiKeyHash);
      var newState := if vEntryExt.Failure? then Failure(vEntryExt.error)
                      else VerifyGet(state.value, vEntryExt.value.item, kReq, apiKeyHash);
      var err := StoreThenCheck(newState, env, state.value, GetEvidences(state.value, ItemOf(vEntryExt), kReq),
                                old(service.cache), old(service.trace));
      r := if err.Some? then Failure(err.value) else vEntryExt;
    }

    method StreamVerifiedGet(req: VerifiableGetRequest, env: Env,
                             server: VerifiableGetRequest -> Result<VerifiableEntry>)
      returns (r: Result<Entry>)
      modifies service
      ensures service.locked == old(service.locked)
      ensures var start := old(Start(env));
              var effect := StreamReadEffect(Slot(), start, server(req), req.keyRequest, apiKey, env.setFails(0),
                                             signingKey);
              && Ended(old(service.locked), env, Slot(), start, effect,
                       old(service.cache), service.cache, old(service.trace), service.trace)
              && r == if effect.error.Some? then Failure(effect.error.value) else Success(server(req).value.entry)
    {
      var state := Enter(env);
      if state.Failure? {
        NotStarted(env, state, Unstarted(state.error), old(service.locked), old(service.cache), old(service.trace));
        return Failure(state.error);
      }
      var vEntry := server(req);
      GetSound(state.value, vEntry, req.keyRequest, apiKey);
      var newState: Result<ImmutableState>;
      if vEntry.Failure? {
        newState := Failure(vEntry.error);
      } else {
        newState := StreamVerification(state.value, vEntry.value, req.keyRequest, apiKey);
      }
      var err := CheckThenStore(newState, env, state.value, GetEvidences(state.value, vEntry, req.keyRequest),
                                old(service.cache), old(service.trace));
      r := if err.Some? then Failure(err.value) else Success(vEntry.value.entry);
    }

    method VerifiedSet(key: Bytes, value: Bytes, env: Env, server: VerifiableSetRequest -> Result<VerifiableTx>)
      returns (r: Result<TxHeader>)
      modifies service
      ensures service.locked == old(service.locked)
      ensures var start := old(Start(env));
              var reply := AskSet(start, KeyValue(key, value), server);
              var effect := WriteEffect(Slot(), start, key, value, reply, apiKey, env.setFails(0), signingKey);
              && Ended(old(service.locked), env, Slot(), start, effect,
                       old(service.cache), service.cache, old(service.trace), service.trace)
              && r == if effect.error.Some? then Failure(effect.error.value) else Success(reply.value.tx.header)
    {
      var state := Enter(env);
      if state.Failure? {
        NotStarted(env, state, Unstarted(state.error), old(service.locked), old(service.cache), old(service.trace));
        return Failure(state.error);
      }
      var req := VerifiableSetRequest(KeyValue(key, value), state.value.txId);
      var verifiableTx := server(req);
      SetSound(state.value, key, value, verifiableTx, apiKey);
      var newState := if verifiableTx.Failure? then Failure(verifiableTx.error)
                      else VerifySet(state.value, key, value, verifiableTx.value, apiKey);
      ghost var evs := SetEvidences([KeyValue(key, value)], verifiableTx, newState);
      var err := CheckThenStore(newState, env, state.value, evs, old(service.cache), old(service.trace));
      r := if err.Some? then Failure(err.value) else Success(verifiableTx.value.tx.header);
    }

    /** Store one item's state and check its signature, still holding the lock. */
    method StoreItem(next: Result<ImmutableState>, fails: bool, ghost cached: ImmutableState, ghost evs: seq<Evidence>)
      returns (err: Option<Error>)
      requires service.cache == service.cache[Slot() := cached]
      modifies service`cache, service`trace
      ensures var one := CommitThenCheck(Slot(), cached, Judged(next, evs), fails, signingKey);
              && err == one.error
              && service.cache == old(service.cache)[Slot() := one.state]
              && service.trace == old(service.trace) + one.stores
    {
      if next.Failure? {
        return Some(next.error);
      }
      var set' := service.SetState(apiKey, next.value, fails, evs);
      if set'.Failure? {
        return Some(set'.error);
      }
      if signingKey.Some? && !signingKey.value(next.value) {
        return Some(SignatureMismatch);
      }
      err := None;
    }

    /** One round of the batch loop: verify against the start, store, check the signature. */
    method StoreVerified(start: ImmutableState, item: VerifiableItemExt, req: KeyRequest, fails: bool,
                         ghost cached: ImmutableState, ghost verdict: Verdict) returns (err: Option<Error>)
      requires service.cache == service.cache[Slot() := cached]
      requires verdict == GetVerdict(start, Success(item.item), req, apiKeyHash)
      modifies service`cache, service`trace
      ensures var one := CommitThenCheck(Slot(), cached, verdict, fails, signingKey);
              && err == one.error
              && service.cache == old(service.cache)[Slot() := one.state]
              && service.trace == old(service.trace) + one.stores
    {
      var newState := VerifyGet(start, item.item, req, apiKeyHash);
      err := StoreItem(newState, fails, cached, [GetEvidence(start, item.item, req)]);
    }

    /** The loop over the items of a batch reply. */
    method StoreItems(start: ImmutableState, items: seq<VerifiableItemExt>, errs: seq<string>, reqs: seq<KeyRequest>,
                      env: Env) returns (err: Option<Error>)
      requires |items| == |errs| == |reqs| && service.cache == service.cache[Slot() := start]
      modifies service`cache, service`trace
      ensures var vs := ItemVerdicts(start, items, errs, reqs, apiKeyHash);
              var effect := BatchFrom(Slot(), start, vs, env.setFails, signingKey, 0);
              && err == effect.error
              && service.cache == old(service.cache)[Slot() := effect.state]
              && service.trace == old(service.trace) + effect.stores
    {
      ghost var vs := ItemVerdicts(start, items, errs, reqs, apiKeyHash);
      ghost var cached, stores: seq<Event> := start, [];
      BeforeNothing(BatchFrom(Slot(), start, vs, env.setFails, signingKey, 0));
      err := None;
      var i := 0;
      while i < |items| && err.None?
        invariant i <= |items|
        invariant service.cache == old(service.cache)[Slot() := cached] && service.trace == old(service.trace) + stores
        invariant BatchFrom(Slot(), start, vs, env.setFails, signingKey, 0) ==
                    if err.Some? then Effect(cached, stores, err)
                    else Before(stores, BatchFrom(Slot(), cached, vs, env.setFails, signingKey, i))
        decreases |items| - i
      {
        if errs[i] == "" {
          BeforeStep(Slot(), cached, vs, env.setFails, signingKey, i, stores);
          ghost var one := CommitThenCheck(Slot(), cached, vs[i].value, env.setFails(i), signingKey);
          err := StoreVerified(start, items[i], reqs[i], env.setFails(i), cached, vs[i].value);
          Overwrite(old(service.cache), Slot(), cached, one.state);
          Regroup(old(service.trace), stores, one.stores);
          cached, stores := one.state, stores + one.stores;
        }
        i := i + 1;
      }
      BeforeEnd(stores, cached);
    }

    method VerifiedGetExtMulti(reqs: seq<KeyRequest>, env: Env,
                               server: seq<VerifiableGetRequest> -> Result<MultiReply>)
      returns (items: seq<VerifiableItemExt>, errs: seq<string>, err: Option<Error>)
      modifies service
      ensures service.locked == old(service.locked)
      ensures var start := old(Start(env));
              var reply := AskAll(start, reqs, server);
              var effect := BatchEffect(Slot(), start, reply, reqs, apiKeyHash, env.setFails, signingKey);
              && Ended(old(service.locked), env, Slot(), start, effect,
                       old(service.cache), service.cache, old(service.trace), service.trace)
              && err == effect.error && (items, errs) == BatchReturns(reply, reqs, effect)
    {
      var state := Enter(env);
      if state.Failure? {
        NotStarted(env, state, Unstarted(state.error), old(service.locked), old(service.cache), old(service.trace));
        return [], [], Some(state.error);
      }
      var requests := BuildRequests(reqs, state.value.txId);
      var resp := server(requests);
      items, errs, err := MultiLocked(state.value, reqs, resp, env, old(service.cache), old(service.trace));
    }

    /** The rest of a batch read, under the lock: check the shape of the reply, go through the items. */
    method MultiLocked(start: ImmutableState, reqs: seq<KeyRequest>, resp: Result<MultiReply>, env: Env,
                       ghost cache: map<string, ImmutableState>, ghost trace: seq<Event>)
      returns (items: seq<VerifiableItemExt>, errs: seq<string>, err: Option<Error>)
      requires service.cache == cache[Slot() := start] && service.trace == trace + [Acquire, Fetch(Slot(), start)]
      modifies service
      ensures !service.locked
      ensures var effect := BatchEffect(Slot(), Success(start), resp, reqs, apiKeyHash, env.setFails, signingKey);
              && Ended(false, env, Slot(), Success(start), effect, cache, service.cache, trace, service.trace)
              && err == effect.error && (items, errs) == BatchReturns(resp, reqs, effect)
    {
      ghost var effect := BatchEffect(Slot(), Success(start), resp, reqs, apiKeyHash, env.setFails, signingKey);
      BatchEffectLawful(Slot(), start, resp, reqs, apiKeyHash, env.setFails, signingKey);
      items, errs := [], [];
      if resp.Failure? {
        err := Some(resp.error);
      } else if |resp.value.0| != |reqs| || |resp.value.1| != |reqs| {
        items, errs := resp.value.0, resp.value.1;
        err := Some(CountMismatch);
      } else {
        err := StoreItems(start, resp.value.0, resp.value.1, reqs, env);
        Overwrite(cache, Slot(), start, effect.state);
        if err.None? {
          items, errs := resp.value.0, resp.value.1;
        }
      }
      Leave(env, start, effect, cache, trace);
    }

    method VerifiedGetExtAtMulti(keys: seq<Bytes>, txs: seq<nat>, env: Env,
                                 server: seq<VerifiableGetRequest> -> Result<MultiReply>)
      returns (items: seq<VerifiableItemExt>, errs: seq<string>, err: Option<Error>)
      modifies service
      ensures |keys| != |txs| ==> items == [] && errs == [] && err == Some(InvalidArgument) && unchanged(service)
      ensures |keys| == |txs| ==>
              var start := old(Start(env));
              var reply := AskAll(start, PairUp(keys, txs), server);
              var effect := BatchEffect(Slot(), start, reply, PairUp(keys, txs), apiKeyHash, env.setFails, signingKey);
              && service.locked == old(service.locked)
              && Ended(old(service.locked), env, Slot(), start, effect,
                       old(service.cache), service.cache, old(service.trace), service.trace)
              && err == effect.error && (items, errs) == BatchReturns(reply, PairUp(keys, txs), effect)
    {
      if |keys| != |txs| {
        return [], [], Some(InvalidArgument);
      }
      var reqs: seq<KeyRequest> := [];
      for i := 0 to |keys|
        invariant reqs == PairUp(keys, txs)[..i]
      {
        reqs := reqs + [KeyRequest(keys[i], txs[i], 0)];
      }
      assert reqs == PairUp(keys, txs);
      items, errs, err := VerifiedGetExtMulti(reqs, env, server);
    }

    /** Only a query for one hash can be verified; any other goes to the server without lock or state. */
    method VCNGetArtifacts(req: VCNArtifactsGetRequest, env: Env,
                           server: ArtifactsGetRequest -> Result<seq<ArtifactEntry>>)
      returns (r: Result<seq<ArtifactEntry>>)
      requires |req.hashes| == 1 && req.verify ==> forall q :: server(q).Success? ==> server(q).value != []
      modifies service, req`proveSinceTx
      ensures |req.hashes| > 1 && req.verify ==> r == Failure(InvalidArgument) && unchanged(service) && unchanged(req)
      ensures !req.verify || req.hashes == [] ==> r == old(server(req.Value())) && unchanged(service) && unchanged(req)
      ensures |req.hashes| == 1 && req.verify ==>
              var start := old(Start(env));
              var reply := AskArtifact(start, old(req.Value()), server);
              var effect := ArtifactEffect(Slot(), start, HexDecode(req.hashes[0]), reply, apiKeyHash, env.setFails(0),
                                           signingKey);
              && service.locked == old(service.locked)
              && Ended(old(service.locked), env, Slot(), start, effect,
                       old(service.cache), service.cache, old(service.trace), service.trace)
              && r == ReadReturns(reply, effect)
              && req.proveSinceTx == (if start.Success? then start.value.txId else old(req.proveSinceTx))
    {
      if |req.hashes| > 1 && req.verify {
        return Failure(InvalidArgument);
      }
      if |req.hashes| != 1 || !req.verify {
        return server(req.Value());
      }
      var state := Enter(env);
      if state.Failure? {
        NotStarted(env, state, Unstarted(state.error), old(service.locked), old(service.cache), old(service.trace));
        return Failure(state.error);
      }
      req.proveSinceTx := state.value.txId;
      var resp := server(req.Value());
      var hashDecoded := HexDecode(req.hashes[0]);
      ArtifactBound(state.value, hashDecoded, resp, apiKeyHash);
      var newState: Result<ImmutableState>;
      ghost var evs: seq<Evidence> := [];
      if resp.Failure? {
        newState := Failure(resp.error);
      } else if hashDecoded.None? {
        newState := Failure(InvalidHex);
      } else if !Contains(resp.value[0].proof.immudbFullKey, hashDecoded.value) {
        newState := Failure(CorruptedData);
      } else {
        var vEntry := AssembledEntry(resp.value[0]);
        var kReq := KeyRequest(resp.value[0].proof.immudbFullKey, 0, 0);
        newState := VerifyGet(state.value, vEntry, kReq, apiKeyHash);
        evs := [GetEvidence(state.value, vEntry, kReq)];
      }
      var err := StoreThenCheck(newState, env, state.value, evs, old(service.cache), old(service.trace));
      r := if err.Some? then Failure(err.value) else resp;
    }

    method StreamVerifiedSet(kvs: array<StreamPair>, env: Env, server: (nat, seq<SentPair>) -> Result<VerifiableTx>)
      returns (r: Result<TxHeader>, ghost captured: Option<seq<KeyValue>>, ghost sent: seq<SentPair>)
      modifies service, kvs, ReadersOf(kvs[..])`pending
      ensures kvs.Length == 0 ==> r == Failure(InvalidArgument) && unchanged(service)
      ensures kvs.Length > 0 ==>
              var start := old(Start(env));
              var reply := AskStream(start, sent, server);
              var effect := StreamWriteEffect(Slot(), start, captured, reply, apiKey, env.setFails(0), signingKey);
              && service.locked == old(service.locked)
              && Ended(old(service.locked), env, Slot(), start, effect,
                       old(service.cache), service.cache, old(service.trace), service.trace)
              && r == if effect.error.Some? then Failure(effect.error.value) else Success(reply.value.tx.header)
      ensures kvs.Length > 0 && old(Start(env)).Success? ==>
              CaptureEnds(old(PendingOf(ReadersOf(kvs[..]))), old(kvs[..]), captured, sent)
    {
      hide ReadersOf, PendingOf, CaptureEnds;
      ghost var pairs := kvs[..];
      ghost var readers := ReadersOf(pairs);
      captured, sent := None, [];
      if kvs.Length == 0 {
        return Failure(InvalidArgument), captured, sent;
      }
      var state := Enter(env);
      if state.Failure? {
        NotStarted(env, state, Unstarted(state.error), old(service.locked), old(service.cache), old(service.trace));
        return Failure(state.error), captured, sent;
      }
      assert kvs[..] == pairs && PendingOf(readers) == old(PendingOf(ReadersOf(kvs[..])));
      var stdKVs, streamed := CaptureForSending(kvs);
      captured, sent := stdKVs, streamed;
      r := StreamSetLocked(state.value, stdKVs, streamed, env, server, old(service.cache), old(service.trace));
    }

    /** The rest of a streamed write, under the lock: send, receive, verify, store. */
    method StreamSetLocked(start: ImmutableState, stdKVs: Option<seq<KeyValue>>, streamed: seq<SentPair>, env: Env,
                           server: (nat, seq<SentPair>) -> Result<VerifiableTx>,
                           ghost cache: map<string, ImmutableState>, ghost trace: seq<Event>)
      returns (r: Result<TxHeader>)
      requires service.cache == cache[Slot() := start] && service.trace == trace + [Acquire, Fetch(Slot(), start)]
      modifies service
      ensures !service.locked
      ensures var reply := server(start.txId, streamed);
              var effect := StreamWriteEffect(Slot(), Success(start), stdKVs, reply, apiKey, env.setFails(0),
                                              signingKey);
              && Ended(false, env, Slot(), Success(start), effect, cache, service.cache, trace, service.trace)
              && r == if effect.error.Some? then Failure(effect.error.value) else Success(reply.value.tx.header)
    {
      if stdKVs.None? {
        var failed := CheckThenStore(Failure(ReadFailed), env, start, [], cache, trace);
        return Failure(ReadFailed);
      }
      var verifiableTx := server(start.txId, streamed);
      StreamSetSound(start, stdKVs.value, verifiableTx, apiKey);
      var newState: Result<ImmutableState>;
      if verifiableTx.Failure? {
        newState := Failure(verifiableTx.error);
      } else {
        newState := StreamSetVerification(start, stdKVs.value, verifiableTx.value, apiKey);
      }
      var err := CheckThenStore(newState, env, start, SetEvidences(stdKVs.value, verifiableTx, newState), cache, trace);
      r := if err.Some? then Failure(err.value) else Success(verifiableTx.value.tx.header);
    }
  }
}
