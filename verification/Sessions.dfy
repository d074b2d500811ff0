/**
 The client's methods as calls: each leaves the cache, and does the steps, that the sequences of calls are made
 of, and returns a result exactly when the call counts as accepted there.
 */
module Sessions {
  import opened Wrappers
  import opened ImmuStore
  import opened CacheProtocol
  import opened Operations
  import opened Calls
  import opened StateService
  import opened StreamCapture
  import opened CacheKeys
  import opened Text
  import opened Client

  /** A call of client number `n`, whose checked states have this Db name. */
  ghost function CallOf(c: LcClient, n: nat, db: string, env: Env, x: Exchange): Call
    reads c, c.service
  {
    Call(n, c.Slot(), db, c.signingKey, env, x)
  }

  method VerifiedGet(c: LcClient, ghost n: nat, kReq: KeyRequest, env: Env,
                     server: VerifiableGetRequest -> Result<VerifiableEntry>)
    returns (r: Result<Entry>, ghost call: Call)
    requires !c.service.locked
    modifies c.service
    ensures call == old(CallOf(c, n, c.apiKeyHash, env, Read(kReq, Ask(c.Start(env), kReq, server))))
    ensures Made(call, r.Success?, old(c.service.cache), c.service.cache, old(c.service.trace), c.service.trace)
  {
    call := CallOf(c, n, c.apiKeyHash, env, Read(kReq, Ask(c.Start(env), kReq, server)));
    r := c.VerifiedGet(kReq, env, server);
    EndedAsCalled(call, old(c.service.cache), c.service.cache, old(c.service.trace), c.service.trace);
  }

  method VerifiedGetExt(c: LcClient, ghost n: nat, kReq: KeyRequest, env: Env,
                        server: VerifiableGetRequest -> Result<VerifiableItemExt>)
    returns (r: Result<VerifiableItemExt>, ghost call: Call)
    requires !c.service.locked
    modifies c.service
    ensures call == old(CallOf(c, n, c.apiKeyHash, env, Read(kReq, ItemOf(Ask(c.Start(env), kReq, server)))))
    ensures Made(call, r.Success?, old(c.service.cache), c.service.cache, old(c.service.trace), c.service.trace)
  {
    call := CallOf(c, n, c.apiKeyHash, env, Read(kReq, ItemOf(Ask(c.Start(env), kReq, server))));
    r := c.VerifiedGetExt(kReq, env, server);
    EndedAsCalled(call, old(c.service.cache), c.service.cache, old(c.service.trace), c.service.trace);
  }

  method VerifiedGetExtMulti(c: LcClient, ghost n: nat, reqs: seq<KeyRequest>, env: Env,
                             server: seq<VerifiableGetRequest> -> Result<MultiReply>)
    returns (items: seq<VerifiableItemExt>, errs: seq<string>, err: Option<Error>, ghost call: Call)
    requires !c.service.locked
    modifies c.service
    ensures call == old(CallOf(c, n, c.apiKeyHash, env, BatchRead(reqs, AskAll(c.Start(env), reqs, server))))
    ensures Made(call, err.None?, old(c.service.cache), c.service.cache, old(c.service.trace), c.service.trace)
  {
    call := CallOf(c, n, c.apiKeyHash, env, BatchRead(reqs, AskAll(c.Start(env), reqs, server)));
    items, errs, err := c.VerifiedGetExtMulti(reqs, env, server);
    EndedAsCalled(call, old(c.service.cache), c.service.cache, old(c.service.trace), c.service.trace);
  }

  method VCNGetArtifacts(c: LcClient, ghost n: nat, req: VCNArtifactsGetRequest, env: Env,
                         server: ArtifactsGetRequest -> Result<seq<ArtifactEntry>>)
    returns (r: Result<seq<ArtifactEntry>>, ghost call: Call)
    requires !c.service.locked && |req.hashes| == 1 && req.verify
    requires forall q :: server(q).Success? ==> server(q).value != []
    modifies c.service, req`proveSinceTx
    ensures call == old(CallOf(c, n, c.apiKeyHash, env,
                               ArtifactRead(HexDecode(req.hashes[0]), AskArtifact(c.Start(env), req.Value(), server))))
    ensures Made(call, r.Success?, old(c.service.cache), c.service.cache, old(c.service.trace), c.service.trace)
  {
    call := CallOf(c, n, c.apiKeyHash, env,
                   ArtifactRead(HexDecode(req.hashes[0]), AskArtifact(c.Start(env), req.Value(), server)));
    r := c.VCNGetArtifacts(req, env, server);
    EndedAsCalled(call, old(c.service.cache), c.service.cache, old(c.service.trace), c.service.trace);
  }

  method StreamVerifiedGet(c: LcClient, ghost n: nat, req: VerifiableGetRequest, env: Env,
                           server: VerifiableGetRequest -> Result<VerifiableEntry>)
    returns (r: Result<Entry>, ghost call: Call)
    requires !c.service.locked
    modifies c.service
    ensures call == old(CallOf(c, n, c.apiKey, env, StreamRead(req.keyRequest, server(req))))
    ensures Made(call, r.Success?, old(c.service.cache), c.service.cache, old(c.service.trace), c.service.trace)
  {
    call := CallOf(c, n, c.apiKey, env, StreamRead(req.keyRequest, server(req)));
    r := c.StreamVerifiedGet(req, env, server);
    EndedAsCalled(call, old(c.service.cache), c.service.cache, old(c.service.trace), c.service.trace);
  }

  method VerifiedSet(c: LcClient, ghost n: nat, key: Bytes, value: Bytes, env: Env,
                     server: VerifiableSetRequest -> Result<VerifiableTx>)
    returns (r: Result<TxHeader>, ghost call: Call)
    requires !c.service.locked
    modifies c.service
    ensures var kv := KeyValue(key, value);
            call == old(CallOf(c, n, c.apiKey, env, Write(kv, AskSet(c.Start(env), kv, server))))
    ensures Made(call, r.Success?, old(c.service.cache), c.service.cache, old(c.service.trace), c.service.trace)
  {
    var kv := KeyValue(key, value);
    call := CallOf(c, n, c.apiKey, env, Write(kv, AskSet(c.Start(env), kv, server)));
    r := c.VerifiedSet(key, value, env, server);
    EndedAsCalled(call, old(c.service.cache), c.service.cache, old(c.service.trace), c.service.trace);
  }

  method StreamVerifiedSet(c: LcClient, ghost n: nat, kvs: array<StreamPair>, env: Env,
                           server: (nat, seq<SentPair>) -> Result<VerifiableTx>)
    returns (r: Result<TxHeader>, ghost captured: Option<seq<KeyValue>>, ghost sent: seq<SentPair>, ghost call: Call)
    requires !c.service.locked && kvs.Length > 0
    modifies c.service, kvs, ReadersOf(kvs[..])`pending
    ensures call == old(CallOf(c, n, c.apiKey, env, StreamWrite(captured, AskStream(c.Start(env), sent, server))))
    ensures Made(call, r.Success?, old(c.service.cache), c.service.cache, old(c.service.trace), c.service.trace)
  {
    hide ReadersOf, PendingOf, CaptureEnds, Ended, CacheAfter, EventsOf, StreamWriteEffect;
    r, captured, sent := c.StreamVerifiedSet(kvs, env, server);
    call := old(CallOf(c, n, c.apiKey, env, StreamWrite(captured, AskStream(c.Start(env), sent, server))));
    AcceptedIsNoError(call, old(c.service.cache));
    EndedAsCalled(call, old(c.service.cache), c.service.cache, old(c.service.trace), c.service.trace);
  }
}
