/**
 Completeness of whole operations: the honest server's replies lead to an accepted operation exactly when the
 signing key accepts the state the client computes.
 */
module Completeness {
  import opened Wrappers
  import opened ImmuStore
  import opened History
  import opened GetVerification
  import opened SetVerification
  import opened Ledger
  import opened Operations
  import opened CacheKeys
  import opened StreamCapture
  import opened Client

  /** The states a client takes from an honest ledger, before the signature check. */
  function LedgerState(l: Ledger, db: string, id: nat, sig: Signature): ImmutableState
    requires 0 < id <= |l|
  {
    ImmutableState(db, id, Alh(HeaderAt(l, id)), sig)
  }

  predicate Signed(key: Option<Verifier>, s: ImmutableState) { key.None? || key.value(s) }

  /** A read: the state is stored in any case, and the read succeeds exactly when the signature is good. */
  lemma HonestReadCompletes(l: Ledger, slot: string, state: ImmutableState, id: nat, idx: nat, resolved: Bytes,
                            sig: Signature, kReq: KeyRequest, db: string, key: Option<Verifier>)
    requires StateOf(l, state)
    requires 0 < id <= |l| && idx < |l[id - 1].entries| && SupportedVersion(l[id - 1].version)
    requires IsKeyEntry(l[id - 1].entries[idx]) && kReq.key == l[id - 1].entries[idx].key[1..]
    ensures var reply := HonestGet(l, id, idx, state.txId, resolved, sig);
            var next := LedgerState(l, db, Max(state.txId, id), sig);
            var e := ReadEffect(slot, Success(state), Success(reply), kReq, db, false, key);
            e.state == next && (e.error.None? <==> Signed(key, next))
  {
    HonestGetAccepted(l, state, id, idx, resolved, sig, kReq, db);
  }

  /** A streamed read proven since the client's state: accepted, and stored, exactly when the signature is good. */
  lemma HonestStreamReadCompletes(l: Ledger, slot: string, state: ImmutableState, id: nat, idx: nat, resolved: Bytes,
                                  sig: Signature, kReq: KeyRequest, db: string, key: Option<Verifier>)
    requires StateOf(l, state)
    requires 0 < id <= |l| && idx < |l[id - 1].entries| && SupportedVersion(l[id - 1].version)
    requires IsKeyEntry(l[id - 1].entries[idx]) && kReq.key == l[id - 1].entries[idx].key[1..]
    ensures var reply := HonestGet(l, id, idx, state.txId, resolved, sig);
            var next := LedgerState(l, db, Max(state.txId, id), sig);
            var e := StreamReadEffect(slot, Success(state), Success(reply), kReq, db, false, key);
            (e.error.None? <==> Signed(key, next)) && e.state == (if Signed(key, next) then next else state)
  {
    HonestGetAccepted(l, state, id, idx, resolved, sig, kReq, db);
  }

  /** A single write of an honestly committed pair: accepted, and stored, exactly when the signature is good. */
  lemma HonestWriteCompletes(l: Ledger, slot: string, state: ImmutableState, id: nat, k: Bytes, value: Bytes,
                             sig: Signature, db: string, key: Option<Verifier>)
    requires StateOf(l, state) && state.txId <= id && 0 < id <= |l|
    requires SupportedVersion(l[id - 1].version) && l[id - 1].entries == [EncodeEntrySpec(k, None, value)]
    ensures var reply := HonestSet(l, id, state.txId, sig);
            var next := LedgerState(l, db, id, sig);
            var e := WriteEffect(slot, Success(state), k, value, Success(reply), db, false, key);
            (e.error.None? <==> Signed(key, next)) && e.state == (if Signed(key, next) then next else state)
  {
    HonestSetAccepted(l, state, id, k, value, sig, db);
    HonestAdvance(l, state, id, sig, db);
    SetExact(state, k, value, HonestSet(l, id, state.txId, sig), db);
  }

  /** A batch write under distinct keys: moreover exactly when the entries are the requested ones. */
  lemma HonestStreamWriteCompletes(l: Ledger, slot: string, state: ImmutableState, id: nat, kvs: seq<KeyValue>,
                                   sig: Signature, db: string, key: Option<Verifier>)
    requires StateOf(l, state) && state.txId <= id && 0 < id <= |l| && DistinctKeys(kvs) && |kvs| < 0x8000_0000
    ensures var reply := HonestSet(l, id, state.txId, sig);
            var next := LedgerState(l, db, id, sig);
            var e := StreamWriteEffect(slot, Success(state), Some(kvs), Success(reply), db, false, key);
            && (e.error.None? <==>
                  && Signed(key, next)
                  && SupportedVersion(l[id - 1].version) && ExactlyThePairs(reply.tx, kvs)
                  && (l[id - 1].version == 0 || (|reply.tx.entries| == |kvs| && MetadataInPlace(reply.tx, kvs))))
            && e.state == (if e.error.None? then next else state)
  {
    HonestStreamSetAccepted(l, state, id, kvs, sig, db);
    HonestAdvance(l, state, id, sig, db);
    StreamSetOutcome(state, kvs, HonestSet(l, id, state.txId, sig), db);
  }

  /* ---------- Through the requests ---------- */

  /** A read of a server that answers this request, with whatever transaction to prove since. */
  lemma HonestReadAsked(l: Ledger, slot: string, state: ImmutableState, id: nat, idx: nat, resolved: Bytes,
                        sig: Signature, kReq: KeyRequest, db: string, key: Option<Verifier>,
                        server: VerifiableGetRequest -> Result<VerifiableEntry>)
    requires StateOf(l, state)
    requires 0 < id <= |l| && idx < |l[id - 1].entries| && SupportedVersion(l[id - 1].version)
    requires IsKeyEntry(l[id - 1].entries[idx]) && kReq.key == l[id - 1].entries[idx].key[1..]
    requires forall since: nat | since <= |l| ::
               server(VerifiableGetRequest(kReq, since)) == Success(HonestGet(l, id, idx, since, resolved, sig))
    ensures var next := LedgerState(l, db, Max(state.txId, id), sig);
            var e := ReadEffect(slot, Success(state), Ask(Success(state), kReq, server), kReq, db, false, key);
            e.state == next && (e.error.None? <==> Signed(key, next))
  {
    HonestReadCompletes(l, slot, state, id, idx, resolved, sig, kReq, db, key);
  }

  /** The same for the extended read, whatever the extra data. */
  lemma HonestReadExtAsked(l: Ledger, slot: string, state: ImmutableState, id: nat, idx: nat, resolved: Bytes,
                           sig: Signature, kReq: KeyRequest, db: string, key: Option<Verifier>, extra: Bytes,
                           server: VerifiableGetRequest -> Result<VerifiableItemExt>)
    requires StateOf(l, state)
    requires 0 < id <= |l| && idx < |l[id - 1].entries| && SupportedVersion(l[id - 1].version)
    requires IsKeyEntry(l[id - 1].entries[idx]) && kReq.key == l[id - 1].entries[idx].key[1..]
    requires forall since: nat | since <= |l| ::
               server(VerifiableGetRequest(kReq, since))
               == Success(VerifiableItemExt(HonestGet(l, id, idx, since, resolved, sig), extra))
    ensures var next := LedgerState(l, db, Max(state.txId, id), sig);
            var e := ReadEffect(slot, Success(state), ItemOf(Ask(Success(state), kReq, server)), kReq, db, false, key);
            e.state == next && (e.error.None? <==> Signed(key, next))
  {
    HonestReadCompletes(l, slot, state, id, idx, resolved, sig, kReq, db, key);
  }

  /** The reply about an artifact: a plain entry under its full key. */
  function HonestArtifact(l: Ledger, id: nat, idx: nat, since: nat, sig: Signature): ArtifactEntry
    requires 0 < id <= |l| && idx < |l[id - 1].entries| && since <= |l|
    requires IsKeyEntry(l[id - 1].entries[idx]) && l[id - 1].entries[idx].value.Plain?
  {
    var stored := l[id - 1].entries[idx];
    var ve := HonestGet(l, id, idx, since, [], sig);
    ArtifactEntry(id, stored.value.value,
                  ArtifactProof(ve.verifiableTx, ve.inclusionProof, stored.md, stored.key[1..]))
  }

  /** A verified artifact read, if the stored full key is the hash with something before and after. */
  lemma HonestArtifactAsked(l: Ledger, slot: string, state: ImmutableState, id: nat, idx: nat, front: Bytes,
                            hash: Bytes, back: Bytes, sig: Signature, q: ArtifactsGetRequest, db: string,
                            key: Option<Verifier>, server: ArtifactsGetRequest -> Result<seq<ArtifactEntry>>)
    requires StateOf(l, state)
    requires 0 < id <= |l| && idx < |l[id - 1].entries| && SupportedVersion(l[id - 1].version)
    requires IsKeyEntry(l[id - 1].entries[idx]) && l[id - 1].entries[idx].value.Plain?
    requires l[id - 1].entries[idx].key[1..] == front + hash + back
    requires forall since: nat | since <= |l| ::
               server(q.(proveSinceTx := since)) == Success([HonestArtifact(l, id, idx, since, sig)])
    ensures var next := LedgerState(l, db, Max(state.txId, id), sig);
            var reply := AskArtifact(Success(state), q, server);
            var e := ArtifactEffect(slot, Success(state), Some(hash), reply, db, false, key);
            e.state == next && (e.error.None? <==> Signed(key, next))
  {
    var a := HonestArtifact(l, id, idx, state.txId, sig);
    ContainsMeans(a.proof.immudbFullKey, hash);
    assert a.proof.immudbFullKey == front + hash + back;
    HonestReadCompletes(l, slot, state, id, idx, [], sig, KeyRequest(a.proof.immudbFullKey, 0, 0), db, key);
    assert AssembledEntry(a) == HonestGet(l, id, idx, state.txId, [], sig);
  }

  lemma {:induction false} HeadersStay(l: Ledger, t: TxRecord, id: nat)
    requires 0 < id <= |l|
    ensures HeaderAt(l + [t], id) == HeaderAt(l, id)
    decreases id
  {
    if id > 1 {
      HeadersStay(l, t, id - 1);
    }
  }

  /** States of a ledger stay states of it when it grows. */
  lemma StatesStay(l: Ledger, t: TxRecord, s: ImmutableState)
    requires StateOf(l, s)
    ensures StateOf(l + [t], s)
  {
    if s.txId > 0 {
      HeadersStay(l, t, s.txId);
    }
  }

  /** The ledger after committing one pair. */
  function Committed(l: Ledger, kv: KeyValue): Ledger {
    l + [TxRecord(1, [EncodeEntrySpec(kv.key, None, kv.value)], [])]
  }

  /** A single write to a server that commits the pair it is asked to commit. */
  lemma HonestWriteAsked(l: Ledger, slot: string, state: ImmutableState, k: Bytes, value: Bytes, sig: Signature,
                         db: string, key: Option<Verifier>, server: VerifiableSetRequest -> Result<VerifiableTx>)
    requires StateOf(l, state)
    requires forall kv: KeyValue, since: nat | since <= |l| ::
               server(VerifiableSetRequest(kv, since)) == Success(HonestSet(Committed(l, kv), |l| + 1, since, sig))
    ensures var next := LedgerState(Committed(l, KeyValue(k, value)), db, |l| + 1, sig);
            var reply := AskSet(Success(state), KeyValue(k, value), server);
            var e := WriteEffect(slot, Success(state), k, value, reply, db, false, key);
            (e.error.None? <==> Signed(key, next)) && e.state == (if Signed(key, next) then next else state)
  {
    var kv := KeyValue(k, value);
    StatesStay(l, Committed(l, kv)[|l|], state);
    HonestWriteCompletes(Committed(l, kv), slot, state, |l| + 1, k, value, sig, db, key);
  }

  function SpecsOf(sent: seq<SentPair>): (r: seq<EntrySpec>)
    ensures |r| == |sent|
    ensures forall i :: 0 <= i < |r| ==> r[i] == EncodeEntrySpec(sent[i].kv.key, None, sent[i].kv.value)
  {
    seq(|sent|, i requires 0 <= i < |sent| => EncodeEntrySpec(sent[i].kv.key, None, sent[i].kv.value))
  }

  /** The ledger after committing the pairs sent. */
  function CommittedAll(l: Ledger, sent: seq<SentPair>): Ledger { l + [TxRecord(1, SpecsOf(sent), [])] }

  /** A batch write, with full Reads and distinct keys, to a server that commits the pairs it is sent. */
  lemma HonestStreamWriteAsked(l: Ledger, slot: string, state: ImmutableState, kvs: seq<StreamPair>,
                               captured: seq<KeyValue>, delivered: seq<KeyValue>, sig: Signature, db: string,
                               key: Option<Verifier>, server: (nat, seq<SentPair>) -> Result<VerifiableTx>)
    requires StateOf(l, state) && CapturedAs(captured, delivered, kvs) && AllFull(delivered, kvs)
    requires DistinctKeys(captured) && |kvs| < 0x8000_0000
    requires forall since: nat, sent: seq<SentPair> | since <= |l| ::
               server(since, sent) == Success(HonestSet(CommittedAll(l, sent), |l| + 1, since, sig))
    ensures var sent := Declared(delivered, kvs);
            var next := LedgerState(CommittedAll(l, sent), db, |l| + 1, sig);
            var reply := AskStream(Success(state), sent, server);
            var e := StreamWriteEffect(slot, Success(state), Some(captured), reply, db, false, key);
            (e.error.None? <==> Signed(key, next)) && e.state == (if Signed(key, next) then next else state)
  {
    var sent := Declared(delivered, kvs);
    var after := CommittedAll(l, sent);
    StatesStay(l, after[|l|], state);
    CapturedIsSent(map[], kvs, captured, delivered);
    assert captured == delivered;
    RequestedIsHeld(SpecsOf(sent), captured);
    HonestInAnyOrder(after, state, |l| + 1, captured, sig, db);
    HonestStreamSetAccepted(after, state, |l| + 1, captured, sig, db);
    HonestStreamWriteCompletes(after, slot, state, |l| + 1, captured, sig, db, key);
  }

  /** The answers to a list of requests, one by one and without errors. */
  function Answers(answer: VerifiableGetRequest -> VerifiableItemExt, rs: seq<VerifiableGetRequest>)
    : (r: seq<VerifiableItemExt>)
    ensures |r| == |rs| && forall i :: 0 <= i < |r| ==> r[i] == answer(rs[i])
  {
    seq(|rs|, i requires 0 <= i < |rs| => answer(rs[i]))
  }

  function NoErrors(n: nat): (r: seq<string>)
    ensures |r| == n && forall i :: 0 <= i < n ==> r[i] == ""
  {
    seq(n, _ => "")
  }

  /** Without errors, item `i` verified against the start gives state `i`. */
  predicate AllVerify(start: ImmutableState, reply: MultiReply, reqs: seq<KeyRequest>, db: string,
                      nexts: seq<ImmutableState>)
  {
    && |reply.0| == |reply.1| == |reqs| == |nexts|
    && forall i :: 0 <= i < |reqs| ==>
         reply.1[i] == "" && VerifyGet(start, reply.0[i].item, reqs[i], db) == Success(nexts[i])
  }

  /**
   A batch read on this reply is accepted exactly when the key accepts all these states; then the reply is handed
   over, and the client ends in the last of them.
   */
  predicate AcceptedIfSigned(slot: string, start: ImmutableState, reply: Result<MultiReply>, reqs: seq<KeyRequest>,
                             db: string, key: Option<Verifier>, nexts: seq<ImmutableState>)
  {
    var e := BatchEffect(slot, Success(start), reply, reqs, db, NeverFails, key);
    && (e.error.None? <==> forall i :: 0 <= i < |nexts| ==> Signed(key, nexts[i]))
    && (e.error.None? ==> Success(BatchReturns(reply, reqs, e)) == reply)
    && (e.error.None? ==> e.state == if nexts == [] then start else nexts[|nexts| - 1])
  }

  /** So it is when all items verify. */
  lemma GoodBatch(slot: string, start: ImmutableState, reply: MultiReply, reqs: seq<KeyRequest>, db: string,
                  key: Option<Verifier>, nexts: seq<ImmutableState>)
    requires AllVerify(start, reply, reqs, db, nexts)
    ensures AcceptedIfSigned(slot, start, Success(reply), reqs, db, key, nexts)
  {
    var vs := ItemVerdicts(start, reply.0, reply.1, reqs, db);
    forall i | 0 <= i < |nexts|
      ensures vs[i].Some? && vs[i].value.Success? && vs[i].value.value.0 == nexts[i]
    {
      assert reply.1[i] == "";
    }
    var stop := BatchOutcome(slot, start, vs, NeverFails, key);
    if stop < |vs| {
      assert !Signed(key, nexts[stop]);
    } else {
      forall i | 0 <= i < |nexts| ensures Signed(key, nexts[i]) {
        assert vs[i].Some? && ItemOk(vs[i].value, false, key);
      }
    }
  }

  /** A request, and the entry of the ledger it is about. */
  datatype Target = Target(kReq: KeyRequest, id: nat, idx: nat)

  predicate OnLedger(l: Ledger, t: Target) {
    && 0 < t.id <= |l| && t.idx < |l[t.id - 1].entries| && SupportedVersion(l[t.id - 1].version)
    && IsKeyEntry(l[t.id - 1].entries[t.idx]) && t.kReq.key == l[t.id - 1].entries[t.idx].key[1..]
  }

  predicate AllOnLedger(l: Ledger, ts: seq<Target>) {
    forall i :: 0 <= i < |ts| ==> OnLedger(l, ts[i])
  }

  function KeyRequests(ts: seq<Target>): (r: seq<KeyRequest>)
    ensures |r| == |ts| && forall i :: 0 <= i < |r| ==> r[i] == ts[i].kReq
  {
    seq(|ts|, i requires 0 <= i < |ts| => ts[i].kReq)
  }

  /** The states the client takes from the answers. */
  function Nexts(l: Ledger, state: ImmutableState, db: string, sig: Signature, ts: seq<Target>)
    : (r: seq<ImmutableState>)
    requires StateOf(l, state) && AllOnLedger(l, ts)
    ensures |r| == |ts| && forall i :: 0 <= i < |r| ==> r[i] == LedgerState(l, db, Max(state.txId, ts[i].id), sig)
  {
    seq(|ts|, i requires 0 <= i < |ts| =>
      assert OnLedger(l, ts[i]);
      LedgerState(l, db, Max(state.txId, ts[i].id), sig))
  }

  /** The server's answer for one target, whatever it is asked to prove since. */
  ghost predicate AnswersHonestly(l: Ledger, t: Target, resolved: Bytes, sig: Signature,
                                  answer: VerifiableGetRequest -> VerifiableItemExt)
    requires OnLedger(l, t)
  {
    forall since: nat | since <= |l| ::
      answer(VerifiableGetRequest(t.kReq, since)).item == HonestGet(l, t.id, t.idx, since, resolved, sig)
  }

  lemma HonestItem(l: Ledger, state: ImmutableState, resolved: Bytes, sig: Signature, t: Target, db: string,
                   answer: VerifiableGetRequest -> VerifiableItemExt)
    requires StateOf(l, state) && OnLedger(l, t) && AnswersHonestly(l, t, resolved, sig, answer)
    ensures VerifyGet(state, answer(VerifiableGetRequest(t.kReq, state.txId)).item, t.kReq, db)
         == Success(LedgerState(l, db, Max(state.txId, t.id), sig))
  {
    HonestGetAccepted(l, state, t.id, t.idx, resolved, sig, t.kReq, db);
  }

  lemma HonestItems(l: Ledger, state: ImmutableState, resolved: Bytes, sig: Signature, ts: seq<Target>, db: string,
                    answer: VerifiableGetRequest -> VerifiableItemExt)
    requires StateOf(l, state) && AllOnLedger(l, ts)
    requires forall i :: 0 <= i < |ts| ==> AnswersHonestly(l, ts[i], resolved, sig, answer)
    ensures var asked := Requests(KeyRequests(ts), state.txId);
            AllVerify(state, (Answers(answer, asked), NoErrors(|asked|)), KeyRequests(ts), db,
                      Nexts(l, state, db, sig, ts))
  {
    hide VerifyGet, LedgerState;
    var asked := Requests(KeyRequests(ts), state.txId);
    forall i | 0 <= i < |ts|
      ensures VerifyGet(state, Answers(answer, asked)[i].item, KeyRequests(ts)[i], db)
           == Success(Nexts(l, state, db, sig, ts)[i])
    {
      assert asked[i] == VerifiableGetRequest(ts[i].kReq, state.txId);
      HonestItem(l, state, resolved, sig, ts[i], db, answer);
    }
  }

  /** A batch read of a server that answers each request for itself. */
  lemma HonestBatchAsked(l: Ledger, slot: string, state: ImmutableState, resolved: Bytes, sig: Signature,
                         ts: seq<Target>, db: string, key: Option<Verifier>,
                         answer: VerifiableGetRequest -> VerifiableItemExt,
                         server: seq<VerifiableGetRequest> -> Result<MultiReply>)
    requires StateOf(l, state) && AllOnLedger(l, ts)
    requires forall i :: 0 <= i < |ts| ==> AnswersHonestly(l, ts[i], resolved, sig, answer)
    requires forall rs :: server(rs) == Success((Answers(answer, rs), NoErrors(|rs|)))
    ensures var reqs := KeyRequests(ts);
            var reply := AskAll(Success(state), reqs, server);
            AcceptedIfSigned(slot, state, reply, reqs, db, key, Nexts(l, state, db, sig, ts))
  {
    hide AllVerify, AcceptedIfSigned;
    var asked := Requests(KeyRequests(ts), state.txId);
    HonestItems(l, state, resolved, sig, ts, db, answer);
    GoodBatch(slot, state, (Answers(answer, asked), NoErrors(|asked|)), KeyRequests(ts), db, key,
              Nexts(l, state, db, sig, ts));
  }
}
