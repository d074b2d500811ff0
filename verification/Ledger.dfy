/** An honest server: a ledger, the replies it builds, and the client accepting them. */
module Ledger {
  import opened Wrappers
  import opened ImmuStore
  import opened History
  import opened GetVerification
  import opened SetVerification

  datatype TxRecord = TxRecord(version: int, entries: seq<EntrySpec>, rest: Bytes)

  /** Transaction `id` is at position `id - 1`. */
  type Ledger = seq<TxRecord>

  function ListedAll(entries: seq<EntrySpec>): (r: seq<TxEntry>)
    ensures |r| == |entries|
    ensures forall i :: 0 <= i < |entries| ==> r[i] == Listed(entries[i])
  {
    seq(|entries|, i requires 0 <= i < |entries| => Listed(entries[i]))
  }

  function Digests(t: TxRecord): seq<Digest> { EntryDigests(t.version, ListedAll(t.entries)) }

  function HeaderAt(l: Ledger, id: nat): TxHeader
    requires 0 < id <= |l|
  {
    var prev := if id == 1 then Arbitrary([]) else Alh(HeaderAt(l, id - 1));
    var t := l[id - 1];
    TxHeader(id, prev, t.version, |t.entries|, Root(Digests(t)), t.rest)
  }

  predicate StateOf(l: Ledger, s: ImmutableState) {
    s.txId <= |l| && (s.txId > 0 ==> s.txHash == Alh(HeaderAt(l, s.txId)))
  }

  lemma {:induction false} LedgerLinked(l: Ledger, i: nat, n: nat)
    requires 0 < i <= n <= |l|
    ensures Linked(Alh(HeaderAt(l, i)), i, Alh(HeaderAt(l, n)), n)
    decreases n
  {
    if i < n {
      LedgerLinked(l, i, n - 1);
    }
  }

  function HonestDual(l: Ledger, i: nat, n: nat): DualProof
    requires 0 < i <= n <= |l|
  {
    DualProof(HeaderAt(l, i), HeaderAt(l, n), Terms(Alh(HeaderAt(l, n)), n - i))
  }

  lemma HonestDualVerifies(l: Ledger, i: nat, n: nat)
    requires 0 < i <= n <= |l|
    ensures VerifyDualProof(HonestDual(l, i, n), i, n, Alh(HeaderAt(l, i)), Alh(HeaderAt(l, n)))
  {
    LedgerLinked(l, i, n);
    TermsRehash(Alh(HeaderAt(l, i)), i, Alh(HeaderAt(l, n)), n - i);
  }

  /** An entry of the key-value space, as writes and references create them. */
  predicate IsKeyEntry(e: EntrySpec) {
    && e.key != [] && e.key == EncodeKey(e.key[1..])
    && (e.value.Indirect? ==> e.value.key != [] && e.value.key == EncodeKey(e.value.key[1..]))
  }

  /** The reply about entry `idx` of transaction `id`, proven since `since`; `resolved` is what a reference leads to. */
  function HonestGet(l: Ledger, id: nat, idx: nat, since: nat, resolved: Bytes, sig: Signature): VerifiableEntry
    requires 0 < id <= |l| && idx < |l[id - 1].entries| && since <= |l|
    requires IsKeyEntry(l[id - 1].entries[idx])
  {
    var stored := l[id - 1].entries[idx];
    var entry :=
      match stored.value
      case Plain(v) => Entry(id, stored.key[1..], v, stored.md, None)
      case Indirect(key, atTx) =>
        Entry(atTx, key[1..], resolved, None, Some(Reference(id, stored.key[1..], atTx, stored.md)));
    var dual := if since == 0 then HonestDual(l, id, id)
                else if since <= id then HonestDual(l, since, id)
                else HonestDual(l, id, since);
    VerifiableEntry(entry,
                    VerifiableTx(Tx(HeaderAt(l, id), ListedAll(l[id - 1].entries)), dual, sig),
                    Path(Digests(l[id - 1]), idx))
  }

  lemma HonestClaim(l: Ledger, id: nat, idx: nat, since: nat, resolved: Bytes, sig: Signature, kReq: KeyRequest)
    requires 0 < id <= |l| && idx < |l[id - 1].entries| && since <= |l|
    requires IsKeyEntry(l[id - 1].entries[idx]) && kReq.key == l[id - 1].entries[idx].key[1..]
    ensures var ve := HonestGet(l, id, idx, since, resolved, sig);
            var stored := ClaimedSpec(ve.entry, kReq);
            && ClaimedTx(ve.entry) == id && stored == l[id - 1].entries[idx]
            && VerifyInclusion(ve.inclusionProof, EntrySpecDigest(l[id - 1].version, stored), HeaderAt(l, id).eh)
  {
    var t := l[id - 1];
    PathIdentifies(Digests(t), idx, EntrySpecDigest(t.version, t.entries[idx]));
  }

  /**
   Completeness: asked to prove since the client's own state, the honest reply is accepted whether the
   transaction is newer, equal or older than the state or the client has no state yet, for direct entries
   and references, and the client ends in the ledger's state at the later transaction.
   */
  lemma HonestGetAccepted(l: Ledger, state: ImmutableState, id: nat, idx: nat, resolved: Bytes, sig: Signature,
                          kReq: KeyRequest, apiKeyHash: string)
    requires StateOf(l, state)
    requires 0 < id <= |l| && idx < |l[id - 1].entries| && SupportedVersion(l[id - 1].version)
    requires IsKeyEntry(l[id - 1].entries[idx]) && kReq.key == l[id - 1].entries[idx].key[1..]
    ensures var r := VerifyGet(state, HonestGet(l, id, idx, state.txId, resolved, sig), kReq, apiKeyHash);
            r.Success? && StateOf(l, r.value) && r.value.txId == Max(state.txId, id)
  {
    HonestClaim(l, id, idx, state.txId, resolved, sig, kReq);
    if state.txId == 0 {
    } else if state.txId <= id {
      HonestDualVerifies(l, state.txId, id);
    } else {
      HonestDualVerifies(l, id, state.txId);
    }
  }

  /**
   The streamed read sends the caller's own `since`.  From a state with transactions the honest reply to it
   is accepted exactly when the caller asked since the trusted state, or asked for no proof about the very
   transaction of that state.  On first use it is accepted exactly when the caller asked since a transaction
   no newer than the entry's, or one with the same entry tree; in the latter case alone the client ends in a
   state that is not the ledger's, and is not anchored either.
   */
  lemma HonestStreamGetAccepted(l: Ledger, state: ImmutableState, id: nat, idx: nat, since: nat, resolved: Bytes,
                                sig: Signature, kReq: KeyRequest, db: string)
    requires StateOf(l, state) && since <= |l|
    requires 0 < id <= |l| && idx < |l[id - 1].entries| && SupportedVersion(l[id - 1].version)
    requires IsKeyEntry(l[id - 1].entries[idx]) && kReq.key == l[id - 1].entries[idx].key[1..]
    ensures var r := VerifyGet(state, HonestGet(l, id, idx, since, resolved, sig), kReq, db);
            && (state.txId > 0 ==> (r.Success? <==> since == state.txId || (since == 0 && id == state.txId)))
            && (state.txId == 0 ==> (r.Success? <==> since <= id || HeaderAt(l, since).eh == HeaderAt(l, id).eh))
            && (r.Success? ==> (StateOf(l, r.value) <==> Anchored(r.value)))
            && (r.Success? ==> (StateOf(l, r.value) <==> state.txId > 0 || since <= id))
  {
    HonestClaim(l, id, idx, since, resolved, sig, kReq);
    if since == state.txId {
      HonestGetAccepted(l, state, id, idx, resolved, sig, kReq, db);
    } else if since == 0 && id == state.txId {
      HonestDualVerifies(l, id, id);
    }
  }

  /**
   The input for the last case: an honest ledger of two transactions with the same contents.  Asked for the
   first one since the second, a new client takes the first ID with the hash of the second.
   */
  lemma HonestServerCanMisanchor(state: ImmutableState, db: string) returns (l: Ledger, kReq: KeyRequest)
    requires state.txId == 0
    ensures |l| == 2 && l[0] == l[1] && |l[0].entries| == 1 && IsKeyEntry(l[0].entries[0])
    ensures var r := VerifyGet(state, HonestGet(l, 1, 0, 2, [], []), kReq, db);
            r.Success? && r.value.txId == 1 && r.value.txHash == Alh(HeaderAt(l, 2)) && !Anchored(r.value)
  {
    var t := TxRecord(1, [EncodeEntrySpec([], None, [])], []);
    l, kReq := [t, t], KeyRequest([], 0, 0);
    assert HeaderAt(l, 2).eh == HeaderAt(l, 1).eh;
    HonestStreamGetAccepted(l, state, 1, 0, 2, [], [], kReq, db);
  }

  /* ---------- Writes ---------- */

  function HonestSet(l: Ledger, id: nat, since: nat, sig: Signature): VerifiableTx
    requires 0 < id <= |l| && since <= id
  {
    var dual := HonestDual(l, if since == 0 then id else since, id);
    VerifiableTx(Tx(HeaderAt(l, id), ListedAll(l[id - 1].entries)), dual, sig)
  }

  lemma HonestAdvance(l: Ledger, state: ImmutableState, id: nat, sig: Signature, db: string)
    requires StateOf(l, state) && state.txId <= id && 0 < id <= |l|
    ensures AdvanceTo(state, HonestSet(l, id, state.txId, sig), db)
         == Success(ImmutableState(db, id, Alh(HeaderAt(l, id)), sig))
  {
    assert TxFromProto(HonestSet(l, id, state.txId, sig).tx).header == HeaderAt(l, id);
    if state.txId > 0 {
      HonestDualVerifies(l, state.txId, id);
    }
  }

  /** A server that commits the requested pair, after any number of other transactions, is accepted. */
  lemma HonestSetAccepted(l: Ledger, state: ImmutableState, id: nat, key: Bytes, value: Bytes, sig: Signature,
                          db: string)
    requires StateOf(l, state) && state.txId <= id && 0 < id <= |l|
    requires SupportedVersion(l[id - 1].version) && l[id - 1].entries == [EncodeEntrySpec(key, None, value)]
    ensures var r := VerifySet(state, key, value, HonestSet(l, id, state.txId, sig), db);
            r.Success? && StateOf(l, r.value) && r.value.txId == id
  {
    HonestAdvance(l, state, id, sig, db);
    var entries := ListedAll(l[id - 1].entries);
    assert entries == [TxEntry(EncodeKey(key), None, ValueHash(Plain(value)))];
    assert !Attributes(entries[0].md).deleted;
    SetExact(state, key, value, HonestSet(l, id, state.txId, sig), db);
  }

  lemma SameCount<T>(a: seq<T>, b: seq<T>)
    requires multiset(a) == multiset(b)
    ensures |a| == |b|
  {
    assert |multiset(a)| == |a| && |multiset(b)| == |b|;
  }

  /**
   When an honestly committed batch under distinct keys is accepted, exactly: the transaction holds the
   requested pairs in whatever order, and in version 1 every pair's metadata is also that of the entry at the
   pair's position.  The client then ends in the ledger's state.
   */
  lemma HonestStreamSetAccepted(l: Ledger, state: ImmutableState, id: nat, kvs: seq<KeyValue>, sig: Signature,
                                db: string)
    requires StateOf(l, state) && state.txId <= id && 0 < id <= |l| && DistinctKeys(kvs) && |kvs| < 0x8000_0000
    ensures var vtx := HonestSet(l, id, state.txId, sig);
            var r := VerifyStreamSet(state, kvs, vtx, db);
            && (r.Success? <==>
                  && SupportedVersion(l[id - 1].version) && ExactlyThePairs(vtx.tx, kvs)
                  && (l[id - 1].version == 0 || (|vtx.tx.entries| == |kvs| && MetadataInPlace(vtx.tx, kvs))))
            && (r.Success? ==> StateOf(l, r.value) && r.value.txId == id)
  {
    var vtx := HonestSet(l, id, state.txId, sig);
    Int32Small(|kvs|);
    PassesExactly(vtx.tx, kvs);
    StreamSetOutcome(state, kvs, vtx, db);
    HonestAdvance(l, state, id, sig, db);
    if ExactlyThePairs(vtx.tx, kvs) {
      SameCount(HeldAll(vtx.tx.entries), WantedAll(kvs));
    }
  }

  /** Without metadata any order is accepted: a server that commits the requested pairs, after other transactions. */
  lemma HonestInAnyOrder(l: Ledger, state: ImmutableState, id: nat, kvs: seq<KeyValue>, sig: Signature, db: string)
    requires StateOf(l, state) && state.txId <= id && 0 < id <= |l| && DistinctKeys(kvs) && |kvs| < 0x8000_0000
    requires SupportedVersion(l[id - 1].version)
    requires forall e | e in l[id - 1].entries :: e.md.None?
    requires multiset(HeldAll(ListedAll(l[id - 1].entries))) == multiset(WantedAll(kvs))
    ensures VerifyStreamSet(state, kvs, HonestSet(l, id, state.txId, sig), db).Success?
  {
    SameCount(HeldAll(ListedAll(l[id - 1].entries)), WantedAll(kvs));
    HonestStreamSetAccepted(l, state, id, kvs, sig, db);
    var entries := HonestSet(l, id, state.txId, sig).tx.entries;
    forall i | 0 <= i < |entries| ensures entries[i].md.None? {
      assert l[id - 1].entries[i] in l[id - 1].entries;
    }
  }

  /** The entries a server makes of a batch, in the order of the request. */
  predicate Requested(entries: seq<EntrySpec>, kvs: seq<KeyValue>) {
    && |entries| == |kvs|
    && forall i :: 0 <= i < |kvs| ==> entries[i] == EncodeEntrySpec(kvs[i].key, None, kvs[i].value)
  }

  lemma RequestedIsHeld(specs: seq<EntrySpec>, kvs: seq<KeyValue>)
    requires Requested(specs, kvs)
    ensures HeldAll(ListedAll(specs)) == WantedAll(kvs)
    ensures forall e | e in specs :: e.md.None?
  {
    var held, wanted := HeldAll(ListedAll(specs)), WantedAll(kvs);
    forall i | 0 <= i < |kvs| ensures held[i] == wanted[i] {
      assert specs[i] == EncodeEntrySpec(kvs[i].key, None, kvs[i].value);
    }
  }
}
