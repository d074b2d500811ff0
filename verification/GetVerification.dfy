/**
 The decision procedure of a verified read, and what acceptance means: the proven entry is recorded on
 the history of the new trusted state, which continues the old one.
 */
module GetVerification {
  import opened Wrappers
  import opened ImmuStore
  import opened History

  /** The transaction whose entry the reply claims to prove. */
  function ClaimedTx(entry: Entry): nat {
    if entry.referencedBy.None? then entry.tx else entry.referencedBy.value.tx
  }

  /** The entry the reply claims to prove: the requested key's, or a reference named by the reply. */
  function ClaimedSpec(entry: Entry, kReq: KeyRequest): EntrySpec {
    if entry.referencedBy.None? then
      EncodeEntrySpec(kReq.key, entry.metadata, entry.value)
    else
      var ref := entry.referencedBy.value;
      EncodeReference(ref.key, ref.metadata, entry.key, ref.atTx)
  }

  function VerifyGet(state: ImmutableState, ve: VerifiableEntry, kReq: KeyRequest, apiKeyHash: string)
    : Result<ImmutableState>
  {
    var version := ve.verifiableTx.tx.header.version;
    var dualProof := ve.verifiableTx.dualProof;
    var vTx := ClaimedTx(ve.entry);
    var (eh, sourceID, sourceAlh, targetID, targetAlh) :=
      if state.txId <= vTx then
        (dualProof.target.eh, state.txId, state.txHash, vTx, Alh(dualProof.target))
      else
        (dualProof.source.eh, vTx, Alh(dualProof.source), state.txId, state.txHash);
    if !SupportedVersion(version) then Failure(UnsupportedTxVersion)
    else if !VerifyInclusion(ve.inclusionProof, EntrySpecDigest(version, ClaimedSpec(ve.entry, kReq)), eh) then
      Failure(CorruptedData)
    else if state.txId > 0 && !VerifyDualProof(dualProof, sourceID, targetID, sourceAlh, targetAlh) then
      Failure(CorruptedData)
    else
      Success(ImmutableState(apiKeyHash, targetID, targetAlh, ve.verifiableTx.signature))
  }

  /** What an accepted reply is evidence of. */
  function GetEvidence(state: ImmutableState, ve: VerifiableEntry, kReq: KeyRequest): Evidence {
    var dualProof := ve.verifiableTx.dualProof;
    var header := if state.txId <= ClaimedTx(ve.entry) then dualProof.target else dualProof.source;
    Evidence(ClaimedTx(ve.entry), Alh(header),
             EntrySpecDigest(ve.verifiableTx.tx.header.version, ClaimedSpec(ve.entry, kReq)))
  }

  function Max(a: nat, b: nat): nat { if a <= b then b else a }

  /* ---------- Soundness ---------- */

  /**
   From a state with transactions.  Acceptance itself shows that the state was anchored.  The new state is
   at the later of the two transactions; the hash moves only for a strictly newer transaction, the equal
   case included, because there the dual proof is between two equal hashes.
   */
  lemma GetTransition(state: ImmutableState, ve: VerifiableEntry, kReq: KeyRequest, apiKeyHash: string)
    requires state.txId > 0 && VerifyGet(state, ve, kReq, apiKeyHash).Success?
    ensures var next := VerifyGet(state, ve, kReq, apiKeyHash).value;
            && Anchored(state) && Anchored(next) && Extends(next, state)
            && next.txId == Max(state.txId, ClaimedTx(ve.entry))
            && (ClaimedTx(ve.entry) <= state.txId ==> next.txHash == state.txHash)
            && Recorded(next, GetEvidence(state, ve, kReq))
  {
    var next := VerifyGet(state, ve, kReq, apiKeyHash).value;
    var ev := GetEvidence(state, ve, kReq);
    var p := ve.verifiableTx.dualProof;
    if state.txId <= ClaimedTx(ve.entry) {
      DualProofSound(p, state.txId, next.txId, state.txHash, next.txHash);
      InclusionSound(ve.inclusionProof, ev.leaf, p.target.eh);
    } else {
      DualProofSound(p, ev.txId, state.txId, ev.txAlh, state.txHash);
      InclusionSound(ve.inclusionProof, ev.leaf, p.source.eh);
    }
  }

  /**
   First use.  There is no dual proof: the state takes the claimed ID together with the hash of whatever
   target header the reply carries, so it is anchored exactly when that header has the claimed ID.
   */
  lemma FirstUse(state: ImmutableState, ve: VerifiableEntry, kReq: KeyRequest, apiKeyHash: string)
    requires state.txId == 0 && VerifyGet(state, ve, kReq, apiKeyHash).Success?
    ensures var next := VerifyGet(state, ve, kReq, apiKeyHash).value;
            var target := ve.verifiableTx.dualProof.target;
            && next.txId == ClaimedTx(ve.entry) && next.txHash == Alh(target)
            && InTree(GetEvidence(state, ve, kReq).leaf, target.eh)
            && (Anchored(next) <==> ClaimedTx(ve.entry) == 0 || target.id == ClaimedTx(ve.entry))
            && (next.txId > 0 && Anchored(next) ==> Recorded(next, GetEvidence(state, ve, kReq)))
  {
    InclusionSound(ve.inclusionProof, GetEvidence(state, ve, kReq).leaf, ve.verifiableTx.dualProof.target.eh);
  }

  /** A first-use reply that is accepted and leaves the state at ID 5 with the hash of transaction 7. */
  lemma FirstUseCanMisanchor(key: Bytes, value: Bytes) returns (ve: VerifiableEntry)
    ensures forall state: ImmutableState, atTx, sinceTx, apiKeyHash | state.txId == 0 ::
              var r := VerifyGet(state, ve, KeyRequest(key, atTx, sinceTx), apiKeyHash);
              r.Success? && !Anchored(r.value)
  {
    var leaf := EntrySpecDigest(1, EncodeEntrySpec(key, None, value));
    var header := TxHeader(7, EmptyTree, 1, 1, Leaf(leaf), []);
    ve := VerifiableEntry(Entry(5, key, value, None, None),
                          VerifiableTx(Tx(header, []), DualProof(header, header, []), []), []);
  }

  /** A misanchored state never accepts anything again: no reply can move it. */
  lemma MisanchoredIsStuck(state: ImmutableState, ve: VerifiableEntry, kReq: KeyRequest, apiKeyHash: string)
    requires !Anchored(state)
    ensures VerifyGet(state, ve, kReq, apiKeyHash).Failure?
  {
    if VerifyGet(state, ve, kReq, apiKeyHash).Success? {
      GetTransition(state, ve, kReq, apiKeyHash);
    }
  }

  /** Every accepted read justifies the state it stores. */
  lemma GetJustified(state: ImmutableState, ve: VerifiableEntry, kReq: KeyRequest, apiKeyHash: string)
    requires VerifyGet(state, ve, kReq, apiKeyHash).Success?
    ensures Justified(state, VerifyGet(state, ve, kReq, apiKeyHash).value, [GetEvidence(state, ve, kReq)])
  {
    if state.txId > 0 {
      GetTransition(state, ve, kReq, apiKeyHash);
    } else {
      FirstUse(state, ve, kReq, apiKeyHash);
    }
  }

  /* ---------- Completeness ---------- */

  function PathTo(entry: Digest, root: Digest): InclusionProof
    requires InTree(entry, root)
  {
    if root == Leaf(entry) then []
    else if InTree(entry, root.left) then PathTo(entry, root.left) + [Step(root.right, false)]
    else PathTo(entry, root.right) + [Step(root.left, true)]
  }

  lemma {:induction false} PathToVerifies(entry: Digest, root: Digest)
    requires InTree(entry, root)
    ensures VerifyInclusion(PathTo(entry, root), entry, root)
    decreases root
  {
    if root != Leaf(entry) {
      var child := if InTree(entry, root.left) then root.left else root.right;
      PathToVerifies(entry, child);
      var p := PathTo(entry, child);
      assert PathTo(entry, root)[..|p|] == p;
    }
  }

  /** Some proof makes the client move from `state` to `next` on this entry. */
  ghost predicate Acceptable(state: ImmutableState, next: ImmutableState, entry: Entry, kReq: KeyRequest, version: int)
  {
    exists vtx: VerifiableTx, path: InclusionProof ::
      vtx.tx.header.version == version
      && VerifyGet(state, VerifiableEntry(entry, vtx, path), kReq, next.db) == Success(next)
  }

  /**
   The meaning of acceptance, without proofs.  From a state with transactions: the entry is recorded on a
   history that continues the old one.  On first use: it is in the tree of the stored hash's header.
   */
  ghost predicate Truthful(state: ImmutableState, next: ImmutableState, txId: nat, leaf: Digest) {
    if state.txId == 0 then
      && next.txId == txId && next.txHash.AlhNode? && next.txHash.inner.InnerNode?
      && InTree(leaf, next.txHash.inner.eh)
    else
      && Anchored(state) && Anchored(next) && Extends(next, state)
      && next.txId == Max(state.txId, txId)
      && exists alh :: Recorded(next, Evidence(txId, alh, leaf))
  }

  lemma FirstUseIsAcceptable(state: ImmutableState, next: ImmutableState, entry: Entry, kReq: KeyRequest, version: int)
    requires state.txId == 0 && SupportedVersion(version)
    requires Truthful(state, next, ClaimedTx(entry), EntrySpecDigest(version, ClaimedSpec(entry, kReq)))
    ensures Acceptable(state, next, entry, kReq, version)
  {
    var leaf := EntrySpecDigest(version, ClaimedSpec(entry, kReq));
    var target := HeaderOf(next.txHash);
    PathToVerifies(leaf, target.eh);
    var vtx := VerifiableTx(Tx(target.(version := version), []), DualProof(target, target, []), next.signature);
    var ve := VerifiableEntry(entry, vtx, PathTo(leaf, target.eh));
    assert VerifyGet(state, ve, kReq, next.db) == Success(next);
  }

  lemma TruthfulIsAcceptable(state: ImmutableState, next: ImmutableState, entry: Entry, kReq: KeyRequest,
                             version: int, alh: Digest)
    requires state.txId > 0 && SupportedVersion(version)
    requires Anchored(state) && Anchored(next) && Extends(next, state)
    requires next.txId == Max(state.txId, ClaimedTx(entry))
    requires Recorded(next, Evidence(ClaimedTx(entry), alh, EntrySpecDigest(version, ClaimedSpec(entry, kReq))))
    ensures Acceptable(state, next, entry, kReq, version)
  {
    var vTx := ClaimedTx(entry);
    var leaf := EntrySpecDigest(version, ClaimedSpec(entry, kReq));
    var (s, i) := if state.txId <= vTx then (state.txHash, state.txId) else (alh, vTx);
    TermsRehash(s, i, next.txHash, next.txId - i);
    var dual := DualProof(HeaderOf(s), HeaderOf(next.txHash), Terms(next.txHash, next.txId - i));
    PathToVerifies(leaf, alh.inner.eh);
    var header := dual.target.(version := version);
    var ve := VerifiableEntry(entry, VerifiableTx(Tx(header, []), dual, next.signature), PathTo(leaf, alh.inner.eh));
    assert VerifyGet(state, ve, kReq, next.db) == Success(next);
  }

  /**
   Exactness: the client can be brought from `state` to `next` by a reply about an entry if and only if the
   transaction's version is 0 or 1 and, from a state with transactions, the entry is recorded on the history of
   `next` and `next` continues `state`; on first use, `next` is the claimed ID with the hash of any header that
   holds the entry.
   */
  lemma GetExact(state: ImmutableState, next: ImmutableState, entry: Entry, kReq: KeyRequest, version: int)
    ensures Acceptable(state, next, entry, kReq, version) <==>
              && (version == 0 || version == 1)
              && Truthful(state, next, ClaimedTx(entry), EntrySpecDigest(version, ClaimedSpec(entry, kReq)))
  {
    var leaf := EntrySpecDigest(version, ClaimedSpec(entry, kReq));
    if Acceptable(state, next, entry, kReq, version) {
      var vtx: VerifiableTx, path: InclusionProof :|
        vtx.tx.header.version == version
        && VerifyGet(state, VerifiableEntry(entry, vtx, path), kReq, next.db) == Success(next);
      var ve := VerifiableEntry(entry, vtx, path);
      if state.txId == 0 {
        FirstUse(state, ve, kReq, next.db);
      } else {
        GetTransition(state, ve, kReq, next.db);
        assert Recorded(next, Evidence(ClaimedTx(entry), GetEvidence(state, ve, kReq).txAlh, leaf));
      }
    }
    if (version == 0 || version == 1) && Truthful(state, next, ClaimedTx(entry), leaf) {
      if state.txId == 0 {
        FirstUseIsAcceptable(state, next, entry, kReq, version);
      } else {
        var alh :| Recorded(next, Evidence(ClaimedTx(entry), alh, leaf));
        TruthfulIsAcceptable(state, next, entry, kReq, version, alh);
      }
    }
  }

  /** Which error a rejected reply gets: an unknown version is told apart, whatever else is wrong. */
  lemma GetErrors(state: ImmutableState, ve: VerifiableEntry, kReq: KeyRequest, apiKeyHash: string)
    ensures var r := VerifyGet(state, ve, kReq, apiKeyHash);
            var version := ve.verifiableTx.tx.header.version;
            && (r.Success? ==> version == 0 || version == 1)
            && (r.Failure? ==> r.error == if version == 0 || version == 1 then CorruptedData else UnsupportedTxVersion)
  {
  }

  /* ---------- What is proven, and of which key ---------- */

  /** In a version 1 transaction the leaf fixes key, metadata and value; in version 0 key and value only. */
  lemma LeafDetermines(version: int, a: EntrySpec, b: EntrySpec)
    ensures EntrySpecDigest(version, a) == EntrySpecDigest(version, b)
       <==> a.key == b.key && a.value == b.value && (version == 0 || Attributes(a.md) == Attributes(b.md))
  {
  }

  /** The leaf is an entry under this key, whatever it holds. */
  ghost predicate LeafUnder(version: int, leaf: Digest, key: Bytes) {
    exists md: Option<KVMetadata>, value: StoredValue ::
      leaf == EntrySpecDigest(version, EntrySpec(EncodeKey(key), md, value))
  }

  /** The leaf is an entry under this key that holds this value. */
  ghost predicate LeafHolds(version: int, leaf: Digest, key: Bytes, value: Bytes) {
    exists md: Option<KVMetadata> :: leaf == EntrySpecDigest(version, EncodeEntrySpec(key, md, value))
  }

  /**
   What an accepted reply proves about the request.  The recorded leaf is an entry under the requested key
   holding the returned value exactly when the reply is a direct entry; it is under the requested key at all
   exactly when the reply is direct or names a reference of that key.
   */
  lemma LeafUnderRequestedKey(state: ImmutableState, ve: VerifiableEntry, kReq: KeyRequest, apiKeyHash: string)
    requires VerifyGet(state, ve, kReq, apiKeyHash).Success?
    ensures var ev := GetEvidence(state, ve, kReq);
            var version := ve.verifiableTx.tx.header.version;
            && Justified(state, VerifyGet(state, ve, kReq, apiKeyHash).value, [ev])
            && (LeafHolds(version, ev.leaf, kReq.key, ve.entry.value) <==> ve.entry.referencedBy.None?)
            && (LeafUnder(version, ev.leaf, kReq.key) <==>
                  ve.entry.referencedBy.None? || ve.entry.referencedBy.value.key == kReq.key)
  {
    GetJustified(state, ve, kReq, apiKeyHash);
    var version, leaf := ve.verifiableTx.tx.header.version, GetEvidence(state, ve, kReq).leaf;
    var claimed := ClaimedSpec(ve.entry, kReq);
    if LeafUnder(version, leaf, kReq.key) {
      var md: Option<KVMetadata>, value: StoredValue :|
        leaf == EntrySpecDigest(version, EntrySpec(EncodeKey(kReq.key), md, value));
      LeafDetermines(version, claimed, EntrySpec(EncodeKey(kReq.key), md, value));
      if ve.entry.referencedBy.Some? {
        EncodeKeyInjective(ve.entry.referencedBy.value.key, kReq.key);
      }
    }
    if claimed.key == EncodeKey(kReq.key) {
      assert leaf == EntrySpecDigest(version, EntrySpec(EncodeKey(kReq.key), claimed.md, claimed.value));
    }
    if LeafHolds(version, leaf, kReq.key, ve.entry.value) {
      var md: Option<KVMetadata> :| leaf == EntrySpecDigest(version, EncodeEntrySpec(kReq.key, md, ve.entry.value));
      LeafDetermines(version, claimed, EncodeEntrySpec(kReq.key, md, ve.entry.value));
    }
  }

  /** The header of a transaction right after a state, whose one entry is `leaf`; `mark` tells such headers apart. */
  function NextHeader(state: ImmutableState, leaf: Digest, mark: Bytes): TxHeader {
    TxHeader(state.txId + 1, state.txHash, 1, 1, Leaf(leaf), mark)
  }

  /** A reply about an entry of such a transaction, with its one-step proof. */
  function NextReply(state: ImmutableState, entry: Entry, kReq: KeyRequest, mark: Bytes): VerifiableEntry
    requires Anchored(state)
  {
    var header := NextHeader(state, EntrySpecDigest(1, ClaimedSpec(entry, kReq)), mark);
    var source := if state.txId > 0 then HeaderOf(state.txHash) else header;
    VerifiableEntry(entry, VerifiableTx(Tx(header, []), DualProof(source, header, [Alh(header).inner]), []), [])
  }

  lemma NextReplyAccepted(state: ImmutableState, entry: Entry, kReq: KeyRequest, mark: Bytes, apiKeyHash: string)
    requires Anchored(state) && ClaimedTx(entry) == state.txId + 1
    ensures var ve := NextReply(state, entry, kReq, mark);
            var header := NextHeader(state, EntrySpecDigest(1, ClaimedSpec(entry, kReq)), mark);
            && VerifyGet(state, ve, kReq, apiKeyHash) == Success(ImmutableState(apiKeyHash, header.id, Alh(header), []))
            && GetEvidence(state, ve, kReq).txAlh == Alh(header)
  {
    var terms := NextReply(state, entry, kReq, mark).verifiableTx.dualProof.terms;
    assert Rehash(state.txHash, state.txId, terms[..0]) == state.txHash;
  }

  /** Every reply a client in this state accepts for the request proves an entry under the requested key. */
  ghost predicate AcceptedAreUnderKey(state: ImmutableState, kReq: KeyRequest, apiKeyHash: string) {
    forall ve: VerifiableEntry | VerifyGet(state, ve, kReq, apiKeyHash).Success? ::
      LeafUnder(ve.verifiableTx.tx.header.version, GetEvidence(state, ve, kReq).leaf, kReq.key)
  }

  /**
   What the caller can rely on, for every state and request: that whatever is accepted is under the requested
   key, only where nothing is accepted at all.
   */
  lemma AcceptedAreUnderKeyIff(state: ImmutableState, kReq: KeyRequest, apiKeyHash: string)
    ensures AcceptedAreUnderKey(state, kReq, apiKeyHash) <==> !Anchored(state)
  {
    if Anchored(state) {
      var ref := Reference(state.txId + 1, kReq.key + [0], 0, None);
      var entry := Entry(0, [], [], None, Some(ref));
      NextReplyAccepted(state, entry, kReq, [], apiKeyHash);
      LeafUnderRequestedKey(state, NextReply(state, entry, kReq, []), kReq, apiKeyHash);
      assert |ref.key| != |kReq.key|;
    } else {
      forall ve: VerifiableEntry ensures VerifyGet(state, ve, kReq, apiKeyHash).Failure? {
        MisanchoredIsStuck(state, ve, kReq, apiKeyHash);
      }
    }
  }

  /** A reply that names a reference is judged alike for every request, and whatever value it returns. */
  lemma ReferenceIgnoresRequest(state: ImmutableState, ve: VerifiableEntry, kReq: KeyRequest, apiKeyHash: string,
                                asked: KeyRequest, value: Bytes)
    requires ve.entry.referencedBy.Some?
    ensures VerifyGet(state, ve.(entry := ve.entry.(value := value)), asked, apiKeyHash)
         == VerifyGet(state, ve, kReq, apiKeyHash)
  {
  }

  /** From every anchored state, a reference of any key recorded on its history answers a request for any other. */
  lemma ReferenceAnswersAnyKey(state: ImmutableState, ref: Reference, target: Bytes, value: Bytes, version: int,
                               alh: Digest, asked: KeyRequest)
    requires state.txId > 0 && SupportedVersion(version) && Anchored(state)
    requires var reference := EncodeReference(ref.key, ref.metadata, target, ref.atTx);
             Recorded(state, Evidence(ref.tx, alh, EntrySpecDigest(version, reference)))
    ensures Acceptable(state, state, Entry(ref.atTx, target, value, None, Some(ref)), asked, version)
  {
    var n := LinkedOrder(alh, ref.tx, state.txHash, state.txId);
    TruthfulIsAcceptable(state, state, Entry(ref.atTx, target, value, None, Some(ref)), asked, version, alh);
  }

  /**
   The input behind it: a state and a reply, about a reference of key `[1]` to key `[2]`, that is accepted as
   the answer to every request, with every value; the proven entry is under no requested key but `[1]`.
   */
  lemma AnotherKeysReferenceIsAccepted() returns (state: ImmutableState, ve: VerifiableEntry)
    ensures state.txId > 0 && Anchored(state)
    ensures forall asked: KeyRequest, value: Bytes ::
              VerifyGet(state, ve.(entry := ve.entry.(value := value)), asked, state.db) == Success(state)
    ensures forall asked: KeyRequest | asked.key != [1] ::
              !LeafUnder(ve.verifiableTx.tx.header.version, GetEvidence(state, ve, asked).leaf, asked.key)
  {
    var leaf := EntrySpecDigest(1, EncodeReference([1], None, [2], 0));
    var header := TxHeader(1, EmptyTree, 1, 1, Leaf(leaf), []);
    state := ImmutableState("", 1, Alh(header), []);
    ve := VerifiableEntry(Entry(0, [2], [], None, Some(Reference(1, [1], 0, None))),
                          VerifiableTx(Tx(header, []), DualProof(header, header, []), []), []);
    forall asked: KeyRequest | asked.key != [1]
      ensures !LeafUnder(ve.verifiableTx.tx.header.version, GetEvidence(state, ve, asked).leaf, asked.key)
    {
      LeafUnderRequestedKey(state, ve, asked, "");
    }
  }
}
