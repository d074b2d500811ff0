/**
 The checks of a verified write, single and batch, and their meaning: the committed transaction holds
 exactly the requested pairs and continues the trusted history.
 */
module SetVerification {
  import opened Wrappers
  import opened ImmuStore
  import opened History

  /** Go's conversion of a length to int32. */
  function Int32(n: int): (r: int)
    ensures -0x8000_0000 <= r < 0x8000_0000
    ensures (r - n) % 0x1_0000_0000 == 0
  {
    (n + 0x8000_0000) % 0x1_0000_0000 - 0x8000_0000
  }

  lemma Int32Small(n: nat)
    requires n < 0x8000_0000
    ensures Int32(n) == n
  {
  }

  /** The common tail of both writes: bind the rebuilt transaction to the trusted state and take its state. */
  function AdvanceTo(state: ImmutableState, vtx: VerifiableTx, db: string): Result<ImmutableState> {
    var header := TxFromProto(vtx.tx).header;
    if header.eh != vtx.dualProof.target.eh then Failure(CorruptedData)
    else if state.txId > 0
      && !VerifyDualProof(vtx.dualProof, state.txId, header.id, state.txHash, Alh(header)) then
      Failure(CorruptedData)
    else
      Success(ImmutableState(db, header.id, Alh(header), vtx.signature))
  }

  function VerifySet(state: ImmutableState, key: Bytes, value: Bytes, vtx: VerifiableTx, db: string)
    : Result<ImmutableState>
  {
    if vtx.tx.header.nentries != 1 || |vtx.tx.entries| != 1 then Failure(CorruptedData)
    else
      var tx := TxFromProto(vtx.tx);
      var version := tx.header.version;
      var proof := ProofFor(tx, EncodeKey(key));
      var md := tx.entries[0].md;
      if !SupportedVersion(version) then Failure(UnsupportedTxVersion)
      else if proof.None? then Failure(KeyNotFound)
      else if md.Some? && md.value.deleted then Failure(CorruptedData)
      else if !VerifyInclusion(proof.value, EntrySpecDigest(version, EncodeEntrySpec(key, md, value)),
                               tx.header.eh) then Failure(CorruptedData)
      else AdvanceTo(state, vtx, db)
  }

  /** The check of one pair of a batch: the proof is found by key, the metadata is taken by position. */
  function CheckPair(tx: Tx, kv: KeyValue, md: Option<KVMetadata>): Result<()> {
    var proof := ProofFor(tx, EncodeKey(kv.key));
    if proof.None? then Failure(KeyNotFound)
    else if VerifyInclusion(proof.value, EntrySpecDigest(tx.header.version, EncodeEntrySpec(kv.key, md, kv.value)),
                            tx.header.eh) then Success(())
    else Failure(CorruptedData)
  }

  function PairChecks(tx: Tx, kvs: seq<KeyValue>): (rs: seq<Result<()>>)
    requires |kvs| == |tx.entries|
    ensures |rs| == |kvs|
    ensures forall i :: 0 <= i < |kvs| ==> rs[i] == CheckPair(tx, kvs[i], tx.entries[i].md)
  {
    seq(|kvs|, i requires 0 <= i < |kvs| => CheckPair(tx, kvs[i], tx.entries[i].md))
  }

  /** The outcome of checks made in order, stopping at the first failure. */
  function FirstFailure(rs: seq<Result<()>>): (r: Result<()>)
    ensures r.Success? <==> forall i :: 0 <= i < |rs| ==> rs[i].Success?
    ensures r.Failure? ==> exists i :: 0 <= i < |rs| && rs[i] == r && forall j :: 0 <= j < i ==> rs[j].Success?
  {
    if rs == [] then Success(())
    else if rs[0].Failure? then rs[0]
    else
      var r := FirstFailure(rs[1..]);
      assert forall i :: 0 < i < |rs| ==> rs[i] == rs[1..][i - 1];
      r
  }

  function VerifyStreamSet(state: ImmutableState, kvs: seq<KeyValue>, vtx: VerifiableTx, db: string)
    : Result<ImmutableState>
  {
    if vtx.tx.header.nentries != Int32(|kvs|) || |vtx.tx.entries| != |kvs| then Failure(CorruptedData)
    else
      var tx := TxFromProto(vtx.tx);
      if !SupportedVersion(tx.header.version) then Failure(UnsupportedTxVersion)
      else
        var checked := FirstFailure(PairChecks(tx, kvs));
        if checked.Failure? then Failure(checked.error) else AdvanceTo(state, vtx, db)
  }

  /* ---------- What a pair check means ---------- */

  function Wanted(kv: KeyValue): (Bytes, Digest) { (EncodeKey(kv.key), ValueHash(Plain(kv.value))) }

  function Held(e: TxEntry): (Bytes, Digest) { (e.key, e.hValue) }

  /** The first entry under the pair's key has the pair's value and, where versions hash it, this metadata. */
  predicate FirstEntryMatches(t: Tx, kv: KeyValue, md: Option<KVMetadata>) {
    var j := IndexOf(t.entries, EncodeKey(kv.key));
    && j.Some?
    && Held(t.entries[j.value]) == Wanted(kv)
    && (t.header.version == 0 || Attributes(t.entries[j.value].md) == Attributes(md))
  }

  lemma CheckPairMeaning(t: Tx, kv: KeyValue, md: Option<KVMetadata>)
    ensures CheckPair(TxFromProto(t), kv, md).Success? <==> FirstEntryMatches(t, kv, md)
  {
    var j := IndexOf(t.entries, EncodeKey(kv.key));
    if j.Some? {
      var version := t.header.version;
      PathIdentifies(EntryDigests(version, t.entries), j.value,
                     EntrySpecDigest(version, EncodeEntrySpec(kv.key, md, kv.value)));
    }
  }

  predicate AllMatch(t: Tx, kvs: seq<KeyValue>)
    requires |kvs| == |t.entries|
  {
    forall i :: 0 <= i < |kvs| ==> FirstEntryMatches(t, kvs[i], t.entries[i].md)
  }

  lemma PairChecksMeaning(t: Tx, kvs: seq<KeyValue>)
    requires |kvs| == |t.entries|
    ensures FirstFailure(PairChecks(TxFromProto(t), kvs)).Success? <==> AllMatch(t, kvs)
  {
    var rs := PairChecks(TxFromProto(t), kvs);
    forall i | 0 <= i < |kvs| ensures rs[i].Success? <==> FirstEntryMatches(t, kvs[i], t.entries[i].md) {
      CheckPairMeaning(t, kvs[i], t.entries[i].md);
    }
  }

  /* ---------- Exact contents ---------- */

  function HeldAll(entries: seq<TxEntry>): (r: seq<(Bytes, Digest)>)
    ensures |r| == |entries|
    ensures forall i :: 0 <= i < |entries| ==> r[i] == Held(entries[i])
  {
    seq(|entries|, i requires 0 <= i < |entries| => Held(entries[i]))
  }

  function WantedAll(kvs: seq<KeyValue>): (r: seq<(Bytes, Digest)>)
    ensures |r| == |kvs|
    ensures forall i :: 0 <= i < |kvs| ==> r[i] == Wanted(kvs[i])
  {
    seq(|kvs|, i requires 0 <= i < |kvs| => Wanted(kvs[i]))
  }

  /** The transaction holds the requested pairs and nothing else, in some order. */
  ghost predicate ExactlyThePairs(t: Tx, kvs: seq<KeyValue>) {
    multiset(HeldAll(t.entries)) == multiset(WantedAll(kvs))
  }

  /** The entry part of the batch check succeeds on this transaction. */
  predicate PassesEntryChecks(t: Tx, kvs: seq<KeyValue>) {
    && |t.entries| == |kvs|
    && t.header.nentries == Int32(|kvs|)
    && SupportedVersion(t.header.version)
    && FirstFailure(PairChecks(TxFromProto(t), kvs)).Success?
  }

  /** Once the entries pass, the outcome of a batch write is that of binding it to the trusted state. */
  lemma StreamSetOutcome(state: ImmutableState, kvs: seq<KeyValue>, vtx: VerifiableTx, db: string)
    ensures VerifyStreamSet(state, kvs, vtx, db).Success?
       <==> PassesEntryChecks(vtx.tx, kvs) && AdvanceTo(state, vtx, db).Success?
    ensures PassesEntryChecks(vtx.tx, kvs) ==> VerifyStreamSet(state, kvs, vtx, db) == AdvanceTo(state, vtx, db)
  {
  }

  predicate DistinctKeys(kvs: seq<KeyValue>) {
    forall i, j :: 0 <= i < j < |kvs| ==> kvs[i].key != kvs[j].key
  }

  lemma {:induction false} DistinctMultiplicity<T>(xs: seq<T>, x: T)
    requires forall i, j :: 0 <= i < j < |xs| ==> xs[i] != xs[j]
    ensures multiset(xs)[x] <= 1
  {
    if xs != [] {
      var rest := xs[..|xs| - 1];
      DistinctMultiplicity(rest, x);
      assert xs == rest + [xs[|xs| - 1]];
    }
  }

  lemma TwoPositions<T>(xs: seq<T>, i: nat, j: nat)
    requires i < j < |xs| && xs[i] == xs[j]
    ensures multiset(xs)[xs[i]] >= 2
  {
    assert xs == xs[..i] + [xs[i]] + xs[i + 1..j] + [xs[j]] + xs[j + 1..];
  }

  lemma OnePosition<T>(xs: seq<T>, i: nat, j: nat)
    requires i < |xs| && j < |xs| && xs[i] == xs[j] && multiset(xs)[xs[i]] <= 1
    ensures i == j
  {
    if i < j {
      TwoPositions(xs, i, j);
    } else if j < i {
      TwoPositions(xs, j, i);
    }
  }

  lemma SameSizeSubset<T>(a: multiset<T>, b: multiset<T>)
    requires a <= b && |a| == |b|
    ensures a == b
  {
    assert b == a + (b - a);
    assert |b - a| == 0;
  }

  /** Pigeonhole: as many slots as distinct items, and every item in some slot. */
  lemma Pigeonhole<T>(items: seq<T>, slots: seq<T>)
    requires |items| == |slots|
    requires forall i, j :: 0 <= i < j < |items| ==> items[i] != items[j]
    requires forall i :: 0 <= i < |items| ==> items[i] in slots
    ensures multiset(items) == multiset(slots)
  {
    forall x ensures multiset(items)[x] <= multiset(slots)[x] {
      DistinctMultiplicity(items, x);
      if x in items {
        assert x in multiset(slots);
      }
    }
    SameSizeSubset(multiset(items), multiset(slots));
  }

  lemma WantedDistinct(kvs: seq<KeyValue>, i: nat, j: nat)
    requires DistinctKeys(kvs) && i < j < |kvs|
    ensures Wanted(kvs[i]) != Wanted(kvs[j])
  {
    if EncodeKey(kvs[i].key) == EncodeKey(kvs[j].key) {
      EncodeKeyInjective(kvs[i].key, kvs[j].key);
    }
  }

  /**
   Exact batch write: with pairwise distinct keys, an accepted transaction holds exactly the requested
   pairs, with nothing extra.
   */
  lemma BatchExact(t: Tx, kvs: seq<KeyValue>)
    requires DistinctKeys(kvs) && PassesEntryChecks(t, kvs)
    ensures ExactlyThePairs(t, kvs)
  {
    PairChecksMeaning(t, kvs);
    var held, wanted := HeldAll(t.entries), WantedAll(kvs);
    forall i, j | 0 <= i < j < |kvs| ensures wanted[i] != wanted[j] {
      WantedDistinct(kvs, i, j);
    }
    forall i | 0 <= i < |kvs| ensures wanted[i] in held {
      assert FirstEntryMatches(t, kvs[i], t.entries[i].md);
      var j := IndexOf(t.entries, EncodeKey(kvs[i].key)).value;
      assert held[j] == wanted[i];
    }
    Pigeonhole(wanted, held);
  }

  /** With exact contents under distinct keys, an entry under a requested key is that key's pair, and only once. */
  lemma UnderKey(entries: seq<TxEntry>, kvs: seq<KeyValue>, i: nat, j: nat)
    requires DistinctKeys(kvs) && multiset(HeldAll(entries)) == multiset(WantedAll(kvs))
    requires i < |kvs| && j < |entries| && entries[j].key == EncodeKey(kvs[i].key)
    ensures Held(entries[j]) == Wanted(kvs[i])
    ensures multiset(HeldAll(entries))[Held(entries[j])] <= 1
  {
    var held, wanted := HeldAll(entries), WantedAll(kvs);
    assert held[j] in multiset(held);
    var m :| 0 <= m < |wanted| && wanted[m] == held[j];
    EncodeKeyInjective(kvs[m].key, kvs[i].key);
    forall a, b | 0 <= a < b < |kvs| ensures wanted[a] != wanted[b] {
      WantedDistinct(kvs, a, b);
    }
    DistinctMultiplicity(wanted, held[j]);
  }

  /**
   The metadata checked for a pair is taken by position although its proof is found by key.  In a
   version 1 transaction it is nevertheless the metadata of every entry under the pair's key.
   */
  lemma BatchMetadata(t: Tx, kvs: seq<KeyValue>, i: nat, j: nat)
    requires DistinctKeys(kvs) && PassesEntryChecks(t, kvs) && t.header.version == 1
    requires i < |kvs| && j < |kvs| && t.entries[j].key == EncodeKey(kvs[i].key)
    ensures Held(t.entries[j]) == Wanted(kvs[i])
    ensures Attributes(t.entries[j].md) == Attributes(t.entries[i].md)
  {
    BatchExact(t, kvs);
    UnderKey(t.entries, kvs, i, j);
    assert FirstEntryMatches(t, kvs[i], t.entries[i].md) by {
      PairChecksMeaning(t, kvs);
    }
    var f := IndexOf(t.entries, EncodeKey(kvs[i].key)).value;
    var held := HeldAll(t.entries);
    assert held[f] == held[j];
    OnePosition(held, f, j);
  }

  /** The entry under a pair's key has the metadata of the entry at the pair's position. */
  predicate MetadataInPlace(t: Tx, kvs: seq<KeyValue>)
    requires |kvs| == |t.entries|
  {
    forall i, j :: 0 <= i < |kvs| && 0 <= j < |kvs| && t.entries[j].key == EncodeKey(kvs[i].key) ==>
      Attributes(t.entries[j].md) == Attributes(t.entries[i].md)
  }

  lemma ExactMatches(t: Tx, kvs: seq<KeyValue>, i: nat)
    requires DistinctKeys(kvs) && |kvs| == |t.entries| && ExactlyThePairs(t, kvs) && i < |kvs|
    requires t.header.version == 0 || MetadataInPlace(t, kvs)
    ensures FirstEntryMatches(t, kvs[i], t.entries[i].md)
  {
    var held, wanted := HeldAll(t.entries), WantedAll(kvs);
    assert wanted[i] in multiset(held);
    var j :| 0 <= j < |held| && held[j] == wanted[i];
    Found(t.entries, EncodeKey(kvs[i].key), 0, j);
    UnderKey(t.entries, kvs, i, IndexOf(t.entries, EncodeKey(kvs[i].key)).value);
  }

  /**
   With pairwise distinct keys the entry checks pass exactly for the requested pairs, in whatever order, with
   the metadata in place where the version hashes it.
   */
  lemma PassesExactly(t: Tx, kvs: seq<KeyValue>)
    requires DistinctKeys(kvs)
    ensures PassesEntryChecks(t, kvs) <==>
            && |t.entries| == |kvs| && t.header.nentries == Int32(|kvs|) && SupportedVersion(t.header.version)
            && ExactlyThePairs(t, kvs) && (t.header.version == 0 || MetadataInPlace(t, kvs))
  {
    if PassesEntryChecks(t, kvs) {
      BatchExact(t, kvs);
      if t.header.version == 1 {
        forall i, j | 0 <= i < |kvs| && 0 <= j < |kvs| && t.entries[j].key == EncodeKey(kvs[i].key)
          ensures Attributes(t.entries[j].md) == Attributes(t.entries[i].md)
        {
          BatchMetadata(t, kvs, i, j);
        }
      }
    }
    if |t.entries| == |kvs| && ExactlyThePairs(t, kvs) && (t.header.version == 0 || MetadataInPlace(t, kvs)) {
      forall i | 0 <= i < |kvs| ensures FirstEntryMatches(t, kvs[i], t.entries[i].md) {
        ExactMatches(t, kvs, i);
      }
      PairChecksMeaning(t, kvs);
    }
  }

  /** No key is requested with two values. */
  predicate Consistent(kvs: seq<KeyValue>) {
    forall i, j :: 0 <= i < |kvs| && 0 <= j < |kvs| && kvs[i].key == kvs[j].key ==> kvs[i].value == kvs[j].value
  }

  /** A request that gives one key two values is never accepted. */
  lemma PassingIsConsistent(t: Tx, kvs: seq<KeyValue>)
    requires PassesEntryChecks(t, kvs)
    ensures Consistent(kvs)
  {
    PairChecksMeaning(t, kvs);
    forall i, j | 0 <= i < |kvs| && 0 <= j < |kvs| && kvs[i].key == kvs[j].key
      ensures kvs[i].value == kvs[j].value
    {
      assert FirstEntryMatches(t, kvs[i], t.entries[i].md) && FirstEntryMatches(t, kvs[j], t.entries[j].md);
    }
  }

  /* ---------- Trusted state ---------- */

  function SetEvidence(kvs: seq<KeyValue>, t: Tx): (evs: seq<Evidence>)
    requires |kvs| == |t.entries|
    ensures |evs| == |kvs|
  {
    var header := TxFromProto(t).header;
    seq(|kvs|, i requires 0 <= i < |kvs| =>
      Evidence(header.id, Alh(header),
               EntrySpecDigest(header.version, EncodeEntrySpec(kvs[i].key, t.entries[i].md, kvs[i].value))))
  }

  /**
   Transition of a write: the new state is the hash of the rebuilt transaction, whose entry root the reply's
   own target header carries too; the state never moves back, and at an equal ID it does not move at all.
   */
  lemma AdvanceTransition(state: ImmutableState, vtx: VerifiableTx, db: string)
    requires AdvanceTo(state, vtx, db).Success?
    ensures var next := AdvanceTo(state, vtx, db).value;
            var header := vtx.tx.header.(eh := Root(EntryDigests(vtx.tx.header.version, vtx.tx.entries)));
            && next == ImmutableState(db, header.id, Alh(header), vtx.signature) && Anchored(next)
            && vtx.dualProof.target.eh == header.eh
            && (state.txId > 0 ==> Anchored(state) && Extends(next, state) && state.txId <= next.txId)
            && (state.txId == next.txId > 0 ==> next.txHash == state.txHash)
  {
    var header := TxFromProto(vtx.tx).header;
    if state.txId > 0 {
      DualProofSound(vtx.dualProof, state.txId, header.id, state.txHash, Alh(header));
    }
  }

  /** Some proof binds the transaction to the trusted state and moves the client to `next`. */
  ghost predicate Bindable(state: ImmutableState, tx: Tx, next: ImmutableState) {
    exists dual: DualProof :: AdvanceTo(state, VerifiableTx(tx, dual, next.signature), next.db) == Success(next)
  }

  /**
   Exactness of the binding: a transaction can be bound if and only if the state it produces is the hash of
   that transaction and, from a state with transactions, continues the trusted history.
   */
  lemma AdvanceExact(state: ImmutableState, tx: Tx, next: ImmutableState)
    ensures Bindable(state, tx, next) <==>
            var header := TxFromProto(tx).header;
            next.txId == header.id && next.txHash == Alh(header) && Anchored(state) && Extends(next, state)
  {
    var header := TxFromProto(tx).header;
    if Bindable(state, tx, next) {
      var dual :| AdvanceTo(state, VerifiableTx(tx, dual, next.signature), next.db) == Success(next);
      AdvanceTransition(state, VerifiableTx(tx, dual, next.signature), next.db);
    }
    if next.txId == header.id && next.txHash == Alh(header) && Anchored(state) && Extends(next, state) {
      var dual := DualProof(header, header, []);
      if state.txId > 0 {
        var n := LinkedOrder(state.txHash, state.txId, next.txHash, next.txId);
        TermsRehash(state.txHash, state.txId, next.txHash, n);
        dual := DualProof(HeaderOf(state.txHash), header, Terms(next.txHash, n));
      }
      assert AdvanceTo(state, VerifiableTx(tx, dual, next.signature), next.db) == Success(next);
    }
  }

  lemma AdvanceJustified(state: ImmutableState, kvs: seq<KeyValue>, vtx: VerifiableTx, db: string)
    requires |kvs| == |vtx.tx.entries| && FirstFailure(PairChecks(TxFromProto(vtx.tx), kvs)).Success?
    requires AdvanceTo(state, vtx, db).Success?
    ensures Justified(state, AdvanceTo(state, vtx, db).value, SetEvidence(kvs, vtx.tx))
  {
    var next := AdvanceTo(state, vtx, db).value;
    var evs := SetEvidence(kvs, vtx.tx);
    AdvanceTransition(state, vtx, db);
    PairChecksMeaning(vtx.tx, kvs);
    if next.txId > 0 {
      forall i | 0 <= i < |evs| ensures Recorded(next, evs[i]) {
        CheckPairMeaning(vtx.tx, kvs[i], vtx.tx.entries[i].md);
        assert FirstEntryMatches(vtx.tx, kvs[i], vtx.tx.entries[i].md);
        var tx := TxFromProto(vtx.tx);
        InclusionSound(ProofFor(tx, EncodeKey(kvs[i].key)).value, evs[i].leaf, tx.header.eh);
      }
    }
  }

  /**
   A single write: accepted exactly when the transaction is one live entry with the requested pair and
   is bound to the trusted state; the stored state is then the hash of that very transaction.
   */
  lemma SetExact(state: ImmutableState, key: Bytes, value: Bytes, vtx: VerifiableTx, db: string)
    ensures VerifySet(state, key, value, vtx, db).Success? <==>
            && vtx.tx.header.nentries == 1 && SupportedVersion(vtx.tx.header.version)
            && (exists md: Option<KVMetadata> :: !Attributes(md).deleted
                  && vtx.tx.entries == [TxEntry(EncodeKey(key), md, ValueHash(Plain(value)))])
            && AdvanceTo(state, vtx, db).Success?
    ensures VerifySet(state, key, value, vtx, db).Success? ==>
              var next := VerifySet(state, key, value, vtx, db).value;
              next == AdvanceTo(state, vtx, db).value
              && next.txHash == Alh(vtx.tx.header.(eh := Leaf(TxEntryDigest(vtx.tx.header.version, vtx.tx.entries[0]))))
              && Justified(state, next, SetEvidence([KeyValue(key, value)], vtx.tx))
  {
    var kv := KeyValue(key, value);
    if |vtx.tx.entries| == 1 {
      var e := vtx.tx.entries[0];
      assert vtx.tx.entries == [e];
      CheckPairMeaning(vtx.tx, kv, e.md);
      if e.key == EncodeKey(key) && e.hValue == ValueHash(Plain(value)) {
        assert e == TxEntry(EncodeKey(key), e.md, ValueHash(Plain(value)));
      }
      if VerifySet(state, key, value, vtx, db).Success? {
        assert CheckPair(TxFromProto(vtx.tx), kv, e.md).Success?;
        AdvanceJustified(state, [kv], vtx, db);
      }
    }
  }

  /** A batch write that succeeds justifies the state it stores, for all its pairs at once. */
  lemma StreamSetJustified(state: ImmutableState, kvs: seq<KeyValue>, vtx: VerifiableTx, db: string)
    requires VerifyStreamSet(state, kvs, vtx, db).Success?
    ensures |kvs| == |vtx.tx.entries| && PassesEntryChecks(vtx.tx, kvs)
    ensures var next := VerifyStreamSet(state, kvs, vtx, db).value;
            && Justified(state, next, SetEvidence(kvs, vtx.tx))
            && next.txHash == Alh(vtx.tx.header.(eh := Root(EntryDigests(vtx.tx.header.version, vtx.tx.entries))))
    ensures DistinctKeys(kvs) ==> ExactlyThePairs(vtx.tx, kvs)
  {
    AdvanceJustified(state, kvs, vtx, db);
    if DistinctKeys(kvs) {
      BatchExact(vtx.tx, kvs);
    }
  }

  /**
   Which error a rejected single write gets: a wrong number of entries first, then an unknown version, then an
   entry that is not under the key; anything else is corrupted data.
   */
  lemma SetErrors(state: ImmutableState, key: Bytes, value: Bytes, vtx: VerifiableTx, db: string)
    ensures var r := VerifySet(state, key, value, vtx, db);
            var version, entries := vtx.tx.header.version, vtx.tx.entries;
            r.Failure? ==>
              if vtx.tx.header.nentries != 1 || |entries| != 1 then r.error == CorruptedData
              else if version != 0 && version != 1 then r.error == UnsupportedTxVersion
              else if entries[0].key != EncodeKey(key) then r.error == KeyNotFound
              else r.error == CorruptedData
  {
  }

  predicate NoEntryUnder(entries: seq<TxEntry>, key: Bytes) {
    forall i :: 0 <= i < |entries| ==> entries[i].key != EncodeKey(key)
  }

  /** Pair `i` is the first that does not match, and this is its error: a missing key is told apart. */
  predicate FirstMismatch(t: Tx, kvs: seq<KeyValue>, i: nat, e: Error)
    requires |kvs| == |t.entries|
  {
    && i < |kvs| && !FirstEntryMatches(t, kvs[i], t.entries[i].md)
    && (forall j :: 0 <= j < i ==> FirstEntryMatches(t, kvs[j], t.entries[j].md))
    && e == if NoEntryUnder(t.entries, kvs[i].key) then KeyNotFound else CorruptedData
  }

  lemma CheckPairError(t: Tx, kv: KeyValue, md: Option<KVMetadata>)
    ensures var r := CheckPair(TxFromProto(t), kv, md);
            r.Failure? ==> r.error == if NoEntryUnder(t.entries, kv.key) then KeyNotFound else CorruptedData
  {
    if !NoEntryUnder(t.entries, kv.key) {
      var i :| 0 <= i < |t.entries| && t.entries[i].key == EncodeKey(kv.key);
      Found(t.entries, EncodeKey(kv.key), 0, i);
    }
  }

  lemma PairChecksError(t: Tx, kvs: seq<KeyValue>)
    requires |kvs| == |t.entries|
    ensures var r := FirstFailure(PairChecks(TxFromProto(t), kvs));
            r.Failure? ==> exists i :: FirstMismatch(t, kvs, i, r.error)
  {
    var rs := PairChecks(TxFromProto(t), kvs);
    var r := FirstFailure(rs);
    if r.Failure? {
      var i :| 0 <= i < |rs| && rs[i] == r && forall j :: 0 <= j < i ==> rs[j].Success?;
      CheckPairError(t, kvs[i], t.entries[i].md);
      forall j | 0 <= j <= i ensures rs[j].Success? <==> FirstEntryMatches(t, kvs[j], t.entries[j].md) {
        CheckPairMeaning(t, kvs[j], t.entries[j].md);
      }
      assert FirstMismatch(t, kvs, i, r.error);
    }
  }

  /**
   Which error a rejected batch write gets: a wrong number of entries first, then an unknown version, then that of
   the first pair that does not match; anything else is corrupted data.
   */
  lemma StreamSetErrors(state: ImmutableState, kvs: seq<KeyValue>, vtx: VerifiableTx, db: string)
    ensures var r := VerifyStreamSet(state, kvs, vtx, db);
            var version, entries := vtx.tx.header.version, vtx.tx.entries;
            r.Failure? ==>
              if vtx.tx.header.nentries != Int32(|kvs|) || |entries| != |kvs| then r.error == CorruptedData
              else if version != 0 && version != 1 then r.error == UnsupportedTxVersion
              else if AllMatch(vtx.tx, kvs) then r.error == CorruptedData
              else exists i :: FirstMismatch(vtx.tx, kvs, i, r.error)
  {
    if |vtx.tx.entries| == |kvs| {
      PairChecksMeaning(vtx.tx, kvs);
      PairChecksError(vtx.tx, kvs);
    }
  }

  /** A misanchored state accepts no write either. */
  lemma MisanchoredAdmitsNoWrite(state: ImmutableState, vtx: VerifiableTx, db: string)
    requires !Anchored(state)
    ensures AdvanceTo(state, vtx, db).Failure?
  {
    if AdvanceTo(state, vtx, db).Success? {
      AdvanceTransition(state, vtx, db);
    }
  }

  /* ---------- Repeated keys ---------- */

  /**
   The next transaction after a state, holding the requested pairs but for the one at `at`, replaced by something
   else; with `at == |kvs|` it holds them all.
   */
  function Padded(state: ImmutableState, kvs: seq<KeyValue>, at: nat): Tx {
    Tx(TxHeader(state.txId + 1, state.txHash, 1, Int32(|kvs|), EmptyTree, []),
       seq(|kvs|, i requires 0 <= i < |kvs| =>
         if i == at then TxEntry([1], None, EmptyTree) else TxEntry(Wanted(kvs[i]).0, None, Wanted(kvs[i]).1)))
  }

  /** Its proof from the state: one step. */
  function PaddedReply(state: ImmutableState, kvs: seq<KeyValue>, at: nat): VerifiableTx
    requires Anchored(state)
  {
    var header := TxFromProto(Padded(state, kvs, at)).header;
    var source := if state.txId > 0 then HeaderOf(state.txHash) else header;
    VerifiableTx(Padded(state, kvs, at), DualProof(source, header, [Alh(header).inner]), [])
  }

  lemma PaddedMatches(state: ImmutableState, kvs: seq<KeyValue>, i: nat, j: nat, k: nat)
    requires Consistent(kvs) && i < j < |kvs| && k < |kvs| && kvs[i].key == kvs[j].key
    ensures FirstEntryMatches(Padded(state, kvs, j), kvs[k], None)
  {
    var entries := Padded(state, kvs, j).entries;
    var key := EncodeKey(kvs[k].key);
    assert key[0] == 0;
    Found(entries, key, 0, if k == j then i else k);
    var f := IndexOf(entries, key).value;
    assert f != j;
    EncodeKeyInjective(kvs[f].key, kvs[k].key);
  }

  lemma PaddedPasses(state: ImmutableState, kvs: seq<KeyValue>, i: nat, j: nat)
    requires Consistent(kvs) && i < j < |kvs| && kvs[i].key == kvs[j].key
    ensures PassesEntryChecks(Padded(state, kvs, j), kvs)
  {
    var t := Padded(state, kvs, j);
    forall k | 0 <= k < |kvs| ensures FirstEntryMatches(t, kvs[k], t.entries[k].md) {
      PaddedMatches(state, kvs, i, j, k);
    }
    PairChecksMeaning(t, kvs);
  }

  /** What replaces a pair is nobody's pair. */
  lemma PaddedIsForeign(state: ImmutableState, kvs: seq<KeyValue>, at: nat, other: seq<KeyValue>)
    requires at < |kvs|
    ensures !ExactlyThePairs(Padded(state, kvs, at), other)
  {
    var held := HeldAll(Padded(state, kvs, at).entries);
    assert held[at] == ([1], EmptyTree) && held[at] in multiset(held);
    forall m | 0 <= m < |other| ensures WantedAll(other)[m] != held[at] {
    }
  }

  lemma PaddedIsBound(state: ImmutableState, kvs: seq<KeyValue>, at: nat, db: string)
    requires Anchored(state)
    ensures AdvanceTo(state, PaddedReply(state, kvs, at), db).Success?
  {
    var header := TxFromProto(Padded(state, kvs, at)).header;
    var terms := [Alh(header).inner];
    assert Rehash(state.txHash, state.txId, terms[..0]) == state.txHash;
  }

  /**
   From every anchored state, a request that repeats a pair is answered by a reply which the client accepts
   although the transaction holds something else in place of one of the two.
   */
  lemma RepeatedPairCanBeReplaced(state: ImmutableState, kvs: seq<KeyValue>, i: nat, j: nat, db: string)
    requires Anchored(state) && Consistent(kvs) && i < j < |kvs| && kvs[i].key == kvs[j].key
    ensures VerifyStreamSet(state, kvs, PaddedReply(state, kvs, j), db).Success?
    ensures !ExactlyThePairs(PaddedReply(state, kvs, j).tx, kvs)
  {
    PaddedPasses(state, kvs, i, j);
    PaddedIsForeign(state, kvs, j, kvs);
    PaddedIsBound(state, kvs, j, db);
    StreamSetOutcome(state, kvs, PaddedReply(state, kvs, j), db);
  }

  /** From every anchored state, a request with distinct keys is answered by a reply the client accepts. */
  lemma DistinctIsAcceptable(state: ImmutableState, kvs: seq<KeyValue>, db: string)
    requires Anchored(state) && DistinctKeys(kvs)
    ensures VerifyStreamSet(state, kvs, PaddedReply(state, kvs, |kvs|), db).Success?
  {
    var t := Padded(state, kvs, |kvs|);
    assert HeldAll(t.entries) == WantedAll(kvs);
    PassesExactly(t, kvs);
    PaddedIsBound(state, kvs, |kvs|, db);
    StreamSetOutcome(state, kvs, PaddedReply(state, kvs, |kvs|), db);
  }

  /** Every reply that a client in this state accepts for the batch holds exactly the requested pairs. */
  ghost predicate AcceptedAreExact(state: ImmutableState, kvs: seq<KeyValue>, db: string) {
    forall vtx: VerifiableTx | VerifyStreamSet(state, kvs, vtx, db).Success? :: ExactlyThePairs(vtx.tx, kvs)
  }

  /**
   When an accepted batch write is exact, for every state and request: precisely when the requested keys are
   pairwise distinct, or nothing is accepted at all, because the request gives one key two values or the
   state is not anchored.
   */
  lemma BatchExactIff(state: ImmutableState, kvs: seq<KeyValue>, db: string)
    ensures AcceptedAreExact(state, kvs, db) <==> DistinctKeys(kvs) || !Consistent(kvs) || !Anchored(state)
  {
    forall vtx: VerifiableTx | VerifyStreamSet(state, kvs, vtx, db).Success?
      ensures Consistent(kvs) && Anchored(state) && (DistinctKeys(kvs) ==> ExactlyThePairs(vtx.tx, kvs))
    {
      StreamSetJustified(state, kvs, vtx, db);
      PassingIsConsistent(vtx.tx, kvs);
    }
    if !DistinctKeys(kvs) && Consistent(kvs) && Anchored(state) {
      var i, j :| 0 <= i < j < |kvs| && kvs[i].key == kvs[j].key;
      RepeatedPairCanBeReplaced(state, kvs, i, j, db);
    }
  }
}
