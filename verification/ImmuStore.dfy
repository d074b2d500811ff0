/**
 A symbolic model of the parts of the immudb library that the client calls.

 THIS FILE IS AN ASSUMPTION ABOUT THE LIBRARY.  The library is not part of the repository.  Hashes are
 terms of a datatype, so hashing is collision-free by construction and two hashes of different kinds
 never meet; an inclusion proof is a path through a binary hash tree; a dual proof is a pair of headers
 with the inner hashes of the transactions between them.
 */
module ImmuStore {
  import opened Wrappers

  type byte = x: int | 0 <= x < 256
  type Bytes = seq<byte>

  /* ---------- Entries ---------- */

  datatype KVMetadata = KVMetadata(deleted: bool, nonIndexable: bool, expiresAt: Option<int>)

  /** The serialised form of metadata: absent metadata and metadata without attributes are the same bytes. */
  function Attributes(md: Option<KVMetadata>): KVMetadata {
    if md.Some? then md.value else KVMetadata(false, false, None)
  }

  /** A stored value is tagged: plain bytes, or a reference to another key at a transaction. */
  datatype StoredValue = Plain(value: Bytes) | Indirect(key: Bytes, atTx: nat)

  datatype EntrySpec = EntrySpec(key: Bytes, md: Option<KVMetadata>, value: StoredValue)

  function EncodeKey(key: Bytes): Bytes { [0] + key }

  function EncodeEntrySpec(key: Bytes, md: Option<KVMetadata>, value: Bytes): EntrySpec {
    EntrySpec(EncodeKey(key), md, Plain(value))
  }

  function EncodeReference(key: Bytes, md: Option<KVMetadata>, referenced: Bytes, atTx: nat): EntrySpec {
    EntrySpec(EncodeKey(key), md, Indirect(EncodeKey(referenced), atTx))
  }

  lemma EncodeKeyInjective(a: Bytes, b: Bytes)
    requires EncodeKey(a) == EncodeKey(b)
    ensures a == b
  {
    assert a == EncodeKey(a)[1..] == EncodeKey(b)[1..] == b;
  }

  /* ---------- Hashes ---------- */

  datatype Digest =
    | Arbitrary(bytes: Bytes)                                   // 32 bytes that are no hash of the kinds below
    | ValueHash(value: StoredValue)
    | EntryV0(key: Bytes, hValue: Digest)                       // version 0 entries carry no metadata
    | EntryV1(attributes: KVMetadata, key: Bytes, hValue: Digest)
    | EmptyTree
    | Leaf(entry: Digest)
    | Node(left: Digest, right: Digest)
    | InnerNode(version: int, nentries: int, eh: Digest, rest: Bytes)
    | AlhNode(id: nat, prev: Digest, inner: Digest)

  predicate SupportedVersion(version: int) { version == 0 || version == 1 }

  /** An entry as a transaction lists it: the value only by its hash. */
  datatype TxEntry = TxEntry(key: Bytes, md: Option<KVMetadata>, hValue: Digest)

  function TxEntryDigest(version: int, e: TxEntry): Digest {
    if version == 0 then EntryV0(e.key, e.hValue) else EntryV1(Attributes(e.md), e.key, e.hValue)
  }

  function Listed(e: EntrySpec): TxEntry { TxEntry(e.key, e.md, ValueHash(e.value)) }

  function EntrySpecDigest(version: int, e: EntrySpec): Digest { TxEntryDigest(version, Listed(e)) }

  /* ---------- The entry tree ---------- */

  /** The largest power of two below `n`. */
  function SplitPoint(n: nat): (k: nat)
    requires n >= 2
    ensures 0 < k < n
  {
    if n == 2 then 1 else 2 * SplitPoint((n + 1) / 2)
  }

  function Root(ds: seq<Digest>): Digest {
    if |ds| == 0 then EmptyTree
    else if |ds| == 1 then Leaf(ds[0])
    else var k := SplitPoint(|ds|); Node(Root(ds[..k]), Root(ds[k..]))
  }

  datatype Step = Step(sibling: Digest, siblingOnLeft: bool)
  type InclusionProof = seq<Step>

  function Combine(d: Digest, s: Step): Digest {
    if s.siblingOnLeft then Node(s.sibling, d) else Node(d, s.sibling)
  }

  /** Hash upwards from `d`, the first step being the one next to the leaf. */
  function Climb(d: Digest, path: InclusionProof): Digest {
    if path == [] then d
    else Combine(Climb(d, path[..|path| - 1]), path[|path| - 1])
  }

  predicate VerifyInclusion(path: InclusionProof, entry: Digest, root: Digest) {
    Climb(Leaf(entry), path) == root
  }

  function Path(ds: seq<Digest>, i: nat): InclusionProof
    requires i < |ds|
    decreases |ds|
  {
    if |ds| == 1 then []
    else
      var k := SplitPoint(|ds|);
      if i < k then Path(ds[..k], i) + [Step(Root(ds[k..]), false)]
      else Path(ds[k..], i - k) + [Step(Root(ds[..k]), true)]
  }

  predicate InTree(entry: Digest, root: Digest) {
    root == Leaf(entry) || (root.Node? && (InTree(entry, root.left) || InTree(entry, root.right)))
  }

  /** Soundness: a path that verifies leads to a leaf of the tree. */
  lemma {:induction false} InclusionSound(path: InclusionProof, entry: Digest, root: Digest)
    requires VerifyInclusion(path, entry, root)
    ensures InTree(entry, root)
    decreases |path|
  {
    if path == [] {
    } else {
      var rest := path[..|path| - 1];
      InclusionSound(rest, entry, Climb(Leaf(entry), rest));
    }
  }

  lemma {:induction false} PathClimbs(ds: seq<Digest>, i: nat)
    requires i < |ds|
    ensures Climb(Leaf(ds[i]), Path(ds, i)) == Root(ds)
    decreases |ds|
  {
    if |ds| == 1 {
    } else {
      var k := SplitPoint(|ds|);
      if i < k {
        PathClimbs(ds[..k], i);
        var p := Path(ds[..k], i);
        assert Path(ds, i)[..|p|] == p;
      } else {
        PathClimbs(ds[k..], i - k);
        var p := Path(ds[k..], i - k);
        assert Path(ds, i)[..|p|] == p;
      }
    }
  }

  lemma {:induction false} ClimbInjective(a: Digest, b: Digest, path: InclusionProof)
    requires Climb(a, path) == Climb(b, path)
    ensures a == b
    decreases |path|
  {
    if path == [] {
    } else {
      ClimbInjective(a, b, path[..|path| - 1]);
    }
  }

  /** A path taken from the tree verifies exactly the entry at its own position. */
  lemma PathIdentifies(ds: seq<Digest>, i: nat, d: Digest)
    requires i < |ds|
    ensures VerifyInclusion(Path(ds, i), d, Root(ds)) <==> d == ds[i]
  {
    PathClimbs(ds, i);
    if VerifyInclusion(Path(ds, i), d, Root(ds)) {
      ClimbInjective(Leaf(d), Leaf(ds[i]), Path(ds, i));
    }
  }

  /** The leaves of a tree are exactly the digests it was built from. */
  lemma {:induction false} TreeMembers(ds: seq<Digest>, d: Digest)
    ensures InTree(d, Root(ds)) <==> d in ds
    decreases |ds|
  {
    if |ds| > 1 {
      var k := SplitPoint(|ds|);
      TreeMembers(ds[..k], d);
      TreeMembers(ds[k..], d);
      assert ds == ds[..k] + ds[k..];
    }
  }

  /* ---------- Transactions ---------- */

  /** `rest` stands for the header fields the client never looks at (timestamp, metadata, binary linking). */
  datatype TxHeader = TxHeader(id: nat, prevAlh: Digest, version: int, nentries: int, eh: Digest, rest: Bytes)

  function Alh(h: TxHeader): Digest {
    AlhNode(h.id, h.prevAlh, InnerNode(h.version, h.nentries, h.eh, h.rest))
  }

  datatype Tx = Tx(header: TxHeader, entries: seq<TxEntry>)

  function EntryDigests(version: int, entries: seq<TxEntry>): (ds: seq<Digest>)
    ensures |ds| == |entries|
    ensures forall i :: 0 <= i < |entries| ==> ds[i] == TxEntryDigest(version, entries[i])
  {
    seq(|entries|, i requires 0 <= i < |entries| => TxEntryDigest(version, entries[i]))
  }

  /** Reading a transaction off the wire rebuilds its entry tree: the header's `eh` is recomputed. */
  function TxFromProto(t: Tx): Tx {
    t.(header := t.header.(eh := Root(EntryDigests(t.header.version, t.entries))))
  }

  /** The first position from `i` on that holds an entry under the key. */
  function IndexFrom(entries: seq<TxEntry>, key: Bytes, i: nat): (r: Option<nat>)
    requires i <= |entries|
    ensures r.Some? ==> i <= r.value < |entries| && entries[r.value].key == key
    decreases |entries| - i
  {
    if i == |entries| then None
    else if entries[i].key == key then Some(i)
    else IndexFrom(entries, key, i + 1)
  }

  function IndexOf(entries: seq<TxEntry>, key: Bytes): (r: Option<nat>)
    ensures r.Some? ==> r.value < |entries| && entries[r.value].key == key
  {
    IndexFrom(entries, key, 0)
  }

  /** A key that occurs is found, and no later than where it is known to occur. */
  lemma {:induction false} Found(entries: seq<TxEntry>, key: Bytes, i: nat, j: nat)
    requires i <= j < |entries| && entries[j].key == key
    ensures IndexFrom(entries, key, i).Some? && IndexFrom(entries, key, i).value <= j
    decreases |entries| - i
  {
    if entries[i].key != key {
      Found(entries, key, i + 1, j);
    }
  }

  /** tx.Proof: the path of the first entry with that key. */
  function ProofFor(tx: Tx, key: Bytes): Option<InclusionProof> {
    var i := IndexOf(tx.entries, key);
    if i.None? then None else Some(Path(EntryDigests(tx.header.version, tx.entries), i.value))
  }

  /* ---------- Dual proofs ---------- */

  /** Rehash from `alh`, the hash of transaction `id`, through the inner hashes of its successors. */
  function Rehash(alh: Digest, id: nat, terms: seq<Digest>): Digest {
    if terms == [] then alh
    else
      var last := |terms| - 1;
      AlhNode(id + |terms|, Rehash(alh, id, terms[..last]), terms[last])
  }

  datatype DualProof = DualProof(source: TxHeader, target: TxHeader, terms: seq<Digest>)

  predicate VerifyDualProof(proof: DualProof, sourceID: nat, targetID: nat, sourceAlh: Digest, targetAlh: Digest) {
    && proof.source.id == sourceID && proof.target.id == targetID
    && 0 < sourceID <= targetID
    && Alh(proof.source) == sourceAlh && Alh(proof.target) == targetAlh
    && |proof.terms| == targetID - sourceID
    && Rehash(sourceAlh, sourceID, proof.terms) == targetAlh
  }

  /* ---------- Messages ---------- */

  type Signature = Bytes

  datatype ImmutableState = ImmutableState(db: string, txId: nat, txHash: Digest, signature: Signature)

  datatype VerifiableTx = VerifiableTx(tx: Tx, dualProof: DualProof, signature: Signature)

  datatype Reference = Reference(tx: nat, key: Bytes, atTx: nat, metadata: Option<KVMetadata>)

  datatype Entry = Entry(tx: nat, key: Bytes, value: Bytes, metadata: Option<KVMetadata>,
                         referencedBy: Option<Reference>)

  datatype VerifiableEntry = VerifiableEntry(entry: Entry, verifiableTx: VerifiableTx, inclusionProof: InclusionProof)

  datatype KeyRequest = KeyRequest(key: Bytes, atTx: nat, sinceTx: nat)

  datatype KeyValue = KeyValue(key: Bytes, value: Bytes)
}
