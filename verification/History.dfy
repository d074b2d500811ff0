/**
 Histories of the ledger as seen from a trusted state: which transactions a hash commits to, what it
 means for one state to extend another, and for an entry to be recorded on a state's history.
 */
module History {
  import opened ImmuStore

  /** `d`, the hash of transaction `n`, commits to `a` as the hash of transaction `i`, through consecutive IDs. */
  predicate Linked(a: Digest, i: nat, d: Digest, n: nat)
    decreases d
  {
    if i == n then a == d
    else i < n && d.AlhNode? && d.id == n && Linked(a, i, d.prev, n - 1)
  }

  /** `d` is the hash of a header with this ID. */
  predicate IsHeaderHash(d: Digest, id: nat) {
    d.AlhNode? && d.id == id && d.inner.InnerNode?
  }

  predicate Anchored(s: ImmutableState) {
    s.txId > 0 ==> IsHeaderHash(s.txHash, s.txId)
  }

  /** The history of `newer` continues that of `older`; a state without transactions is continued by any. */
  predicate Extends(newer: ImmutableState, older: ImmutableState) {
    older.txId > 0 ==> Linked(older.txHash, older.txId, newer.txHash, newer.txId)
  }

  /** What a successful verification claims: `leaf` is an entry of transaction `txId`, whose hash is `txAlh`. */
  datatype Evidence = Evidence(txId: nat, txAlh: Digest, leaf: Digest)

  predicate Recorded(s: ImmutableState, ev: Evidence) {
    && 0 < ev.txId
    && IsHeaderHash(ev.txAlh, ev.txId)
    && InTree(ev.leaf, ev.txAlh.inner.eh)
    && Linked(ev.txAlh, ev.txId, s.txHash, s.txId)
  }

  /**
   When a client that started from `start` may store `next`.  From a state with transactions, both ends
   are anchored and the history is continued.  Whenever the stored state is anchored, what was verified
   is recorded on its history.
   */
  predicate Justified(start: ImmutableState, next: ImmutableState, evs: seq<Evidence>) {
    && (start.txId > 0 ==> Anchored(start) && Anchored(next) && Extends(next, start))
    && (next.txId > 0 && Anchored(next) ==> forall ev | ev in evs :: Recorded(next, ev))
  }

  lemma {:induction false} LinkedTransitive(a: Digest, i: nat, b: Digest, j: nat, c: Digest, k: nat)
    requires Linked(a, i, b, j) && Linked(b, j, c, k)
    ensures Linked(a, i, c, k)
    decreases c
  {
    if j < k {
      LinkedTransitive(a, i, b, j, c.prev, k - 1);
    }
  }

  /** Two transactions committed to by one hash: the earlier is committed to by the later. */
  lemma {:induction false} LinkedTotal(a: Digest, i: nat, b: Digest, j: nat, c: Digest, k: nat)
    requires Linked(a, i, c, k) && Linked(b, j, c, k) && i <= j
    ensures Linked(a, i, b, j)
    decreases c
  {
    if j < k {
      LinkedTotal(a, i, b, j, c.prev, k - 1);
    }
  }

  /** One hash commits to at most one transaction per ID: histories do not fork. */
  lemma LinkedUnique(a: Digest, b: Digest, i: nat, c: Digest, k: nat)
    requires Linked(a, i, c, k) && Linked(b, i, c, k)
    ensures a == b
  {
    LinkedTotal(a, i, b, i, c, k);
  }

  lemma ExtendsTransitive(a: ImmutableState, b: ImmutableState, c: ImmutableState)
    requires Extends(b, a) && Extends(c, b)
    ensures Extends(c, a)
  {
    if a.txId > 0 {
      LinkedTransitive(a.txHash, a.txId, b.txHash, b.txId, c.txHash, c.txId);
    }
  }

  /** What is recorded stays recorded as the trusted state moves on. */
  lemma RecordedPersists(older: ImmutableState, newer: ImmutableState, ev: Evidence)
    requires Recorded(older, ev) && Extends(newer, older)
    ensures Recorded(newer, ev)
  {
    LinkedTransitive(ev.txAlh, ev.txId, older.txHash, older.txId, newer.txHash, newer.txId);
  }

  /** Evidence about one transaction ID on one history is evidence about one transaction. */
  lemma SameIdSameTransaction(s: ImmutableState, ev1: Evidence, ev2: Evidence)
    requires Recorded(s, ev1) && Recorded(s, ev2) && ev1.txId == ev2.txId
    ensures ev1.txAlh == ev2.txAlh
    ensures InTree(ev1.leaf, ev1.txAlh.inner.eh) && InTree(ev2.leaf, ev1.txAlh.inner.eh)
  {
    LinkedUnique(ev1.txAlh, ev2.txAlh, ev1.txId, s.txHash, s.txId);
  }

  /* ---------- Dual proofs and histories ---------- */

  lemma {:induction false} RehashLinks(alh: Digest, id: nat, terms: seq<Digest>)
    ensures Linked(alh, id, Rehash(alh, id, terms), id + |terms|)
    decreases |terms|
  {
    if terms != [] {
      RehashLinks(alh, id, terms[..|terms| - 1]);
    }
  }

  /** Soundness: what a dual proof shows is a continued history between two anchored hashes. */
  lemma DualProofSound(p: DualProof, sourceID: nat, targetID: nat, sourceAlh: Digest, targetAlh: Digest)
    requires VerifyDualProof(p, sourceID, targetID, sourceAlh, targetAlh)
    ensures Linked(sourceAlh, sourceID, targetAlh, targetID)
    ensures IsHeaderHash(sourceAlh, sourceID) && IsHeaderHash(targetAlh, targetID)
  {
    RehashLinks(sourceAlh, sourceID, p.terms);
  }

  /** The inner hashes of the `k` most recent transactions below `d`, oldest first. */
  function Terms(d: Digest, k: nat): seq<Digest> {
    if k == 0 || !d.AlhNode? then [] else Terms(d.prev, k - 1) + [d.inner]
  }

  lemma RehashLast(alh: Digest, id: nat, terms: seq<Digest>, last: Digest)
    ensures Rehash(alh, id, terms + [last]) == AlhNode(id + |terms| + 1, Rehash(alh, id, terms), last)
  {
    assert (terms + [last])[..|terms|] == terms;
  }

  /** Completeness: any continued history has a proof. */
  lemma {:induction false} TermsRehash(a: Digest, i: nat, d: Digest, k: nat)
    requires Linked(a, i, d, i + k)
    ensures |Terms(d, k)| == k && Rehash(a, i, Terms(d, k)) == d
    decreases k
  {
    if k > 0 {
      TermsRehash(a, i, d.prev, k - 1);
      RehashLast(a, i, Terms(d.prev, k - 1), d.inner);
    }
  }

  /** The header behind a hash. */
  function HeaderOf(d: Digest): TxHeader
    requires d.AlhNode? && d.inner.InnerNode?
  {
    TxHeader(d.id, d.prev, d.inner.version, d.inner.nentries, d.inner.eh, d.inner.rest)
  }

  lemma LinkedOrder(a: Digest, i: nat, d: Digest, n: nat) returns (k: nat)
    requires Linked(a, i, d, n)
    ensures n == i + k
  {
    k := n - i;
  }
}
