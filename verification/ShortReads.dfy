/**
 What the single Read of the streamed write costs.  The client verifies the bytes it captured, filled with
 zeros, and sends those delivered; these differ when a Read delivers less than the declared size.
 */
module ShortReads {
  import opened Wrappers
  import opened ImmuStore
  import opened History
  import opened SetVerification
  import opened Ledger
  import opened StreamCapture
  import opened Client

  /* ---------- Counting bytes ---------- */

  function Weight(w: (Bytes, Digest)): nat {
    |w.0| + if w.1.ValueHash? && w.1.value.Plain? then |w.1.value.value| else 0
  }

  function Total(ws: seq<(Bytes, Digest)>): nat {
    if ws == [] then 0 else Weight(ws[0]) + Total(ws[1..])
  }

  function Without<T>(xs: seq<T>, i: nat): (r: seq<T>)
    requires i < |xs|
    ensures |r| == |xs| - 1
  {
    xs[..i] + xs[i + 1..]
  }

  lemma {:induction false} TotalWithout(ws: seq<(Bytes, Digest)>, i: nat)
    requires i < |ws|
    ensures Total(ws) == Weight(ws[i]) + Total(Without(ws, i))
    decreases |ws|
  {
    if i == 0 {
      assert Without(ws, 0) == ws[1..];
    } else {
      TotalWithout(ws[1..], i - 1);
      assert Without(ws, i)[1..] == Without(ws[1..], i - 1);
    }
  }

  lemma MultisetWithout<T>(xs: seq<T>, i: nat)
    requires i < |xs|
    ensures multiset(Without(xs, i)) == multiset(xs) - multiset{xs[i]}
  {
    assert xs == xs[..i] + [xs[i]] + xs[i + 1..];
  }

  lemma Occurrence<T>(xs: seq<T>, ys: seq<T>) returns (i: nat)
    requires multiset(xs) == multiset(ys) && xs != []
    ensures i < |ys| && ys[i] == xs[0]
  {
    assert xs[0] in multiset(ys);
    i :| i < |ys| && ys[i] == xs[0];
  }

  lemma SameLength<T>(xs: seq<T>, ys: seq<T>)
    requires multiset(xs) == multiset(ys)
    ensures |xs| == |ys|
  {
    assert |multiset(xs)| == |xs| && |multiset(ys)| == |ys|;
  }

  /** The total does not depend on the order. */
  lemma {:induction false} TotalOfMultiset(a: seq<(Bytes, Digest)>, b: seq<(Bytes, Digest)>)
    requires multiset(a) == multiset(b)
    ensures Total(a) == Total(b)
    decreases |a|
  {
    SameLength(a, b);
    if a != [] {
      var i := Occurrence(a, b);
      MultisetWithout(a, 0);
      MultisetWithout(b, i);
      TotalWithout(a, 0);
      TotalWithout(b, i);
      TotalOfMultiset(Without(a, 0), Without(b, i));
    }
  }

  /** If nothing is lighter and the totals agree, every weight agrees. */
  lemma {:induction false} TotalsMeet(a: seq<(Bytes, Digest)>, b: seq<(Bytes, Digest)>)
    requires |a| == |b| && forall i :: 0 <= i < |a| ==> Weight(a[i]) >= Weight(b[i])
    ensures Total(a) >= Total(b)
    ensures Total(a) == Total(b) ==> forall i :: 0 <= i < |a| ==> Weight(a[i]) == Weight(b[i])
    decreases |a|
  {
    if a != [] {
      TotalsMeet(a[1..], b[1..]);
      forall i | 0 <= i < |a| && Total(a) == Total(b) ensures Weight(a[i]) == Weight(b[i]) {
        if i > 0 {
          assert a[i] == a[1..][i - 1] && b[i] == b[1..][i - 1];
        }
      }
    }
  }

  /* ---------- Acceptance and short reads ---------- */

  lemma WeightOfWanted(kv: KeyValue)
    ensures Weight(Wanted(kv)) == 1 + |kv.key| + |kv.value|
  {
  }

  lemma SameTotalsAreFull(captured: seq<KeyValue>, sent: seq<KeyValue>, kvs: seq<StreamPair>)
    requires CapturedAs(captured, sent, kvs) && Total(WantedAll(captured)) == Total(WantedAll(sent))
    ensures AllFull(sent, kvs)
  {
    var a, b := WantedAll(captured), WantedAll(sent);
    forall i | 0 <= i < |kvs|
      ensures Weight(a[i]) == 1 + kvs[i].key.size + kvs[i].value.size
      ensures Weight(b[i]) == 1 + |sent[i].key| + |sent[i].value|
      ensures Fits(sent[i], kvs[i])
    {
      WeightOfWanted(captured[i]);
      WeightOfWanted(sent[i]);
      assert captured[i] == FilledPair(sent[i], kvs[i]);
    }
    TotalsMeet(a, b);
  }

  /**
   What an accepted reply says about what was sent, for every server: under distinct keys, the transaction holds
   exactly the sent pairs if and only if every Read filled its buffer.
   */
  lemma AcceptedHoldsSent(state: ImmutableState, captured: seq<KeyValue>, sent: seq<KeyValue>, kvs: seq<StreamPair>,
                          vtx: VerifiableTx, db: string)
    requires CapturedAs(captured, sent, kvs) && DistinctKeys(captured)
    requires VerifyStreamSet(state, captured, vtx, db).Success?
    ensures ExactlyThePairs(vtx.tx, sent) <==> AllFull(sent, kvs)
  {
    StreamSetJustified(state, captured, vtx, db);
    CapturedIsSent(map[], kvs, captured, sent);
    if ExactlyThePairs(vtx.tx, sent) {
      TotalOfMultiset(WantedAll(captured), WantedAll(sent));
      SameTotalsAreFull(captured, sent, kvs);
    }
  }

  /** Every reply that a client in this state accepts holds exactly what was sent. */
  ghost predicate AcceptedHoldSent(state: ImmutableState, captured: seq<KeyValue>, sent: seq<KeyValue>, db: string) {
    forall vtx: VerifiableTx | VerifyStreamSet(state, captured, vtx, db).Success? :: ExactlyThePairs(vtx.tx, sent)
  }

  lemma AcceptedHoldSentIff(state: ImmutableState, captured: seq<KeyValue>, sent: seq<KeyValue>, kvs: seq<StreamPair>,
                            db: string)
    requires CapturedAs(captured, sent, kvs)
    ensures AcceptedHoldSent(state, captured, sent, db) <==>
              !Anchored(state) || !Consistent(captured) || (DistinctKeys(captured) && AllFull(sent, kvs))
  {
    forall vtx: VerifiableTx | VerifyStreamSet(state, captured, vtx, db).Success?
      ensures Anchored(state) && Consistent(captured)
      ensures DistinctKeys(captured) ==> (ExactlyThePairs(vtx.tx, sent) <==> AllFull(sent, kvs))
    {
      StreamSetJustified(state, captured, vtx, db);
      PassingIsConsistent(vtx.tx, captured);
      if DistinctKeys(captured) {
        AcceptedHoldsSent(state, captured, sent, kvs, vtx, db);
      }
    }
    if Anchored(state) && DistinctKeys(captured) {
      DistinctIsAcceptable(state, captured, db);
    } else if Anchored(state) && Consistent(captured) {
      var i, j :| 0 <= i < j < |captured| && captured[i].key == captured[j].key;
      RepeatedPairCanBeReplaced(state, captured, i, j, db);
      PaddedIsForeign(state, captured, j, sent);
    }
  }

  /**
   When whatever is accepted holds exactly what was sent, for every state and all readers: precisely when the
   captured keys are distinct and every reader, in its turn, holds the declared number of bytes and hands them
   out in one Read; or where nothing is accepted at all.
   */
  lemma StreamedWriteHoldsSentIff(ps: Pendings, kvs: seq<StreamPair>, captured: seq<KeyValue>, state: ImmutableState,
                                  db: string)
    requires AllReadable(ps, kvs) && CapturedAs(captured, Reads(ps, kvs), kvs)
    ensures AcceptedHoldSent(state, captured, Reads(ps, kvs), db) <==>
              || !Anchored(state) || !Consistent(captured)
              || (DistinctKeys(captured) && forall i :: 0 <= i < |kvs| ==> FillsAtOnce(kvs[i], TurnOf(ps, kvs, i)))
  {
    AcceptedHoldSentIff(state, captured, Reads(ps, kvs), kvs, db);
    FullReads(ps, kvs);
  }

  /* ---------- If the server commits what was delivered ---------- */

  /**
   Suppose the sender lets short pairs out and the server honestly commits the delivered bytes.  Then a batch
   write under distinct keys succeeds exactly when every Read filled its buffer; else the client refuses.
   */
  lemma AcceptedIffAllFull(l: Ledger, state: ImmutableState, id: nat, captured: seq<KeyValue>, sent: seq<KeyValue>,
                           kvs: seq<StreamPair>, sig: Signature, db: string)
    requires StateOf(l, state) && state.txId <= id && 0 < id <= |l|
    requires SupportedVersion(l[id - 1].version) && Requested(l[id - 1].entries, sent) && |sent| < 0x8000_0000
    requires CapturedAs(captured, sent, kvs) && DistinctKeys(captured)
    ensures VerifyStreamSet(state, captured, HonestSet(l, id, state.txId, sig), db).Success? <==> AllFull(sent, kvs)
  {
    var vtx := HonestSet(l, id, state.txId, sig);
    CapturedIsSent(map[], kvs, captured, sent);
    RequestedIsHeld(l[id - 1].entries, sent);
    if VerifyStreamSet(state, captured, vtx, db).Success? {
      AcceptedHoldsSent(state, captured, sent, kvs, vtx, db);
    }
    if AllFull(sent, kvs) {
      HonestInAnyOrder(l, state, id, captured, sig, db);
    }
  }

  /** On this supposition: of a key `[1]` declared with two bytes, the client refuses the commit. */
  lemma ShortReadIsRefused(pair: StreamPair, state: ImmutableState, sig: Signature, db: string) returns (l: Ledger)
    requires pair.key.size == 2 && pair.value.size == 0 && state.txId == 0
    ensures |l| == 1 && Requested(l[0].entries, [KeyValue([1], [])])
    ensures CapturedAs([KeyValue([1, 0], [])], [KeyValue([1], [])], [pair])
    ensures VerifyStreamSet(state, [KeyValue([1, 0], [])], HonestSet(l, 1, 0, sig), db).Failure?
  {
    l := [TxRecord(1, [EncodeEntrySpec([1], None, [])], [])];
    var captured, sent := [KeyValue([1, 0], [])], [KeyValue([1], [])];
    assert Filled([1], 2) == [1, 0] && Filled([], 0) == [];
    assert FilledPair(sent[0], pair) == captured[0];
    AcceptedIffAllFull(l, state, 1, captured, sent, [pair], sig, db);
    assert !Full(sent[0], pair);
  }

  /* ---------- The input ---------- */

  /** A key declared with two bytes, of which one Read delivers one; the value is empty. */
  predicate ShortPair(pair: StreamPair, held: KeyValue) {
    && pair.key.content.burst == 1 && !pair.key.content.broken && pair.key.size == 2
    && !pair.value.content.broken && pair.value.size == 0 && pair.key.content != pair.value.content
    && held == KeyValue([1], [])
  }

  lemma ShortPairReads(ps: Pendings, pair: StreamPair)
    requires ShortPair(pair, HeldBy(ps, pair))
    ensures AllReadable(ps, [pair]) && Reads(ps, [pair]) == [KeyValue([1], [])]
  {
    var held := KeyValue([1], []);
    assert TurnOf(ps, [pair], 0) == held;
    assert Turns(ps, [pair], 1) == [held];
    assert [1][..1] == [1];
    assert Readable(pair, held) && FirstRead(pair, held) == held;
    assert Reads(ps, [pair])[0] == FirstRead([pair][0], Turns(ps, [pair], 1)[0]);
  }

  lemma ShortPairEnds(ps: Pendings, pair: StreamPair, captured: Option<seq<KeyValue>>, sent: seq<SentPair>)
    requires ShortPair(pair, HeldBy(ps, pair)) && CaptureEnds(ps, [pair], captured, sent)
    ensures captured == Some([KeyValue([1, 0], [])]) && sent == [SentPair(KeyValue([1], []), 2, 0)]
    ensures CapturedAs([KeyValue([1, 0], [])], [KeyValue([1], [])], [pair]) && !AllFull([KeyValue([1], [])], [pair])
  {
    ShortPairReads(ps, pair);
    assert Filled([1], 2) == [1, 0] && Filled([], 0) == [];
    assert [pair][0] == pair;
    assert captured.value[0] == FilledPair(KeyValue([1], []), pair);
    assert captured.value == [KeyValue([1, 0], [])];
    assert !Full(KeyValue([1], []), pair);
  }

  /**
   A reader that delivers one byte at a time, for a key declared with two.  The client sends `[1]` and verifies
   `[1, 0]`: from every anchored state, a transaction that holds `[1, 0]` is accepted for it.
   */
  method ShortReadIsAccepted(ghost state: ImmutableState, ghost db: string)
    returns (captured: Option<seq<KeyValue>>, sent: seq<SentPair>, ghost vtx: VerifiableTx)
    requires Anchored(state)
    ensures captured == Some([KeyValue([1, 0], [])]) && sent == [SentPair(KeyValue([1], []), 2, 0)]
    ensures VerifyStreamSet(state, captured.value, vtx, db).Success?
    ensures !ExactlyThePairs(vtx.tx, [sent[0].kv])
  {
    var key := new Reader([1], 1, false);
    var value := new Reader([], 0, false);
    var pair := StreamPair(ValueSize(key, 2), ValueSize(value, 0));
    var kvs := new StreamPair[1](_ => pair);
    ghost var readers := ReadersOf(kvs[..]);
    ghost var ps := PendingOf(readers);
    assert kvs[..] == [pair];
    assert kvs[..][0] == pair && key in readers && value in readers;
    assert ShortPair(pair, HeldBy(ps, pair));
    captured, sent := CaptureForSending(kvs);
    ShortPairEnds(ps, pair, captured, sent);
    vtx := PaddedReply(state, captured.value, 1);
    DistinctIsAcceptable(state, captured.value, db);
    AcceptedHoldsSent(state, captured.value, [sent[0].kv], [pair], vtx, db);
  }
}
