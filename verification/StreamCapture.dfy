/**
 The capture of keys and values in a streamed write: each reader is read once through a tee, what it
 delivered goes into a zero-filled buffer of the declared size, and a new reader over the delivered
 bytes is put back for sending.
 */
module StreamCapture {
  import opened Wrappers
  import opened ImmuStore

  /** An io.Reader: what it still holds, the most one Read delivers, and whether its Read reports an error. */
  class Reader {
    var pending: Bytes
    const burst: nat
    const broken: bool

    constructor (pending: Bytes, burst: nat, broken: bool)
      ensures this.pending == pending && this.burst == burst && this.broken == broken
    {
      this.pending := pending;
      this.burst := burst;
      this.broken := broken;
    }

    method Read(p: array<byte>) returns (n: nat, failed: bool)
      modifies this`pending, p
      ensures n == Delivered(old(pending), burst, p.Length)
      ensures p[..n] == old(pending)[..n] && p[n..] == old(p[n..])
      ensures pending == old(pending)[n..]
      ensures failed <==> broken || (old(pending) == [] && p.Length > 0)
    {
      n := Delivered(pending, burst, p.Length);
      failed := broken || (pending == [] && p.Length > 0);
      forall i | 0 <= i < n {
        p[i] := pending[i];
      }
      pending := pending[n..];
    }
  }

  /** How many bytes one Read into a buffer of `room` bytes delivers. */
  function Delivered(pending: Bytes, burst: nat, room: nat): (n: nat)
    ensures n <= |pending| && n <= burst && n <= room
    ensures n == |pending| || n == burst || n == room
  {
    var m := if burst < room then burst else room;
    if |pending| < m then |pending| else m
  }

  datatype ValueSize = ValueSize(content: Reader, size: nat)
  datatype StreamPair = StreamPair(key: ValueSize, value: ValueSize)

  /** The bytes followed by zeros up to the declared size. */
  function Filled(bytes: Bytes, size: nat): Bytes
    requires |bytes| <= size
  {
    bytes + seq(size - |bytes|, _ => 0)
  }

  lemma FilledWithZeros(bytes: Bytes, size: nat)
    requires |bytes| <= size
    ensures var r := Filled(bytes, size);
            |r| == size && r[..|bytes|] == bytes && forall i :: |bytes| <= i < size ==> r[i] == 0
    ensures Filled(bytes, size) == bytes <==> |bytes| == size
  {
    var r := Filled(bytes, size);
    assert |r| == size && r[..|bytes|] == bytes;
    if |bytes| == size {
      assert r == r[..size];
    }
  }

  /* ---------- What the readers deliver ---------- */

  ghost function ReadersOf(kvs: seq<StreamPair>): set<Reader> {
    (set i | 0 <= i < |kvs| :: kvs[i].key.content) + (set i | 0 <= i < |kvs| :: kvs[i].value.content)
  }

  /** What each reader still holds. */
  type Pendings = map<Reader, Bytes>

  ghost function PendingOf(readers: set<Reader>): Pendings
    reads readers
  {
    map r | r in readers :: r.pending
  }

  function Left(ps: Pendings, r: Reader): Bytes { if r in ps then ps[r] else [] }

  /** What the pair's readers still hold. */
  function HeldBy(ps: Pendings, pair: StreamPair): KeyValue {
    KeyValue(Left(ps, pair.key.content), Left(ps, pair.value.content))
  }

  /** What one Read into a buffer of the declared size delivers from these bytes, unless it fails. */
  function OneRead(v: ValueSize, pending: Bytes): (r: Option<Bytes>)
    ensures r.Some? ==> r.value <= pending && |r.value| <= v.size
  {
    if v.content.broken || (pending == [] && v.size > 0) then None
    else Some(pending[..Delivered(pending, v.content.burst, v.size)])
  }

  /** What a reader holds after the Read of `v`, which may be a Read of this very reader. */
  function AfterRead(v: ValueSize, r: Reader, held: Bytes): Bytes {
    if v.content == r then held[Delivered(held, v.content.burst, v.size)..] else held
  }

  /** What a reader holds after the Reads of the first `n` pairs, key before value; readers may be shared. */
  function LeftAfter(ps: Pendings, pairs: seq<StreamPair>, n: nat, r: Reader): Bytes
    requires n <= |pairs|
  {
    if n == 0 then Left(ps, r)
    else AfterRead(pairs[n - 1].value, r, AfterRead(pairs[n - 1].key, r, LeftAfter(ps, pairs, n - 1, r)))
  }

  /** What the readers of pair `i` hold when it is their turn. */
  function TurnOf(ps: Pendings, pairs: seq<StreamPair>, i: nat): KeyValue
    requires i < |pairs|
  {
    var k, v := pairs[i].key.content, pairs[i].value.content;
    KeyValue(LeftAfter(ps, pairs, i, k), AfterRead(pairs[i].key, v, LeftAfter(ps, pairs, i, v)))
  }

  /** Both Reads of a pair succeed. */
  predicate Readable(pair: StreamPair, held: KeyValue) {
    OneRead(pair.key, held.key).Some? && OneRead(pair.value, held.value).Some?
  }

  /** The pair delivered by one Read of each reader. */
  function FirstRead(pair: StreamPair, held: KeyValue): (r: KeyValue)
    requires Readable(pair, held)
    ensures Fits(r, pair)
  {
    KeyValue(OneRead(pair.key, held.key).value, OneRead(pair.value, held.value).value)
  }

  /** What the readers of the first `n` pairs hold, each in its turn. */
  function Turns(ps: Pendings, pairs: seq<StreamPair>, n: nat): (r: seq<KeyValue>)
    requires n <= |pairs|
    ensures |r| == n
  {
    if n == 0 then [] else Turns(ps, pairs, n - 1) + [TurnOf(ps, pairs, n - 1)]
  }

  lemma {:induction false} TurnsAt(ps: Pendings, pairs: seq<StreamPair>, n: nat, i: nat)
    requires i < n <= |pairs|
    ensures Turns(ps, pairs, n)[i] == TurnOf(ps, pairs, i)
    decreases n
  {
    if i < n - 1 {
      TurnsAt(ps, pairs, n - 1, i);
    }
  }

  /** Every Read of these pairs succeeds on what its reader holds in its turn. */
  predicate Readables(pairs: seq<StreamPair>, turns: seq<KeyValue>)
    requires |turns| <= |pairs|
  {
    forall i :: 0 <= i < |turns| ==> Readable(pairs[i], turns[i])
  }

  function FirstReads(pairs: seq<StreamPair>, turns: seq<KeyValue>): (r: seq<KeyValue>)
    requires |turns| <= |pairs| && Readables(pairs, turns)
    ensures |r| == |turns|
    ensures forall i :: 0 <= i < |turns| ==> r[i] == FirstRead(pairs[i], turns[i])
  {
    seq(|turns|, i requires 0 <= i < |turns| => FirstRead(pairs[i], turns[i]))
  }

  predicate AllReadable(ps: Pendings, pairs: seq<StreamPair>) {
    Readables(pairs, Turns(ps, pairs, |pairs|))
  }

  /** What the Reads of all pairs deliver. */
  function Reads(ps: Pendings, pairs: seq<StreamPair>): (r: seq<KeyValue>)
    requires AllReadable(ps, pairs)
    ensures |r| == |pairs|
  {
    FirstReads(pairs, Turns(ps, pairs, |pairs|))
  }

  lemma {:induction false} UnreadableStays(ps: Pendings, pairs: seq<StreamPair>, i: nat)
    requires i < |pairs| && !Readable(pairs[i], TurnOf(ps, pairs, i))
    ensures !AllReadable(ps, pairs)
  {
    TurnsAt(ps, pairs, |pairs|, i);
  }

  /**
   When the capture succeeds, in terms of the readers themselves: no reader reports an error, and none that is
   asked for bytes has run out of them when it is its turn.
   */
  lemma AllReadableMeans(ps: Pendings, pairs: seq<StreamPair>)
    ensures AllReadable(ps, pairs) <==>
              forall i :: 0 <= i < |pairs| ==>
                var turn := TurnOf(ps, pairs, i);
                && !pairs[i].key.content.broken && !pairs[i].value.content.broken
                && (pairs[i].key.size > 0 ==> turn.key != [])
                && (pairs[i].value.size > 0 ==> turn.value != [])
  {
    var turns := Turns(ps, pairs, |pairs|);
    forall i | 0 <= i < |pairs| ensures turns[i] == TurnOf(ps, pairs, i) {
      TurnsAt(ps, pairs, |pairs|, i);
    }
  }

  /** The bytes of these pairs one after the other, keys before values. */
  function Stream(kvs: seq<KeyValue>): Bytes {
    if kvs == [] then [] else kvs[0].key + kvs[0].value + Stream(kvs[1..])
  }

  /** All readers of these pairs are one, and it hands out whole pairs of the declared sizes. */
  predicate OneReader(pairs: seq<StreamPair>, r: Reader, kvs: seq<KeyValue>) {
    && |pairs| == |kvs| && !r.broken
    && forall i :: 0 <= i < |pairs| ==>
         && pairs[i].key.content == r && pairs[i].value.content == r
         && pairs[i].key.size == |kvs[i].key| <= r.burst && pairs[i].value.size == |kvs[i].value| <= r.burst
  }

  lemma {:induction false} OneReaderLeft(ps: Pendings, pairs: seq<StreamPair>, r: Reader, kvs: seq<KeyValue>, n: nat)
    requires OneReader(pairs, r, kvs) && Left(ps, r) == Stream(kvs) && n <= |pairs|
    ensures LeftAfter(ps, pairs, n, r) == Stream(kvs[n..])
    decreases n
  {
    if n == 0 {
      assert kvs[0..] == kvs;
    } else {
      OneReaderLeft(ps, pairs, r, kvs, n - 1);
      OneReaderTurn(pairs[n - 1], r, kvs[n - 1], Stream(kvs[n..]));
      assert kvs[n - 1..][1..] == kvs[n..];
    }
  }

  lemma OneReaderTurn(pair: StreamPair, r: Reader, kv: KeyValue, rest: Bytes)
    requires OneReader([pair], r, [kv])
    ensures var held := kv.key + kv.value + rest;
            && AfterRead(pair.key, r, held) == kv.value + rest && AfterRead(pair.value, r, kv.value + rest) == rest
            && Readable(pair, KeyValue(held, kv.value + rest)) && FirstRead(pair, KeyValue(held, kv.value + rest)) == kv
  {
    assert [pair][0] == pair && [kv][0] == kv;
    var held := kv.key + kv.value + rest;
    assert held[..|kv.key|] == kv.key && held[|kv.key|..] == kv.value + rest;
    assert (kv.value + rest)[..|kv.value|] == kv.value && (kv.value + rest)[|kv.value|..] == rest;
  }

  /** The order of the Reads: from one reader over all the bytes, pair after pair is read, each key before its value. */
  lemma OneReaderInOrder(ps: Pendings, pairs: seq<StreamPair>, r: Reader, kvs: seq<KeyValue>)
    requires OneReader(pairs, r, kvs) && Left(ps, r) == Stream(kvs)
    ensures AllReadable(ps, pairs) && Reads(ps, pairs) == kvs
  {
    var turns := Turns(ps, pairs, |pairs|);
    forall i | 0 <= i < |pairs| ensures Readable(pairs[i], turns[i]) && FirstRead(pairs[i], turns[i]) == kvs[i] {
      TurnsAt(ps, pairs, |pairs|, i);
      OneReaderLeft(ps, pairs, r, kvs, i);
      OneReaderTurn(pairs[i], r, kvs[i], Stream(kvs[i + 1..]));
      assert kvs[i..][1..] == kvs[i + 1..];
    }
  }

  /** The pairs' readers are pairwise different. */
  ghost predicate SeparateReaders(kvs: seq<StreamPair>) {
    && (forall i, j :: 0 <= i < |kvs| && 0 <= j < |kvs| ==> kvs[i].key.content != kvs[j].value.content)
    && (forall i, j :: 0 <= i < j < |kvs| ==> kvs[i].key.content != kvs[j].key.content)
    && (forall i, j :: 0 <= i < j < |kvs| ==> kvs[i].value.content != kvs[j].value.content)
  }

  lemma {:induction false} Untouched(ps: Pendings, pairs: seq<StreamPair>, n: nat, r: Reader)
    requires n <= |pairs| && forall j :: 0 <= j < n ==> pairs[j].key.content != r && pairs[j].value.content != r
    ensures LeftAfter(ps, pairs, n, r) == Left(ps, r)
    decreases n
  {
    if n > 0 {
      Untouched(ps, pairs, n - 1, r);
    }
  }

  /** With separate readers each pair finds its readers as the caller left them. */
  lemma SeparateTurn(ps: Pendings, pairs: seq<StreamPair>, i: nat)
    requires i < |pairs| && SeparateReaders(pairs)
    ensures TurnOf(ps, pairs, i) == HeldBy(ps, pairs[i])
  {
    Untouched(ps, pairs, i, pairs[i].key.content);
    Untouched(ps, pairs, i, pairs[i].value.content);
  }

  /* ---------- Captured, sent and meant ---------- */

  predicate Fits(kv: KeyValue, pair: StreamPair) {
    |kv.key| <= pair.key.size && |kv.value| <= pair.value.size
  }

  function FilledPair(kv: KeyValue, pair: StreamPair): KeyValue
    requires Fits(kv, pair)
  {
    KeyValue(Filled(kv.key, pair.key.size), Filled(kv.value, pair.value.size))
  }

  /** Both Reads of the pair filled their buffers. */
  predicate Full(kv: KeyValue, pair: StreamPair) {
    |kv.key| == pair.key.size && |kv.value| == pair.value.size
  }

  /** The captured pairs are the sent ones, filled with zeros up to the declared sizes. */
  predicate CapturedAs(captured: seq<KeyValue>, sent: seq<KeyValue>, kvs: seq<StreamPair>) {
    && |captured| == |sent| == |kvs|
    && forall i :: 0 <= i < |kvs| ==> Fits(sent[i], kvs[i]) && captured[i] == FilledPair(sent[i], kvs[i])
  }

  /** A pair as it is handed to the sender: what its new readers hold, and the sizes declared by the caller. */
  datatype SentPair = SentPair(kv: KeyValue, keySize: nat, valueSize: nat)

  function Declared(delivered: seq<KeyValue>, kvs: seq<StreamPair>): (r: seq<SentPair>)
    requires |delivered| == |kvs|
    ensures |r| == |kvs|
    ensures forall i :: 0 <= i < |kvs| ==> r[i] == SentPair(delivered[i], kvs[i].key.size, kvs[i].value.size)
  {
    seq(|kvs|, i requires 0 <= i < |kvs| => SentPair(delivered[i], kvs[i].key.size, kvs[i].value.size))
  }

  /** How a capture ends: it fails exactly when a Read does, and else captures and sends what they deliver. */
  predicate CaptureEnds(ps: Pendings, kvs: seq<StreamPair>, captured: Option<seq<KeyValue>>, sent: seq<SentPair>)
  {
    && (captured.Some? <==> AllReadable(ps, kvs))
    && (captured.Some? ==>
          sent == Declared(Reads(ps, kvs), kvs) && CapturedAs(captured.value, Reads(ps, kvs), kvs))
  }

  predicate AllFull(sent: seq<KeyValue>, kvs: seq<StreamPair>)
    requires |sent| == |kvs|
  {
    forall i :: 0 <= i < |kvs| ==> Full(sent[i], kvs[i])
  }

  /** The pairs the caller's readers hold when the call begins. */
  function Meant(ps: Pendings, kvs: seq<StreamPair>): (r: seq<KeyValue>)
    ensures |r| == |kvs|
    ensures forall i :: 0 <= i < |kvs| ==> r[i] == HeldBy(ps, kvs[i])
  {
    seq(|kvs|, i requires 0 <= i < |kvs| => HeldBy(ps, kvs[i]))
  }

  /** The readers hold exactly the declared number of bytes and hand them out in one Read. */
  predicate WholePair(pair: StreamPair, held: KeyValue) {
    |held.key| == pair.key.size <= pair.key.content.burst && |held.value| == pair.value.size <= pair.value.content.burst
  }

  /**
   What is verified is what is sent exactly when every Read filled its buffer; and with separate readers
   captured, sent and the caller's own pairs coincide exactly when every reader holds the declared number of
   bytes and delivers them in one Read.
   */
  lemma CapturedIsSent(ps: Pendings, kvs: seq<StreamPair>, captured: seq<KeyValue>, sent: seq<KeyValue>)
    requires CapturedAs(captured, sent, kvs)
    ensures captured == sent <==> AllFull(sent, kvs)
    ensures SeparateReaders(kvs) && AllReadable(ps, kvs) && Reads(ps, kvs) == sent ==>
              (captured == sent == Meant(ps, kvs) <==>
                 forall i :: 0 <= i < |kvs| ==> WholePair(kvs[i], HeldBy(ps, kvs[i])))
  {
    forall i | 0 <= i < |kvs| ensures captured[i] == sent[i] <==> Full(sent[i], kvs[i]) {
      FilledWithZeros(sent[i].key, kvs[i].key.size);
      FilledWithZeros(sent[i].value, kvs[i].value.size);
    }
    if SeparateReaders(kvs) && AllReadable(ps, kvs) && Reads(ps, kvs) == sent {
      forall i | 0 <= i < |kvs|
        ensures Full(sent[i], kvs[i]) && sent[i] == Meant(ps, kvs)[i] <==> WholePair(kvs[i], HeldBy(ps, kvs[i]))
      {
        SeparateTurn(ps, kvs, i);
        TurnsAt(ps, kvs, |kvs|, i);
        WholeReads(kvs[i], HeldBy(ps, kvs[i]));
      }
    }
  }

  /** The readers hold at least the declared number of bytes and hand that many out in one Read. */
  predicate FillsAtOnce(pair: StreamPair, held: KeyValue) {
    && pair.key.size <= |held.key| && pair.key.size <= pair.key.content.burst
    && pair.value.size <= |held.value| && pair.value.size <= pair.value.content.burst
  }

  /**
   When every Read fills its buffer, by what the readers hold in their turn; with separate readers, by what the
   caller's readers hold when the call begins.
   */
  lemma FullReads(ps: Pendings, kvs: seq<StreamPair>)
    requires AllReadable(ps, kvs)
    ensures AllFull(Reads(ps, kvs), kvs) <==> forall i :: 0 <= i < |kvs| ==> FillsAtOnce(kvs[i], TurnOf(ps, kvs, i))
    ensures SeparateReaders(kvs) ==>
              (AllFull(Reads(ps, kvs), kvs) <==> forall i :: 0 <= i < |kvs| ==> FillsAtOnce(kvs[i], HeldBy(ps, kvs[i])))
  {
    var turns := Turns(ps, kvs, |kvs|);
    forall i | 0 <= i < |kvs|
      ensures Full(Reads(ps, kvs)[i], kvs[i]) <==> FillsAtOnce(kvs[i], TurnOf(ps, kvs, i))
      ensures SeparateReaders(kvs) ==> TurnOf(ps, kvs, i) == HeldBy(ps, kvs[i])
    {
      TurnsAt(ps, kvs, |kvs|, i);
      FullRead(kvs[i], turns[i]);
      if SeparateReaders(kvs) {
        SeparateTurn(ps, kvs, i);
      }
    }
  }

  lemma FullRead(pair: StreamPair, held: KeyValue)
    requires Readable(pair, held)
    ensures Full(FirstRead(pair, held), pair) <==> FillsAtOnce(pair, held)
  {
  }

  lemma WholeReads(pair: StreamPair, held: KeyValue)
    requires Readable(pair, held)
    ensures Full(FirstRead(pair, held), pair) && FirstRead(pair, held) == held <==> WholePair(pair, held)
  {
  }

  /* ---------- The capture loop ---------- */

  /** `pair` was put back for sending exactly the bytes of `kv`, and `captured` is `kv` filled with zeros. */
  ghost predicate PutBack(pair: StreamPair, kv: KeyValue, captured: KeyValue)
    reads pair.key.content, pair.value.content
  {
    Holds(pair, kv) && Fits(kv, pair) && captured == FilledPair(kv, pair)
  }

  ghost predicate Holds(pair: StreamPair, kv: KeyValue)
    reads pair.key.content, pair.value.content
  {
    pair.key.content.pending == kv.key && pair.value.content.pending == kv.value
  }

  /** One Read through a tee: a replacement reader over what it delivered, and the buffer filled with zeros. */
  method Capture(v: ValueSize) returns (r: Result<(ValueSize, Bytes)>)
    modifies v.content`pending
    ensures v.content.pending == AfterRead(v, v.content, old(v.content.pending))
    ensures r.Success? <==> OneRead(v, old(v.content.pending)).Some?
    ensures r.Failure? <==> v.content.broken || (old(v.content.pending) == [] && v.size > 0)
    ensures r.Failure? ==> r.error == ReadFailed
    ensures r.Success? ==>
              var delivered := OneRead(v, old(v.content.pending)).value;
              && fresh(r.value.0.content) && r.value.0.size == v.size
              && r.value.0.content.pending == delivered && r.value.1 == Filled(delivered, v.size)
  {
    var buffer := new byte[v.size](_ => 0);
    var n, failed := v.content.Read(buffer);
    if failed {
      return Failure(ReadFailed);
    }
    var tee := buffer[..n];
    var again := new Reader(tee, n, false);
    assert buffer[n..] == seq(v.size - n, _ => 0);
    assert buffer[..] == buffer[..n] + buffer[n..];
    r := Success((ValueSize(again, v.size), buffer[..]));
  }

  /** What the readers of `pair` hold when each is read, key before value, if they hold these now. */
  ghost function TurnNow(pair: StreamPair): KeyValue
    reads pair.key.content, pair.value.content
  {
    KeyValue(pair.key.content.pending, AfterRead(pair.key, pair.value.content, pair.value.content.pending))
  }

  /** One round of the loop: read key and value of pair `i`, and put new readers back. */
  method CapturePair(kvs: array<StreamPair>, i: nat) returns (r: Result<KeyValue>, ghost got: KeyValue)
    requires i < kvs.Length
    modifies kvs, kvs[i].key.content`pending, kvs[i].value.content`pending
    ensures forall j :: 0 <= j < kvs.Length && j != i ==> kvs[j] == old(kvs[j])
    ensures r.Failure? ==> r.error == ReadFailed
    ensures r.Success? <==> Readable(old(kvs[i]), old(TurnNow(kvs[i])))
    ensures r.Success? ==>
              && fresh(kvs[i].key.content) && fresh(kvs[i].value.content)
              && kvs[i].key.size == old(kvs[i].key.size) && kvs[i].value.size == old(kvs[i].value.size)
              && got == FirstRead(old(kvs[i]), old(TurnNow(kvs[i]))) && PutBack(kvs[i], got, r.value)
    ensures r.Success? ==>
              var pair := old(kvs[i]);
              forall rd | rd == pair.key.content || rd == pair.value.content ::
                rd.pending == AfterRead(pair.value, rd, AfterRead(pair.key, rd, old(rd.pending)))
  {
    got := KeyValue([], []);
    var key := Capture(kvs[i].key);
    if key.Failure? {
      return Failure(key.error), got;
    }
    kvs[i] := kvs[i].(key := key.value.0);
    var value := Capture(kvs[i].value);
    if value.Failure? {
      return Failure(value.error), got;
    }
    kvs[i] := kvs[i].(value := value.value.0);
    got := KeyValue(key.value.0.content.pending, value.value.0.content.pending);
    r := Success(KeyValue(key.value.1, value.value.1));
  }

  /** After `n` rounds the caller's readers hold what is left. */
  ghost predicate Tracks(ps: Pendings, pairs: seq<StreamPair>, n: nat, readers: set<Reader>)
    requires n <= |pairs|
    reads readers
  {
    forall r | r in readers :: r.pending == LeftAfter(ps, pairs, n, r)
  }

  /** What the first `n` rounds have delivered and captured. */
  predicate Collected(ps: Pendings, pairs: seq<StreamPair>, n: nat, delivered: seq<KeyValue>, captured: seq<KeyValue>) {
    && n <= |pairs| && |delivered| == |captured| == n
    && forall j {:trigger captured[j]} {:trigger delivered[j]} :: 0 <= j < n ==>
         && Readable(pairs[j], TurnOf(ps, pairs, j)) && delivered[j] == FirstRead(pairs[j], TurnOf(ps, pairs, j))
         && captured[j] == FilledPair(delivered[j], pairs[j])
  }

  lemma CollectedNext(ps: Pendings, pairs: seq<StreamPair>, n: nat, delivered: seq<KeyValue>, captured: seq<KeyValue>,
                      got: KeyValue, filled: KeyValue)
    requires n < |pairs| && Collected(ps, pairs, n, delivered, captured)
    requires Readable(pairs[n], TurnOf(ps, pairs, n)) && got == FirstRead(pairs[n], TurnOf(ps, pairs, n))
    requires filled == FilledPair(got, pairs[n])
    ensures Collected(ps, pairs, n + 1, delivered + [got], captured + [filled])
  {
    var delivered', captured' := delivered + [got], captured + [filled];
    forall j | 0 <= j < n + 1
      ensures Readable(pairs[j], TurnOf(ps, pairs, j)) && delivered'[j] == FirstRead(pairs[j], TurnOf(ps, pairs, j))
      ensures captured'[j] == FilledPair(delivered'[j], pairs[j])
    {
      if j < n {
        assert delivered'[j] == delivered[j] && captured'[j] == captured[j];
      }
    }
  }

  lemma CollectedAll(ps: Pendings, pairs: seq<StreamPair>, delivered: seq<KeyValue>, captured: seq<KeyValue>)
    requires Collected(ps, pairs, |pairs|, delivered, captured)
    ensures AllReadable(ps, pairs) && delivered == Reads(ps, pairs) && CapturedAs(captured, delivered, pairs)
  {
    var turns := Turns(ps, pairs, |pairs|);
    forall i | 0 <= i < |pairs|
      ensures turns[i] == TurnOf(ps, pairs, i) && Readable(pairs[i], turns[i])
      ensures delivered[i] == FirstRead(pairs[i], turns[i]) && captured[i] == FilledPair(delivered[i], pairs[i])
    {
      TurnsAt(ps, pairs, |pairs|, i);
      var captured' := captured[i];
    }
  }

  /** At the start nothing is collected and the readers hold what they held. */
  lemma NothingCollected(ps: Pendings, pairs: seq<StreamPair>, readers: set<Reader>)
    requires readers == ReadersOf(pairs) && ps == PendingOf(readers)
    ensures Collected(ps, pairs, 0, [], []) && Tracks(ps, pairs, 0, readers)
    ensures forall i :: 0 <= i < |pairs| ==> pairs[i].key.content in readers && pairs[i].value.content in readers
  {
  }

  /** One round, in terms of what the caller's readers held at the start. */
  method CaptureRound(kvs: array<StreamPair>, i: nat, ghost ps: Pendings, ghost pairs: seq<StreamPair>,
                      ghost readers: set<Reader>) returns (r: Result<KeyValue>, ghost got: KeyValue)
    requires i < kvs.Length == |pairs| && kvs[i] == pairs[i] && Tracks(ps, pairs, i, readers)
    requires kvs[i].key.content in readers && kvs[i].value.content in readers
    modifies kvs, kvs[i].key.content`pending, kvs[i].value.content`pending
    ensures forall j :: 0 <= j < kvs.Length && j != i ==> kvs[j] == old(kvs[j])
    ensures r.Failure? ==> r.error == ReadFailed
    ensures r.Success? <==> Readable(pairs[i], TurnOf(ps, pairs, i))
    ensures r.Success? ==>
              && fresh(kvs[i].key.content) && fresh(kvs[i].value.content)
              && kvs[i].key.size == pairs[i].key.size && kvs[i].value.size == pairs[i].value.size
              && got == FirstRead(pairs[i], TurnOf(ps, pairs, i)) && r.value == FilledPair(got, pairs[i])
              && PutBack(kvs[i], got, r.value)
              && Tracks(ps, pairs, i + 1, readers)
  {
    r, got := CapturePair(kvs, i);
  }

  /** The capture loop, on readers that hold `ps`. */
  method CaptureLoop(kvs: array<StreamPair>, ghost ps: Pendings, ghost pairs: seq<StreamPair>,
                     ghost readers: set<Reader>)
    returns (r: Result<seq<KeyValue>>, ghost delivered: seq<KeyValue>)
    requires kvs[..] == pairs && Collected(ps, pairs, 0, [], []) && Tracks(ps, pairs, 0, readers)
    requires forall i :: 0 <= i < |pairs| ==> pairs[i].key.content in readers && pairs[i].value.content in readers
    modifies kvs, readers`pending
    ensures r.Failure? ==> r.error == ReadFailed && !AllReadable(ps, pairs)
    ensures r.Success? ==> Collected(ps, pairs, |pairs|, delivered, r.value)
    ensures r.Success? ==> forall i :: 0 <= i < kvs.Length ==>
              && fresh(kvs[i].key.content) && fresh(kvs[i].value.content)
              && kvs[i].key.size == pairs[i].key.size && kvs[i].value.size == pairs[i].value.size
              && PutBack(kvs[i], delivered[i], r.value[i])
  {
    hide Tracks;
    var stdKVs: seq<KeyValue> := [];
    delivered := [];
    for i := 0 to kvs.Length
      invariant |delivered| == |stdKVs| == i
      invariant Collected(ps, pairs, i, delivered, stdKVs) && Tracks(ps, pairs, i, readers)
      invariant forall j :: i <= j < kvs.Length ==> kvs[j] == pairs[j]
      invariant forall j :: 0 <= j < i ==>
                  && fresh(kvs[j].key.content) && fresh(kvs[j].value.content)
                  && kvs[j].key.size == pairs[j].key.size && kvs[j].value.size == pairs[j].value.size
                  && PutBack(kvs[j], delivered[j], stdKVs[j])
    {
      var captured, got := CaptureRound(kvs, i, ps, pairs, readers);
      if captured.Failure? {
        UnreadableStays(ps, pairs, i);
        return Failure(captured.error), delivered;
      }
      CollectedNext(ps, pairs, i, delivered, stdKVs, got, captured.value);
      delivered := delivered + [got];
      stdKVs := stdKVs + [captured.value];
    }
    r := Success(stdKVs);
  }

  /**
   The capture of all pairs.  It succeeds exactly when every Read does in its turn; `delivered` is then what the Reads
   delivered, every pair holds new readers over exactly these bytes, and what is verified later is these
   bytes filled up with zeros.
   */
  method CaptureAll(kvs: array<StreamPair>) returns (r: Result<seq<KeyValue>>, ghost delivered: seq<KeyValue>)
    modifies kvs, ReadersOf(kvs[..])`pending
    ensures r.Failure? ==> r.error == ReadFailed
    ensures var ps := old(PendingOf(ReadersOf(kvs[..])));
            && (r.Success? <==> AllReadable(ps, old(kvs[..])))
            && (r.Success? ==> delivered == Reads(ps, old(kvs[..])))
    ensures r.Success? ==> |r.value| == |delivered| == kvs.Length
    ensures r.Success? ==> forall i :: 0 <= i < kvs.Length ==>
              && fresh(kvs[i].key.content) && fresh(kvs[i].value.content)
              && kvs[i].key.size == old(kvs[i].key.size) && kvs[i].value.size == old(kvs[i].value.size)
              && PutBack(kvs[i], delivered[i], r.value[i])
  {
    ghost var pairs := kvs[..];
    ghost var readers := ReadersOf(pairs);
    ghost var ps := PendingOf(readers);
    NothingCollected(ps, pairs, readers);
    r, delivered := CaptureLoop(kvs, ps, pairs, readers);
    if r.Success? {
      CollectedAll(ps, pairs, delivered, r.value);
    }
  }
}
