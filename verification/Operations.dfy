/**
 What a verified operation does to its slot of the shared cache, as a function of the state it starts
 from, the server's reply and the faults of its environment.
 */
module Operations {
  import opened Wrappers
  import opened ImmuStore
  import opened History
  import opened GetVerification
  import opened SetVerification
  import opened CacheProtocol

  /** A signing key, known by the states whose signature it accepts. */
  type Verifier = ImmutableState -> bool

  /** What can go wrong around an operation.  `reported` is the server's current state, asked for an empty slot. */
  datatype Env = Env(lockFails: bool, fetchFails: bool, reported: Result<ImmutableState>, setFails: nat -> bool)

  function Lookup(cache: map<string, ImmutableState>, slot: string): Option<ImmutableState> {
    if slot in cache then Some(cache[slot]) else None
  }

  /** Taking the lock and fetching the trusted state. */
  function Begin(locked: bool, slot: Option<ImmutableState>, env: Env): Result<ImmutableState> {
    if locked || env.lockFails then Failure(LockFailed)
    else if env.fetchFails then Failure(StateUnavailable)
    else if slot.Some? then Success(slot.value)
    else env.reported
  }

  /**
   What an operation starts from, if the lock is free and nothing fails: the slot's state, or for an empty slot
   what the server reports.  Otherwise the first thing that went wrong is the error.
   */
  lemma BeginMeans(locked: bool, slot: Option<ImmutableState>, env: Env, s: ImmutableState)
    ensures Begin(locked, slot, env) == Success(s) <==>
              && !locked && !env.lockFails && !env.fetchFails
              && (slot == Some(s) || (slot.None? && env.reported == Success(s)))
    ensures locked || env.lockFails ==> Begin(locked, slot, env) == Failure(LockFailed)
    ensures !locked && !env.lockFails && env.fetchFails ==> Begin(locked, slot, env) == Failure(StateUnavailable)
    ensures !locked && !env.lockFails && !env.fetchFails && slot.None? ==> Begin(locked, slot, env) == env.reported
  {
  }

  /** The slot's state afterwards, the stores made on the way, and the error returned, if any. */
  datatype Effect = Effect(state: ImmutableState, stores: seq<Event>, error: Option<Error>)

  /** An operation that got no state to start from leaves the cache alone. */
  predicate Refused(locked: bool, env: Env, cache: map<string, ImmutableState>, cache': map<string, ImmutableState>,
                    events: seq<Event>)
  {
    && cache' == cache
    && events == if locked || env.lockFails then [] else [Acquire, Release]
  }

  /** The cache and the events after an operation on one slot.  No other slot can differ. */
  predicate Performed(slot: string, start: ImmutableState, effect: Effect,
                      cache: map<string, ImmutableState>, cache': map<string, ImmutableState>, events: seq<Event>)
  {
    && cache' == cache[slot := effect.state]
    && events == [Acquire, Fetch(slot, start)] + effect.stores + [Release]
  }

  /** An operation ended one of these ways: events and lock are in order either way. */
  predicate Ended(locked: bool, env: Env, slot: string, start: Result<ImmutableState>, effect: Effect,
                  cache: map<string, ImmutableState>, cache': map<string, ImmutableState>,
                  trace: seq<Event>, trace': seq<Event>)
  {
    && trace <= trace'
    && Section(trace'[|trace|..])
    && if start.Failure? then Refused(locked, env, cache, cache', trace'[|trace|..])
       else Performed(slot, start.value, effect, cache, cache', trace'[|trace|..])
  }

  /** The effect of an operation that got no state to start from: only its error. */
  function Unstarted(e: Error): Effect { Effect(ImmutableState("", 0, EmptyTree, []), [], Some(e)) }

  /** The client's own judgement of a reply: the next state with its evidence, or an error. */
  type Verdict = Result<(ImmutableState, seq<Evidence>)>

  /** The order of the reads: store, then check the signature. */
  function CommitThenCheck(slot: string, cached: ImmutableState, verdict: Verdict, setFails: bool,
                           key: Option<Verifier>): Effect
  {
    if verdict.Failure? then Effect(cached, [], Some(verdict.error))
    else if setFails then Effect(cached, [], Some(SetStateFailed))
    else
      var (next, evs) := verdict.value;
      Effect(next, [Store(slot, next, evs)], if key.Some? && !key.value(next) then Some(SignatureMismatch) else None)
  }

  /** The order of the writes and of the streamed read: check the signature, then store. */
  function CheckThenCommit(slot: string, cached: ImmutableState, verdict: Verdict, setFails: bool,
                           key: Option<Verifier>): Effect
  {
    if verdict.Failure? then Effect(cached, [], Some(verdict.error))
    else
      var (next, evs) := verdict.value;
      if key.Some? && !key.value(next) then Effect(cached, [], Some(SignatureMismatch))
      else if setFails then Effect(cached, [], Some(SetStateFailed))
      else Effect(next, [Store(slot, next, evs)], None)
  }

  /** A judgement made of the new state and what it rests on. */
  function Judged(next: Result<ImmutableState>, evs: seq<Evidence>): Verdict {
    if next.Failure? then Failure(next.error) else Success((next.value, evs))
  }

  function GetEvidences(start: ImmutableState, reply: Result<VerifiableEntry>, kReq: KeyRequest): seq<Evidence> {
    if reply.Failure? then [] else [GetEvidence(start, reply.value, kReq)]
  }

  function SetEvidences(kvs: seq<KeyValue>, reply: Result<VerifiableTx>, next: Result<ImmutableState>): seq<Evidence> {
    if reply.Failure? || next.Failure? || |kvs| != |reply.value.tx.entries| then []
    else SetEvidence(kvs, reply.value.tx)
  }

  function GetVerdict(start: ImmutableState, reply: Result<VerifiableEntry>, kReq: KeyRequest, db: string): Verdict {
    var next := if reply.Failure? then Failure(reply.error) else VerifyGet(start, reply.value, kReq, db);
    Judged(next, GetEvidences(start, reply, kReq))
  }

  function SetVerdict(start: ImmutableState, key: Bytes, value: Bytes, reply: Result<VerifiableTx>, db: string)
    : Verdict
  {
    var next := if reply.Failure? then Failure(reply.error) else VerifySet(start, key, value, reply.value, db);
    Judged(next, SetEvidences([KeyValue(key, value)], reply, next))
  }

  function StreamSetVerdict(start: ImmutableState, kvs: seq<KeyValue>, reply: Result<VerifiableTx>, db: string)
    : Verdict
  {
    var next := if reply.Failure? then Failure(reply.error) else VerifyStreamSet(start, kvs, reply.value, db);
    Judged(next, SetEvidences(kvs, reply, next))
  }

  /** The effects of the operations, from whatever `Begin` gave. */
  function ReadEffect(slot: string, start: Result<ImmutableState>, reply: Result<VerifiableEntry>, kReq: KeyRequest,
                      db: string, setFails: bool, key: Option<Verifier>): Effect
  {
    if start.Failure? then Unstarted(start.error)
    else CommitThenCheck(slot, start.value, GetVerdict(start.value, reply, kReq, db), setFails, key)
  }

  function StreamReadEffect(slot: string, start: Result<ImmutableState>, reply: Result<VerifiableEntry>,
                            kReq: KeyRequest, db: string, setFails: bool, key: Option<Verifier>): Effect
  {
    if start.Failure? then Unstarted(start.error)
    else CheckThenCommit(slot, start.value, GetVerdict(start.value, reply, kReq, db), setFails, key)
  }

  function WriteEffect(slot: string, start: Result<ImmutableState>, k: Bytes, value: Bytes, reply: Result<VerifiableTx>,
                       db: string, setFails: bool, key: Option<Verifier>): Effect
  {
    if start.Failure? then Unstarted(start.error)
    else CheckThenCommit(slot, start.value, SetVerdict(start.value, k, value, reply, db), setFails, key)
  }

  /** The pairs are missing if they could not be captured. */
  function StreamWriteEffect(slot: string, start: Result<ImmutableState>, kvs: Option<seq<KeyValue>>,
                             reply: Result<VerifiableTx>, db: string, setFails: bool, key: Option<Verifier>): Effect
  {
    if start.Failure? then Unstarted(start.error)
    else if kvs.None? then CheckThenCommit(slot, start.value, Failure(ReadFailed), setFails, key)
    else CheckThenCommit(slot, start.value, StreamSetVerdict(start.value, kvs.value, reply, db), setFails, key)
  }

  /* ---------- Every operation is a lawful section ---------- */

  predicate Sound(start: ImmutableState, verdict: Verdict) {
    verdict.Success? ==> Justified(start, verdict.value.0, verdict.value.1)
  }

  /** Stores to one slot, all justified by one start. */
  predicate StoresFrom(slot: string, start: ImmutableState, stores: seq<Event>) {
    forall i :: 0 <= i < |stores| ==>
      stores[i].Store? && stores[i].slot == slot && Justified(start, stores[i].state, stores[i].evs)
  }

  /** From `cached`, the stores go to the slot, are justified by `start`, and the last one is what the slot holds. */
  predicate LawfulFrom(slot: string, start: ImmutableState, cached: ImmutableState, effect: Effect) {
    && StoresFrom(slot, start, effect.stores)
    && (if effect.stores == [] then effect.state == cached
        else effect.stores[|effect.stores| - 1].Store? && effect.state == effect.stores[|effect.stores| - 1].state)
  }

  predicate Lawful(slot: string, start: ImmutableState, effect: Effect) { LawfulFrom(slot, start, start, effect) }

  lemma GetSound(start: ImmutableState, reply: Result<VerifiableEntry>, kReq: KeyRequest, db: string)
    ensures Sound(start, GetVerdict(start, reply, kReq, db))
  {
    if GetVerdict(start, reply, kReq, db).Success? {
      GetJustified(start, reply.value, kReq, db);
    }
  }

  lemma SetSound(start: ImmutableState, key: Bytes, value: Bytes, reply: Result<VerifiableTx>, db: string)
    ensures Sound(start, SetVerdict(start, key, value, reply, db))
  {
    if reply.Success? {
      SetExact(start, key, value, reply.value, db);
    }
  }

  lemma StreamSetSound(start: ImmutableState, kvs: seq<KeyValue>, reply: Result<VerifiableTx>, db: string)
    ensures Sound(start, StreamSetVerdict(start, kvs, reply, db))
  {
    if StreamSetVerdict(start, kvs, reply, db).Success? {
      StreamSetJustified(start, kvs, reply.value, db);
    }
  }

  /**
   A read that fails leaves the slot at what it fetched, or, when only the signature check failed, at a
   state proven to continue it.  A read that succeeds stores such a state, with a checked signature.
   */
  lemma ReadOutcome(slot: string, start: ImmutableState, reply: Result<VerifiableEntry>, kReq: KeyRequest, db: string,
                    setFails: bool, key: Option<Verifier>)
    ensures var e := CommitThenCheck(slot, start, GetVerdict(start, reply, kReq, db), setFails, key);
            && Lawful(slot, start, e)
            && (e.stores == [] ==> e.state == start && e.error == Some(
                  if reply.Failure? then reply.error
                  else if VerifyGet(start, reply.value, kReq, db).Failure? then
                    VerifyGet(start, reply.value, kReq, db).error
                  else SetStateFailed))
            && (e.stores != [] <==> reply.Success? && VerifyGet(start, reply.value, kReq, db).Success? && !setFails)
            && (e.stores != [] ==>
                  && reply.Success? && VerifyGet(start, reply.value, kReq, db) == Success(e.state)
                  && Justified(start, e.state, [GetEvidence(start, reply.value, kReq)])
                  && (if key.None? || key.value(e.state) then e.error.None? else e.error == Some(SignatureMismatch)))
  {
    GetSound(start, reply, kReq, db);
  }

  /** What checking before storing gives: all or nothing, and only states with a checked signature. */
  predicate AllOrNothing(slot: string, start: ImmutableState, verdict: Verdict, setFails: bool, key: Option<Verifier>,
                         e: Effect)
  {
    && Lawful(slot, start, e)
    && (e.error.Some? ==> e.state == start && e.stores == [] && e.error == Some(
          if verdict.Failure? then verdict.error
          else if key.Some? && !key.value(verdict.value.0) then SignatureMismatch
          else SetStateFailed))
    && (e.error.None? <==> verdict.Success? && !setFails && (key.Some? ==> key.value(verdict.value.0)))
    && (e.error.None? ==> e.state == verdict.value.0 && |e.stores| == 1)
  }

  /** A verdict passes on the client's computation: its error, or its state. */
  predicate Follows(v: Verdict, next: Result<ImmutableState>) {
    if next.Failure? then v == Failure(next.error) else v.Success? && v.value.0 == next.value
  }

  lemma SetOutcome(slot: string, start: ImmutableState, k: Bytes, value: Bytes, reply: Result<VerifiableTx>, db: string,
                   setFails: bool, key: Option<Verifier>)
    ensures var v := SetVerdict(start, k, value, reply, db);
            && AllOrNothing(slot, start, v, setFails, key, CheckThenCommit(slot, start, v, setFails, key))
            && Follows(v, if reply.Failure? then Failure(reply.error) else VerifySet(start, k, value, reply.value, db))
  {
    SetSound(start, k, value, reply, db);
  }

  lemma StreamSetOutcomes(slot: string, start: ImmutableState, kvs: seq<KeyValue>, reply: Result<VerifiableTx>,
                          db: string, setFails: bool, key: Option<Verifier>)
    ensures var v := StreamSetVerdict(start, kvs, reply, db);
            && AllOrNothing(slot, start, v, setFails, key, CheckThenCommit(slot, start, v, setFails, key))
            && Follows(v, if reply.Failure? then Failure(reply.error) else VerifyStreamSet(start, kvs, reply.value, db))
  {
    StreamSetSound(start, kvs, reply, db);
  }

  lemma StreamGetOutcome(slot: string, start: ImmutableState, reply: Result<VerifiableEntry>, kReq: KeyRequest,
                         db: string, setFails: bool, key: Option<Verifier>)
    ensures var v := GetVerdict(start, reply, kReq, db);
            && AllOrNothing(slot, start, v, setFails, key, CheckThenCommit(slot, start, v, setFails, key))
            && Follows(v, if reply.Failure? then Failure(reply.error) else VerifyGet(start, reply.value, kReq, db))
  {
    GetSound(start, reply, kReq, db);
  }

  /** A batch write that could not be captured changes nothing and reports the failed Read. */
  lemma NotCaptured(slot: string, start: ImmutableState, reply: Result<VerifiableTx>, db: string, setFails: bool,
                    key: Option<Verifier>)
    ensures StreamWriteEffect(slot, Success(start), None, reply, db, setFails, key)
         == Effect(start, [], Some(ReadFailed))
  {
  }

  lemma AdvanceLast(p: Phase, trace: seq<Event>, e: Event)
    ensures AdvanceAll(p, trace + [e]) ==
            (if AdvanceAll(p, trace).None? then None else Advance(AdvanceAll(p, trace).value, e))
  {
    assert (trace + [e])[..|trace|] == trace;
  }

  lemma {:induction false} StoresAdvance(slot: string, start: ImmutableState, stores: seq<Event>)
    requires StoresFrom(slot, start, stores)
    ensures var p := AdvanceAll(Idle, [Acquire, Fetch(slot, start)] + stores);
            p.Some? && p.value.Working? && p.value.slot == slot && p.value.start == start
    decreases |stores|
  {
    var opening := [Acquire, Fetch(slot, start)];
    if stores == [] {
      AdvanceLast(Idle, [], Acquire);
      AdvanceLast(Idle, [Acquire], Fetch(slot, start));
      assert [] + [Acquire] == [Acquire] && [Acquire] + [Fetch(slot, start)] == opening == opening + stores;
    } else {
      var last := |stores| - 1;
      StoresAdvance(slot, start, stores[..last]);
      AdvanceLast(Idle, opening + stores[..last], stores[last]);
      assert opening + stores == opening + stores[..last] + [stores[last]];
    }
  }

  lemma RefusedIsSection(locked: bool, env: Env, cache: map<string, ImmutableState>,
                         cache': map<string, ImmutableState>, events: seq<Event>)
    requires Refused(locked, env, cache, cache', events)
    ensures Section(events)
  {
    AdvanceLast(Idle, [], Acquire);
    AdvanceLast(Idle, [Acquire], Release);
    assert [] + [Acquire] == [Acquire] && [Acquire] + [Release] == [Acquire, Release];
  }

  /** Lock discipline: the events of a lawful operation lock at most once and end unlocked. */
  lemma PerformedIsSection(slot: string, start: ImmutableState, effect: Effect, cache: map<string, ImmutableState>,
                           cache': map<string, ImmutableState>, events: seq<Event>)
    requires Performed(slot, start, effect, cache, cache', events) && Lawful(slot, start, effect)
    ensures Section(events)
  {
    var front := [Acquire, Fetch(slot, start)] + effect.stores;
    StoresAdvance(slot, start, effect.stores);
    AdvanceLast(Idle, front, Release);
    forall i | 0 < i < |events| ensures events[i] != Acquire {
      if 2 <= i < |front| {
        assert events[i] == effect.stores[i - 2];
      }
    }
  }

  /* ---------- The batch read ---------- */

  datatype VerifiableItemExt = VerifiableItemExt(item: VerifiableEntry, extra: Bytes)

  /** The judgement of each item against the state fetched at the start; none for an item the server failed on. */
  function ItemVerdicts(start: ImmutableState, items: seq<VerifiableItemExt>, errors: seq<string>,
                        reqs: seq<KeyRequest>, db: string): (vs: seq<Option<Verdict>>)
    requires |items| == |errors| == |reqs|
    ensures |vs| == |items|
    ensures forall i :: 0 <= i < |vs| ==>
              vs[i] == (if errors[i] != "" then None
                        else Some(GetVerdict(start, Success(items[i].item), reqs[i], db)))
  {
    seq(|items|, i requires 0 <= i < |items| =>
      if errors[i] != "" then None else Some(GetVerdict(start, Success(items[i].item), reqs[i], db)))
  }

  /** The loop over the items from `i` on. */
  function BatchFrom(slot: string, cached: ImmutableState, vs: seq<Option<Verdict>>,
                     setFails: nat -> bool, key: Option<Verifier>, i: nat): Effect
    requires i <= |vs|
    decreases |vs| - i
  {
    if i == |vs| then Effect(cached, [], None)
    else if vs[i].None? then BatchFrom(slot, cached, vs, setFails, key, i + 1)
    else
      var one := CommitThenCheck(slot, cached, vs[i].value, setFails(i), key);
      if one.error.Some? then one
      else
        var rest := BatchFrom(slot, one.state, vs, setFails, key, i + 1);
        Effect(rest.state, one.stores + rest.stores, rest.error)
  }

  function Before(stores: seq<Event>, e: Effect): Effect { Effect(e.state, stores + e.stores, e.error) }

  lemma BeforeNothing(e: Effect)
    ensures Before([], e) == e
  {
    assert [] + e.stores == e.stores;
  }

  lemma BeforeEnd(stores: seq<Event>, state: ImmutableState)
    ensures Before(stores, Effect(state, [], None)) == Effect(state, stores, None)
  {
    assert stores + [] == stores;
  }

  /** One judged item of the loop. */
  lemma BeforeStep(slot: string, cached: ImmutableState, vs: seq<Option<Verdict>>, setFails: nat -> bool,
                   key: Option<Verifier>, i: nat, stores: seq<Event>)
    requires i < |vs| && vs[i].Some?
    ensures var one := CommitThenCheck(slot, cached, vs[i].value, setFails(i), key);
            Before(stores, BatchFrom(slot, cached, vs, setFails, key, i)) ==
            (if one.error.Some? then Effect(one.state, stores + one.stores, one.error)
             else Before(stores + one.stores, BatchFrom(slot, one.state, vs, setFails, key, i + 1)))
  {
    var one := CommitThenCheck(slot, cached, vs[i].value, setFails(i), key);
    var rest := BatchFrom(slot, one.state, vs, setFails, key, i + 1);
    assert stores + (one.stores + rest.stores) == stores + one.stores + rest.stores;
  }

  /** The whole batch read: remote failures and misshapen replies change nothing. */
  function BatchEffect(slot: string, start: Result<ImmutableState>, reply: Result<MultiReply>,
                       reqs: seq<KeyRequest>, db: string, setFails: nat -> bool, key: Option<Verifier>): Effect
  {
    if start.Failure? then Unstarted(start.error)
    else if reply.Failure? then Effect(start.value, [], Some(reply.error))
    else if |reply.value.0| != |reqs| || |reply.value.1| != |reqs| then Effect(start.value, [], Some(CountMismatch))
    else
      var vs := ItemVerdicts(start.value, reply.value.0, reply.value.1, reqs, db);
      BatchFrom(slot, start.value, vs, setFails, key, 0)
  }

  /** Item `i` verifies against the start, can be stored and has a good signature. */
  predicate ItemOk(v: Verdict, setFails: bool, key: Option<Verifier>) {
    v.Success? && !setFails && (key.Some? ==> key.value(v.value.0))
  }

  /** The last judged item among the first `n`. */
  function LastJudged(vs: seq<Option<Verdict>>, n: nat): (r: Option<nat>)
    requires n <= |vs|
    ensures r.Some? ==> r.value < n && vs[r.value].Some? && forall i :: r.value < i < n ==> vs[i].None?
    ensures r.None? ==> forall i :: 0 <= i < n ==> vs[i].None?
  {
    if n == 0 then None else if vs[n - 1].Some? then Some(n - 1) else LastJudged(vs, n - 1)
  }

  /** The state left by the first `n` items, if all of them went well. */
  function StateAfter(start: ImmutableState, vs: seq<Option<Verdict>>, n: nat): ImmutableState
    requires n <= |vs|
  {
    var last := LastJudged(vs, n);
    if last.None? || vs[last.value].value.Failure? then start else vs[last.value].value.value.0
  }

  /**
   How a batch ends.  Either every judged item went well, and the state is that of the last of them; or
   `stop` is the first judged item that did not, its error is returned, and the state is that of the last
   item written: `stop` itself if only its signature was wrong, else the last before it.
   */
  predicate BatchEnds(start: ImmutableState, vs: seq<Option<Verdict>>, setFails: nat -> bool, key: Option<Verifier>,
                      e: Effect, stop: nat)
  {
    && stop <= |vs|
    && (forall i :: 0 <= i < stop && vs[i].Some? ==> ItemOk(vs[i].value, setFails(i), key))
    && (if stop == |vs| then
          e.error.None? && e.state == StateAfter(start, vs, stop)
        else
          && vs[stop].Some? && !ItemOk(vs[stop].value, setFails(stop), key)
          && var v := vs[stop].value;
             if v.Failure? then e.error == Some(v.error) && e.state == StateAfter(start, vs, stop)
             else if setFails(stop) then e.error == Some(SetStateFailed) && e.state == StateAfter(start, vs, stop)
             else e.error == Some(SignatureMismatch) && e.state == v.value.0)
  }

  lemma {:induction false} BatchFromEnds(slot: string, start: ImmutableState, vs: seq<Option<Verdict>>,
                                         setFails: nat -> bool, key: Option<Verifier>, i: nat) returns (stop: nat)
    requires i <= |vs| && forall j :: 0 <= j < i && vs[j].Some? ==> ItemOk(vs[j].value, setFails(j), key)
    ensures BatchEnds(start, vs, setFails, key, BatchFrom(slot, StateAfter(start, vs, i), vs, setFails, key, i), stop)
    decreases |vs| - i
  {
    if i < |vs| && (vs[i].None? || ItemOk(vs[i].value, setFails(i), key)) {
      stop := BatchFromEnds(slot, start, vs, setFails, key, i + 1);
    } else {
      stop := i;
    }
  }

  /** On every reply, a batch read ends in one of those ways. */
  lemma BatchOutcome(slot: string, start: ImmutableState, vs: seq<Option<Verdict>>, setFails: nat -> bool,
                     key: Option<Verifier>) returns (stop: nat)
    ensures BatchEnds(start, vs, setFails, key, BatchFrom(slot, start, vs, setFails, key, 0), stop)
  {
    stop := BatchFromEnds(slot, start, vs, setFails, key, 0);
  }

  /**
   A successful batch from a state with transactions: every error-free item verified against the start, and
   the slot ends at the later of the start and the last error-free item.
   */
  lemma BatchTransition(slot: string, start: ImmutableState, items: seq<VerifiableItemExt>, errors: seq<string>,
                        reqs: seq<KeyRequest>, db: string, setFails: nat -> bool, key: Option<Verifier>)
    requires |items| == |errors| == |reqs| && start.txId > 0
    requires BatchFrom(slot, start, ItemVerdicts(start, items, errors, reqs, db), setFails, key, 0).error.None?
    ensures forall i :: 0 <= i < |items| && errors[i] == "" ==> VerifyGet(start, items[i].item, reqs[i], db).Success?
    ensures var vs := ItemVerdicts(start, items, errors, reqs, db);
            var final := BatchFrom(slot, start, vs, setFails, key, 0).state;
            var last := LastJudged(vs, |vs|);
            && Extends(final, start)
            && final.txId == (if last.None? then start.txId
                              else Max(start.txId, ClaimedTx(items[last.value].item.entry)))
  {
    var vs := ItemVerdicts(start, items, errors, reqs, db);
    var stop := BatchOutcome(slot, start, vs, setFails, key);
    forall i | 0 <= i < |items| && errors[i] == "" ensures VerifyGet(start, items[i].item, reqs[i], db).Success? {
      assert vs[i].Some? && ItemOk(vs[i].value, setFails(i), key);
    }
    var last := LastJudged(vs, |vs|);
    if last.Some? {
      assert ItemOk(vs[last.value].value, setFails(last.value), key);
      GetTransition(start, items[last.value].item, reqs[last.value], db);
    }
  }

  lemma CommitLawful(slot: string, start: ImmutableState, cached: ImmutableState, v: Verdict, setFails: bool,
                     key: Option<Verifier>)
    requires Sound(start, v)
    ensures LawfulFrom(slot, start, cached, CommitThenCheck(slot, cached, v, setFails, key))
  {
  }

  lemma LawfulThen(slot: string, start: ImmutableState, cached: ImmutableState, one: Effect, rest: Effect)
    requires LawfulFrom(slot, start, cached, one) && LawfulFrom(slot, start, one.state, rest)
    ensures LawfulFrom(slot, start, cached, Effect(rest.state, one.stores + rest.stores, rest.error))
  {
    if rest.stores == [] {
      assert one.stores + rest.stores == one.stores;
    }
  }

  lemma {:induction false} BatchLawful(slot: string, start: ImmutableState, cached: ImmutableState,
                                       vs: seq<Option<Verdict>>, setFails: nat -> bool, key: Option<Verifier>, i: nat)
    requires i <= |vs| && forall j :: 0 <= j < |vs| && vs[j].Some? ==> Sound(start, vs[j].value)
    ensures LawfulFrom(slot, start, cached, BatchFrom(slot, cached, vs, setFails, key, i))
    decreases |vs| - i
  {
    if i < |vs| {
      if vs[i].None? {
        BatchLawful(slot, start, cached, vs, setFails, key, i + 1);
      } else {
        var one := CommitThenCheck(slot, cached, vs[i].value, setFails(i), key);
        CommitLawful(slot, start, cached, vs[i].value, setFails(i), key);
        BatchLawful(slot, start, one.state, vs, setFails, key, i + 1);
        LawfulThen(slot, start, cached, one, BatchFrom(slot, one.state, vs, setFails, key, i + 1));
      }
    }
  }

  lemma BatchEffectLawful(slot: string, start: ImmutableState, reply: Result<MultiReply>,
                          reqs: seq<KeyRequest>, db: string, setFails: nat -> bool, key: Option<Verifier>)
    ensures Lawful(slot, start, BatchEffect(slot, Success(start), reply, reqs, db, setFails, key))
  {
    if reply.Success? && |reply.value.0| == |reqs| == |reply.value.1| {
      var vs := ItemVerdicts(start, reply.value.0, reply.value.1, reqs, db);
      forall i | 0 <= i < |vs| && vs[i].Some? ensures Sound(start, vs[i].value) {
        GetSound(start, Success(reply.value.0[i].item), reqs[i], db);
      }
      BatchLawful(slot, start, start, vs, setFails, key, 0);
    }
  }

  /** The last store of a successful batch is that of the last judged item. */
  lemma {:induction false} BatchStores(slot: string, cached: ImmutableState, vs: seq<Option<Verdict>>,
                                       setFails: nat -> bool, key: Option<Verifier>, i: nat)
    requires i <= |vs| && BatchFrom(slot, cached, vs, setFails, key, i).error.None?
    ensures var stores, last := BatchFrom(slot, cached, vs, setFails, key, i).stores, LastJudged(vs, |vs|);
            if last.None? || last.value < i then stores == []
            else
              && vs[last.value].value.Success? && stores != []
              && var (next, evs) := vs[last.value].value.value;
                 stores[|stores| - 1] == Store(slot, next, evs)
    decreases |vs| - i
  {
    if i < |vs| {
      if vs[i].None? {
        BatchStores(slot, cached, vs, setFails, key, i + 1);
      } else {
        BatchStores(slot, vs[i].value.value.0, vs, setFails, key, i + 1);
      }
    }
  }

  /**
   What a successful batch leaves recorded.  An error-free item is recorded on the final history exactly when
   that history continues the state the item itself stored; this is so for the last error-free item and for
   every item no newer than the start.
   */
  lemma BatchRecords(slot: string, start: ImmutableState, items: seq<VerifiableItemExt>, errors: seq<string>,
                     reqs: seq<KeyRequest>, db: string, setFails: nat -> bool, key: Option<Verifier>, i: nat)
    requires |items| == |errors| == |reqs| && start.txId > 0 && i < |items| && errors[i] == ""
    requires BatchFrom(slot, start, ItemVerdicts(start, items, errors, reqs, db), setFails, key, 0).error.None?
    ensures VerifyGet(start, items[i].item, reqs[i], db).Success?
    ensures var vs := ItemVerdicts(start, items, errors, reqs, db);
            var final := BatchFrom(slot, start, vs, setFails, key, 0).state;
            var ev := GetEvidence(start, items[i].item, reqs[i]);
            && (Recorded(final, ev) <==> Extends(final, VerifyGet(start, items[i].item, reqs[i], db).value))
            && (ev.txId <= start.txId || LastJudged(vs, |vs|) == Some(i) ==> Recorded(final, ev))
  {
    var vs := ItemVerdicts(start, items, errors, reqs, db);
    BatchTransition(slot, start, items, errors, reqs, db, setFails, key);
    var stop := BatchOutcome(slot, start, vs, setFails, key);
    var final := BatchFrom(slot, start, vs, setFails, key, 0).state;
    var next := VerifyGet(start, items[i].item, reqs[i], db).value;
    GetTransition(start, items[i].item, reqs[i], db);
    if Extends(final, next) {
      RecordedPersists(next, final, GetEvidence(start, items[i].item, reqs[i]));
    }
  }

  /** If the batch is accepted and ends anchored, all its error-free items are recorded at the end. */
  predicate BatchRecordsAll(slot: string, start: ImmutableState, items: seq<VerifiableItemExt>, errors: seq<string>,
                            reqs: seq<KeyRequest>, db: string, setFails: nat -> bool, key: Option<Verifier>)
    requires |items| == |errors| == |reqs|
  {
    var e := BatchFrom(slot, start, ItemVerdicts(start, items, errors, reqs, db), setFails, key, 0);
    e.error.None? && e.state.txId > 0 && Anchored(e.state) ==>
      forall i :: 0 <= i < |items| && errors[i] == "" ==> Recorded(e.state, GetEvidence(start, items[i].item, reqs[i]))
  }

  function NeverFails(i: nat): bool { false }

  /** An item about a transaction right after the start. */
  function ForkItem(start: ImmutableState, kReq: KeyRequest, mark: Bytes): VerifiableItemExt
    requires Anchored(start)
  {
    VerifiableItemExt(NextReply(start, Entry(start.txId + 1, kReq.key, [], None, None), kReq, mark), [])
  }

  lemma ForkItemAccepted(start: ImmutableState, kReq: KeyRequest, mark: Bytes, db: string)
    requires Anchored(start)
    ensures var header := NextHeader(start, EntrySpecDigest(1, EncodeEntrySpec(kReq.key, None, [])), mark);
            && VerifyGet(start, ForkItem(start, kReq, mark).item, kReq, db)
               == Success(ImmutableState(db, header.id, Alh(header), []))
            && GetEvidence(start, ForkItem(start, kReq, mark).item, kReq).txAlh == Alh(header)
  {
    NextReplyAccepted(start, Entry(start.txId + 1, kReq.key, [], None, None), kReq, mark, db);
  }

  /** From every anchored state, a batch of two or more is accepted with its first and last item on different forks. */
  lemma BatchCanFork(slot: string, start: ImmutableState, reqs: seq<KeyRequest>, db: string)
    returns (items: seq<VerifiableItemExt>, errors: seq<string>)
    requires Anchored(start) && |reqs| >= 2
    ensures |items| == |errors| == |reqs| && forall i :: 0 <= i < |errors| ==> errors[i] == ""
    ensures var e := BatchFrom(slot, start, ItemVerdicts(start, items, errors, reqs, db), NeverFails, None, 0);
            && e.error.None? && e.state.txId == start.txId + 1 && Anchored(e.state)
            && !Recorded(e.state, GetEvidence(start, items[0].item, reqs[0]))
  {
    var last := |reqs| - 1;
    items := seq(|reqs|, i requires 0 <= i < |reqs| => ForkItem(start, reqs[i], if i == last then [1] else []));
    errors := seq(|reqs|, i => "");
    var vs := ItemVerdicts(start, items, errors, reqs, db);
    forall i | 0 <= i < |reqs| ensures vs[i].Some? && ItemOk(vs[i].value, false, None) {
      ForkItemAccepted(start, reqs[i], if i == last then [1] else [], db);
    }
    var stop := BatchOutcome(slot, start, vs, NeverFails, None);
    ForkItemAccepted(start, reqs[0], [], db);
    ForkItemAccepted(start, reqs[last], [1], db);
  }

  /**
   When every item of every accepted batch is recorded on the history the batch ends with, whatever the faults
   and the signing key: exactly when the request has at most one item, or nothing is accepted because the
   state is not anchored.
   */
  lemma BatchRecordsAllIff(slot: string, start: ImmutableState, reqs: seq<KeyRequest>, db: string)
    ensures (forall items, errors, setFails, key | |items| == |errors| == |reqs| ::
               BatchRecordsAll(slot, start, items, errors, reqs, db, setFails, key))
       <==> |reqs| <= 1 || !Anchored(start)
  {
    if |reqs| >= 2 && Anchored(start) {
      var items, errors := BatchCanFork(slot, start, reqs, db);
      assert !BatchRecordsAll(slot, start, items, errors, reqs, db, NeverFails, None);
    } else {
      forall items, errors, setFails, key | |items| == |errors| == |reqs|
        ensures BatchRecordsAll(slot, start, items, errors, reqs, db, setFails, key)
      {
        SmallBatchRecordsAll(slot, start, items, errors, reqs, db, setFails, key);
      }
    }
  }

  lemma SmallBatchRecordsAll(slot: string, start: ImmutableState, items: seq<VerifiableItemExt>,
                             errors: seq<string>, reqs: seq<KeyRequest>, db: string, setFails: nat -> bool,
                             key: Option<Verifier>)
    requires |items| == |errors| == |reqs| && (|reqs| <= 1 || !Anchored(start))
    ensures BatchRecordsAll(slot, start, items, errors, reqs, db, setFails, key)
  {
    var vs := ItemVerdicts(start, items, errors, reqs, db);
    var stop := BatchOutcome(slot, start, vs, setFails, key);
    var e := BatchFrom(slot, start, vs, setFails, key, 0);
    if e.error.None? && e.state.txId > 0 && Anchored(e.state) {
      forall i | 0 <= i < |items| && errors[i] == ""
        ensures Recorded(e.state, GetEvidence(start, items[i].item, reqs[i]))
      {
        assert vs[i].Some? && ItemOk(vs[i].value, setFails(i), key);
        GetJustified(start, items[i].item, reqs[i], db);
        assert Anchored(start);
        assert LastJudged(vs, |vs|) == Some(i);
      }
    }
  }

  /* ---------- A batch of one ---------- */

  type MultiReply = (seq<VerifiableItemExt>, seq<string>)

  predicate Misshapen(reply: MultiReply, reqs: seq<KeyRequest>) {
    |reply.0| != |reqs| || |reply.1| != |reqs|
  }

  function ItemOf(reply: Result<VerifiableItemExt>): Result<VerifiableEntry> {
    if reply.Failure? then Failure(reply.error) else Success(reply.value.item)
  }

  /** What a read hands to its caller. */
  function ReadReturns<T>(reply: Result<T>, effect: Effect): Result<T> {
    if effect.error.Some? then Failure(effect.error.value) else reply
  }

  /** What a batch read hands to its caller beside the error: a misshapen reply is passed on. */
  function BatchReturns(reply: Result<MultiReply>, reqs: seq<KeyRequest>, effect: Effect): MultiReply {
    if reply.Success? && (effect.error.None? || Misshapen(reply.value, reqs)) then reply.value else ([], [])
  }

  /** Item `i` is the first that ends a batch early, and this is the error. */
  predicate Stops(start: ImmutableState, items: seq<VerifiableItemExt>, errors: seq<string>, reqs: seq<KeyRequest>,
                  db: string, setFails: nat -> bool, i: nat, e: Error)
    requires |items| == |errors| == |reqs|
  {
    && i < |items| && errors[i] == ""
    && (forall j :: 0 <= j < i && errors[j] == "" ==> VerifyGet(start, items[j].item, reqs[j], db).Success?)
    && var r := VerifyGet(start, items[i].item, reqs[i], db);
       e == if r.Failure? then r.error else if setFails(i) then SetStateFailed else SignatureMismatch
  }

  /**
   What the caller of a batch read gets, for every reply and any number of requests.  On success it is the reply as
   received, one item and one error per request, and every item without an error was verified.  A failed call
   returns nothing, with the error of the server or of the first item that stopped it; only a reply of the wrong
   shape is passed on beside its error.
   */
  lemma BatchHandsOver(slot: string, start: ImmutableState, reply: Result<MultiReply>, reqs: seq<KeyRequest>,
                       db: string, setFails: nat -> bool, key: Option<Verifier>)
    ensures var e := BatchEffect(slot, Success(start), reply, reqs, db, setFails, key);
            var (items, errors) := BatchReturns(reply, reqs, e);
            if e.error.None? then
              && reply == Success((items, errors)) && |items| == |errors| == |reqs|
              && forall i :: 0 <= i < |items| && errors[i] == "" ==>
                   VerifyGet(start, items[i].item, reqs[i], db).Success?
            else if reply.Failure? then
              e == Effect(start, [], Some(reply.error)) && items == [] && errors == []
            else if |reply.value.0| != |reqs| || |reply.value.1| != |reqs| then
              e == Effect(start, [], Some(CountMismatch)) && (items, errors) == reply.value
            else
              && items == [] && errors == []
              && exists i :: Stops(start, reply.value.0, reply.value.1, reqs, db, setFails, i, e.error.value)
  {
    if reply.Success? && |reply.value.0| == |reqs| == |reply.value.1| {
      var (items, errors) := reply.value;
      var vs := ItemVerdicts(start, items, errors, reqs, db);
      var stop := BatchOutcome(slot, start, vs, setFails, key);
      forall i | 0 <= i < stop && errors[i] == "" ensures VerifyGet(start, items[i].item, reqs[i], db).Success? {
        assert vs[i].Some? && ItemOk(vs[i].value, setFails(i), key);
      }
      var e := BatchFrom(slot, start, vs, setFails, key, 0);
      if stop < |vs| {
        assert vs[stop].Some? && errors[stop] == "";
        assert Stops(start, items, errors, reqs, db, setFails, stop, e.error.value);
      }
    }
  }

  /** The reply of one item, as a batch reply. */
  function AsBatch(reply: Result<VerifiableItemExt>): Result<MultiReply> {
    if reply.Failure? then Failure(reply.error) else Success(([reply.value], [""]))
  }

  /**
   A batch read of one item is the single read: from whatever the start, on the same reply, it leaves the same
   cache by the same stores, and returns the same error and item.
   */
  lemma SingletonBatch(slot: string, start: Result<ImmutableState>, reply: Result<VerifiableItemExt>,
                       kReq: KeyRequest, db: string, setFails: nat -> bool, key: Option<Verifier>)
    ensures var effect := BatchEffect(slot, start, AsBatch(reply), [kReq], db, setFails, key);
            var r := ReadReturns(reply, effect);
            && effect == ReadEffect(slot, start, ItemOf(reply), kReq, db, setFails(0), key)
            && BatchReturns(AsBatch(reply), [kReq], effect) == (if r.Success? then ([r.value], [""]) else ([], []))
  {
    if start.Success? && reply.Success? {
      var vs := ItemVerdicts(start.value, [reply.value], [""], [kReq], db);
      var one := CommitThenCheck(slot, start.value, vs[0].value, setFails(0), key);
      assert BatchFrom(slot, one.state, vs, setFails, key, 1) == Effect(one.state, [], None);
      assert one.stores + [] == one.stores;
    }
  }

  /* ---------- The artifact read ---------- */

  datatype ArtifactProof = ArtifactProof(verifiableTx: VerifiableTx, inclusionProof: InclusionProof,
                                         metadata: Option<KVMetadata>, immudbFullKey: Bytes)
  datatype ArtifactEntry = ArtifactEntry(tx: nat, value: Bytes, proof: ArtifactProof)

  predicate OccursAt(text: Bytes, part: Bytes, i: nat) {
    i + |part| <= |text| && text[i..i + |part|] == part
  }

  predicate Contains(text: Bytes, part: Bytes) {
    exists i :: 0 <= i <= |text| && OccursAt(text, part, i)
  }

  /** Wherever the part stands: at the front, at the back or in between. */
  lemma ContainsMeans(text: Bytes, part: Bytes)
    ensures Contains(text, part) <==> exists front: Bytes, back: Bytes :: text == front + part + back
  {
    if Contains(text, part) {
      var i :| 0 <= i <= |text| && OccursAt(text, part, i);
      assert text == text[..i] + part + text[i + |part|..];
    }
    if exists front: Bytes, back: Bytes :: text == front + part + back {
      var front: Bytes, back: Bytes :| text == front + part + back;
      assert OccursAt(text, part, |front|);
    }
  }

  /** The entry the client assembles from an artifact reply: always a direct one. */
  function AssembledEntry(a: ArtifactEntry): VerifiableEntry {
    VerifiableEntry(Entry(a.tx, a.proof.immudbFullKey, a.value, a.proof.metadata, None),
                    a.proof.verifiableTx, a.proof.inclusionProof)
  }

  function ArtifactVerdict(start: ImmutableState, hash: Option<Bytes>, reply: Result<seq<ArtifactEntry>>, db: string)
    : Verdict
    requires reply.Success? ==> reply.value != []
  {
    if reply.Failure? then Failure(reply.error)
    else if hash.None? then Failure(InvalidHex)
    else
      var a := reply.value[0];
      if !Contains(a.proof.immudbFullKey, hash.value) then Failure(CorruptedData)
      else GetVerdict(start, Success(AssembledEntry(a)), KeyRequest(a.proof.immudbFullKey, 0, 0), db)
  }

  function ArtifactEffect(slot: string, start: Result<ImmutableState>, hash: Option<Bytes>,
                          reply: Result<seq<ArtifactEntry>>, db: string, setFails: bool, key: Option<Verifier>): Effect
    requires reply.Success? ==> reply.value != []
  {
    if start.Failure? then Unstarted(start.error)
    else CommitThenCheck(slot, start.value, ArtifactVerdict(start.value, hash, reply, db), setFails, key)
  }

  /**
   An accepted artifact: the stored key contains the requested hash, and the entry of that key with the
   returned value and metadata is what the evidence is about.
   */
  lemma ArtifactBound(start: ImmutableState, hash: Option<Bytes>, reply: Result<seq<ArtifactEntry>>, db: string)
    requires reply.Success? ==> reply.value != []
    ensures Sound(start, ArtifactVerdict(start, hash, reply, db))
    ensures var v := ArtifactVerdict(start, hash, reply, db);
            v.Success? ==>
              && reply.Success? && hash.Some?
              && var a := reply.value[0];
                 && Contains(a.proof.immudbFullKey, hash.value)
                 && |v.value.1| == 1 && v.value.1[0].txId == a.tx
                 && v.value.1[0].leaf
                    == EntrySpecDigest(a.proof.verifiableTx.tx.header.version,
                                       EncodeEntrySpec(a.proof.immudbFullKey, a.proof.metadata, a.value))
                 && (start.txId > 0 ==> Recorded(v.value.0, v.value.1[0]))
  {
    if reply.Success? {
      var a := reply.value[0];
      var kReq := KeyRequest(a.proof.immudbFullKey, 0, 0);
      GetSound(start, Success(AssembledEntry(a)), kReq, db);
      if start.txId > 0 && VerifyGet(start, AssembledEntry(a), kReq, db).Success? {
        GetTransition(start, AssembledEntry(a), kReq, db);
      }
    }
  }

  /**
   When an artifact is accepted, exactly: a reply arrived, the requested hash is hex, the returned full key is the
   hash with something before and after, and the assembled direct entry is accepted as the answer for that key.
   */
  lemma ArtifactExact(start: ImmutableState, hash: Option<Bytes>, reply: Result<seq<ArtifactEntry>>, db: string)
    requires reply.Success? ==> reply.value != []
    ensures ArtifactVerdict(start, hash, reply, db).Success? <==>
              && reply.Success? && hash.Some?
              && (exists front: Bytes, back: Bytes ::
                    reply.value[0].proof.immudbFullKey == front + hash.value + back)
              && VerifyGet(start, AssembledEntry(reply.value[0]),
                           KeyRequest(reply.value[0].proof.immudbFullKey, 0, 0), db).Success?
    ensures var v := ArtifactVerdict(start, hash, reply, db);
            v.Failure? ==> v == Failure(
              if reply.Failure? then reply.error
              else if hash.None? then InvalidHex
              else if !Contains(reply.value[0].proof.immudbFullKey, hash.value) then CorruptedData
              else VerifyGet(start, AssembledEntry(reply.value[0]),
                             KeyRequest(reply.value[0].proof.immudbFullKey, 0, 0), db).error)
  {
    if reply.Success? && hash.Some? {
      ContainsMeans(reply.value[0].proof.immudbFullKey, hash.value);
    }
  }

  /** A failed artifact read leaves the old state, or a proven one if only its signature was wrong, like any read. */
  lemma ArtifactOutcome(slot: string, start: ImmutableState, hash: Option<Bytes>, reply: Result<seq<ArtifactEntry>>,
                        db: string, setFails: bool, key: Option<Verifier>)
    requires reply.Success? ==> reply.value != []
    ensures var v := ArtifactVerdict(start, hash, reply, db);
            var e := CommitThenCheck(slot, start, v, setFails, key);
            && Lawful(slot, start, e)
            && (e.stores == [] ==> e.error.Some? && e.state == start)
            && (e.stores != [] <==> v.Success? && !setFails)
            && (e.stores != [] ==>
                  && v.Success? && e.state == v.value.0 && Justified(start, e.state, v.value.1)
                  && reply.Success? && hash.Some? && Contains(reply.value[0].proof.immudbFullKey, hash.value)
                  && (if key.None? || key.value(e.state) then e.error.None? else e.error == Some(SignatureMismatch)))
  {
    ArtifactBound(start, hash, reply, db);
  }
}
