/**
 The shared cache of trusted states as a state machine: any number of clients, one lock, one slot per
 API key.  `Advance` says what one client may do; `Next` interleaves the clients; the theorems hold for
 every interleaving and every server.
 */
module CacheProtocol {
  import opened Wrappers
  import opened ImmuStore
  import opened History

  /** What a client does to the cache.  A call that fails has no effect and is no event. */
  datatype Event =
    | Acquire
    | Fetch(slot: string, state: ImmutableState)
    | Store(slot: string, state: ImmutableState, evs: seq<Evidence>)
    | Release

  /** Where a client is within an operation; `evs` is the evidence behind its latest store. */
  datatype Phase = Idle | Holding | Working(slot: string, start: ImmutableState, evs: seq<Evidence>)

  /** One client: it locks, fetches once, stores only states justified by what it fetched, and unlocks. */
  function Advance(p: Phase, e: Event): Option<Phase> {
    match (p, e)
    case (Idle, Acquire) => Some(Holding)
    case (Holding, Fetch(slot, state)) => Some(Working(slot, state, []))
    case (Working(slot, start, _), Store(slot', state, evs)) =>
      if slot == slot' && Justified(start, state, evs) then Some(Working(slot, start, evs)) else None
    case (Holding, Release) => Some(Idle)
    case (Working(_, _, _), Release) => Some(Idle)
    case _ => None
  }

  function AdvanceAll(p: Phase, trace: seq<Event>): Option<Phase> {
    if trace == [] then Some(p)
    else
      var q := AdvanceAll(p, trace[..|trace| - 1]);
      if q.None? then None else Advance(q.value, trace[|trace| - 1])
  }

  /** The trace of one operation: locked at most once, and unlocked again at the end. */
  predicate Section(trace: seq<Event>) {
    && AdvanceAll(Idle, trace) == Some(Idle)
    && forall i :: 0 < i < |trace| ==> trace[i] != Acquire
  }

  /* ---------- Interleaving ---------- */

  /** `fetched` and `accepted` are history: the states fetched, and the evidence of what was committed, per slot. */
  datatype Global = Global(
    owner: Option<nat>,
    phases: seq<Phase>,
    cache: map<string, ImmutableState>,
    fetched: map<string, seq<ImmutableState>>,
    accepted: map<string, seq<Evidence>>)

  function At<T>(m: map<string, seq<T>>, slot: string): seq<T> { if slot in m then m[slot] else [] }

  /**
   Evidence counts once the operation is over, for the last state it stored, provided that is anchored.  What
   earlier stores of the same operation rested on does not count: only a batch read has any.
   */
  function Committed(g: Global, p: Phase): map<string, seq<Evidence>> {
    if p.Working? && p.slot in g.cache && g.cache[p.slot].txId > 0 && Anchored(g.cache[p.slot]) then
      g.accepted[p.slot := At(g.accepted, p.slot) + p.evs]
    else g.accepted
  }

  /**
   One step of client `c`.  The lock is granted when free.  A fetch returns the slot's state; an empty slot
   takes whatever the server reports.  Nothing here checks the lock on a fetch or a store.
   */
  function Next(g: Global, c: nat, e: Event): Option<Global> {
    if c >= |g.phases| || Advance(g.phases[c], e).None? then None
    else
      var p := Advance(g.phases[c], e).value;
      var g' := g.(phases := g.phases[c := p]);
      match e
      case Acquire =>
        if g.owner.Some? then None else Some(g'.(owner := Some(c)))
      case Fetch(slot, state) =>
        if slot in g.cache && g.cache[slot] != state then None
        else Some(g'.(cache := g.cache[slot := state], fetched := g.fetched[slot := At(g.fetched, slot) + [state]]))
      case Store(slot, state, _) =>
        Some(g'.(cache := g.cache[slot := state]))
      case Release =>
        Some(g'.(owner := None, accepted := Committed(g, g.phases[c])))
  }

  type Run = seq<(nat, Event)>

  function Exec(g: Global, run: Run): Option<Global> {
    if run == [] then Some(g)
    else
      var mid := Exec(g, run[..|run| - 1]);
      var (c, e) := run[|run| - 1];
      if mid.None? then None else Next(mid.value, c, e)
  }

  predicate Initial(g: Global) {
    && g.owner.None? && (forall c :: 0 <= c < |g.phases| ==> g.phases[c] == Idle)
    && g.fetched == map[] && g.accepted == map[]
  }

  /* ---------- The invariant ---------- */

  /** Every state read from the slot is continued by `s`, and everything accepted is recorded on it. */
  ghost predicate Settled(s: ImmutableState, fetched: seq<ImmutableState>, accepted: seq<Evidence>) {
    && (forall r | r in fetched :: Extends(s, r))
    && (forall ev | ev in accepted :: Recorded(s, ev))
  }

  predicate Chain(fetched: seq<ImmutableState>) {
    forall i, j :: 0 <= i < j < |fetched| ==> Extends(fetched[j], fetched[i])
  }

  /** The slot's state while `p`, the phase of the lock's owner, is going on. */
  ghost predicate SlotOk(g: Global, p: Phase, slot: string) {
    && Chain(At(g.fetched, slot))
    && (slot !in g.cache ==> At(g.fetched, slot) == [] && At(g.accepted, slot) == [])
    && (slot in g.cache ==>
          if p.Working? && p.slot == slot then
            && Settled(p.start, At(g.fetched, slot), At(g.accepted, slot))
            && ((g.cache[slot] == p.start && p.evs == []) || Justified(p.start, g.cache[slot], p.evs))
          else
            Settled(g.cache[slot], At(g.fetched, slot), At(g.accepted, slot)))
  }

  function OwnerPhase(g: Global): Phase {
    if g.owner.Some? && g.owner.value < |g.phases| then g.phases[g.owner.value] else Idle
  }

  ghost predicate Inv(g: Global) {
    && (forall c :: 0 <= c < |g.phases| ==> (g.phases[c] != Idle <==> g.owner == Some(c)))
    && (g.owner.Some? ==> g.owner.value < |g.phases|)
    && (OwnerPhase(g).Working? ==> OwnerPhase(g).slot in g.cache)
    && forall slot :: SlotOk(g, OwnerPhase(g), slot)
  }

  /** Operations never overlap: while one client is inside, only that client moves. */
  lemma OnlyOwnerMoves(g: Global, c: nat, e: Event)
    requires Inv(g) && Next(g, c, e).Some?
    ensures (g.owner.None? && e == Acquire) || g.owner == Some(c)
  {
  }

  lemma JustifiedExtends(start: ImmutableState, next: ImmutableState, evs: seq<Evidence>)
    requires Justified(start, next, evs)
    ensures Extends(next, start)
  {
  }

  lemma SettledMoves(older: ImmutableState, newer: ImmutableState, fetched: seq<ImmutableState>,
                     accepted: seq<Evidence>)
    requires Settled(older, fetched, accepted) && Extends(newer, older)
    ensures Settled(newer, fetched, accepted)
  {
    forall r | r in fetched ensures Extends(newer, r) {
      ExtendsTransitive(r, older, newer);
    }
    forall ev | ev in accepted ensures Recorded(newer, ev) {
      RecordedPersists(older, newer, ev);
    }
  }

  lemma NextKeepsOwnership(g: Global, c: nat, e: Event)
    requires Inv(g) && Next(g, c, e).Some?
    ensures var g' := Next(g, c, e).value;
            && (forall d :: 0 <= d < |g'.phases| ==> (g'.phases[d] != Idle <==> g'.owner == Some(d)))
            && (g'.owner.Some? ==> g'.owner == Some(c) && c < |g'.phases|)
            && (e == Release <==> g'.owner.None?)
  {
    OnlyOwnerMoves(g, c, e);
  }

  lemma NextKeepsSlot(g: Global, c: nat, e: Event, slot: string)
    requires Inv(g) && Next(g, c, e).Some?
    ensures SlotOk(Next(g, c, e).value, OwnerPhase(Next(g, c, e).value), slot)
  {
    OnlyOwnerMoves(g, c, e);
    var p := OwnerPhase(g);
    assert SlotOk(g, p, slot);
    match e
    case Acquire =>
    case Fetch(s, state) =>
    case Store(s, state, evs) =>
    case Release =>
      if p.Working? && p.slot == slot {
        var s := g.cache[slot];
        if Justified(p.start, s, p.evs) {
          JustifiedExtends(p.start, s, p.evs);
          SettledMoves(p.start, s, At(g.fetched, slot), At(g.accepted, slot));
        }
      }
  }

  lemma NextKeepsInv(g: Global, c: nat, e: Event)
    requires Inv(g) && Next(g, c, e).Some?
    ensures Inv(Next(g, c, e).value)
  {
    NextKeepsOwnership(g, c, e);
    forall slot ensures SlotOk(Next(g, c, e).value, OwnerPhase(Next(g, c, e).value), slot) {
      NextKeepsSlot(g, c, e, slot);
    }
  }

  lemma {:induction false} RunsKeepInv(g: Global, run: Run)
    requires Initial(g) && Exec(g, run).Some?
    ensures Inv(Exec(g, run).value)
    decreases |run|
  {
    if run == [] {
      assert forall slot :: SlotOk(g, Idle, slot);
    } else {
      RunsKeepInv(g, run[..|run| - 1]);
      var (c, e) := run[|run| - 1];
      NextKeepsInv(Exec(g, run[..|run| - 1]).value, c, e);
    }
  }

  /* ---------- Safety over all interleavings ---------- */

  /** The states fetched from one slot, by whichever clients, form a chain of continued histories. */
  lemma ReadsFormAChain(g: Global, run: Run, slot: string)
    requires Initial(g) && Exec(g, run).Some?
    ensures Chain(At(Exec(g, run).value.fetched, slot))
  {
    RunsKeepInv(g, run);
    assert SlotOk(Exec(g, run).value, OwnerPhase(Exec(g, run).value), slot);
  }

  /**
   No fork: what the last store of each operation on a slot rested on lies on one history, that of the slot's
   state whenever the lock is free.  Two such transactions with the same ID are the same transaction.
   */
  lemma AcceptedLieOnOneHistory(g: Global, run: Run, slot: string)
    requires Initial(g) && Exec(g, run).Some? && Exec(g, run).value.owner.None?
    requires slot in Exec(g, run).value.cache
    ensures var h := Exec(g, run).value;
            && (forall ev | ev in At(h.accepted, slot) :: Recorded(h.cache[slot], ev))
            && (forall ev1, ev2 | ev1 in At(h.accepted, slot) && ev2 in At(h.accepted, slot) ::
                  ev1.txId == ev2.txId ==> ev1.txAlh == ev2.txAlh)
  {
    var h := Exec(g, run).value;
    RunsKeepInv(g, run);
    assert SlotOk(h, OwnerPhase(h), slot);
    forall ev1, ev2 | ev1 in At(h.accepted, slot) && ev2 in At(h.accepted, slot) && ev1.txId == ev2.txId
      ensures ev1.txAlh == ev2.txAlh
    {
      SameIdSameTransaction(h.cache[slot], ev1, ev2);
    }
  }

  /** Operations do not overlap: since the owner took the lock, every step was its own. */
  lemma {:induction false} OwnerRunsAlone(g: Global, run: Run, c: nat) returns (k: nat)
    requires Initial(g) && Exec(g, run).Some? && Exec(g, run).value.owner == Some(c)
    ensures k < |run| && run[k] == (c, Acquire)
    ensures forall i :: k < i < |run| ==> run[i].0 == c && run[i].1 != Acquire && run[i].1 != Release
    decreases |run|
  {
    var front := run[..|run| - 1];
    var (d, e) := run[|run| - 1];
    RunsKeepInv(g, front);
    OnlyOwnerMoves(Exec(g, front).value, d, e);
    if e == Acquire {
      k := |run| - 1;
    } else {
      k := OwnerRunsAlone(g, front, c);
    }
  }

  /**
   No lost update, although stores do not check the lock: the step before a store is the storing client's
   own fetch or store on that slot, and the slot still holds exactly the state of that step.  What is
   overwritten is what the client itself saw last, and the new state continues what it fetched.
   */
  lemma NoLostUpdate(g: Global, run: Run, c: nat, e: Event)
    requires Initial(g) && Exec(g, run).Some? && e.Store? && Next(Exec(g, run).value, c, e).Some?
    ensures var h := Exec(g, run).value;
            && h.owner == Some(c) && h.phases[c].Working? && h.phases[c].slot == e.slot
            && Extends(e.state, h.phases[c].start)
            && run != []
            && var (d, last) := run[|run| - 1];
               && d == c && (last.Fetch? || last.Store?) && last.slot == e.slot
               && e.slot in h.cache && h.cache[e.slot] == last.state
               && (last.Fetch? ==> last.state == h.phases[c].start)
               && (last.Store? ==> Justified(h.phases[c].start, last.state, last.evs))
  {
    var h := Exec(g, run).value;
    RunsKeepInv(g, run);
    OnlyOwnerMoves(h, c, e);
    var mid := Exec(g, run[..|run| - 1]).value;
    RunsKeepInv(g, run[..|run| - 1]);
    OnlyOwnerMoves(mid, run[|run| - 1].0, run[|run| - 1].1);
  }
}
