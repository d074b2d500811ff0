/**
 The operations of the client are runs of the cache state machine.  What is proved there for every
 interleaving therefore holds of them.
 */
module Refinement {
  import opened Wrappers
  import opened ImmuStore
  import opened History
  import opened CacheProtocol
  import opened Operations

  /** The events of one client as steps of the machine. */
  function Steps(c: nat, events: seq<Event>): (r: Run)
    ensures |r| == |events|
    ensures forall i :: 0 <= i < |r| ==> r[i] == (c, events[i])
  {
    seq(|events|, i requires 0 <= i < |events| => (c, events[i]))
  }

  /** One more event of a client. */
  lemma {:induction false} ExecEvent(g: Global, c: nat, events: seq<Event>, h: Global, e: Event)
    requires Exec(g, Steps(c, events)) == Some(h)
    ensures Exec(g, Steps(c, events + [e])) == Next(h, c, e)
  {
    assert Steps(c, events + [e])[..|events|] == Steps(c, events);
  }

  /** The machine within the section of client `c`, which fetched `start` and last stored `current`. */
  function Inside(g: Global, c: nat, slot: string, start: ImmutableState, current: ImmutableState,
                  evs: seq<Evidence>): Global
    requires c < |g.phases|
  {
    Global(Some(c), g.phases[c := Working(slot, start, evs)], g.cache[slot := current],
           g.fetched[slot := At(g.fetched, slot) + [start]], g.accepted)
  }

  /** The machine after an operation: the start is fetched, and the evidence of an anchored last state counts. */
  function After(g: Global, slot: string, start: ImmutableState, last: ImmutableState, evs: seq<Evidence>): Global {
    Global(None, g.phases, g.cache[slot := last], g.fetched[slot := At(g.fetched, slot) + [start]],
           if last.txId > 0 && Anchored(last) then g.accepted[slot := At(g.accepted, slot) + evs] else g.accepted)
  }

  predicate Ready(g: Global, c: nat) {
    g.owner.None? && c < |g.phases| && g.phases[c] == Idle
  }

  function Locked(g: Global, c: nat): Global
    requires c < |g.phases|
  {
    g.(owner := Some(c), phases := g.phases[c := Holding])
  }

  lemma {:induction false} LockRuns(g: Global, c: nat)
    requires Ready(g, c)
    ensures Exec(g, Steps(c, [Acquire])) == Some(Locked(g, c))
  {
    assert Steps(c, []) == [];
    ExecEvent(g, c, [], g, Acquire);
    assert [] + [Acquire] == [Acquire];
  }

  lemma {:induction false} OpeningRuns(g: Global, c: nat, slot: string, start: ImmutableState)
    requires Ready(g, c) && (slot in g.cache ==> g.cache[slot] == start)
    ensures Exec(g, Steps(c, [Acquire, Fetch(slot, start)])) == Some(Inside(g, c, slot, start, start, []))
  {
    var fetch := Fetch(slot, start);
    LockRuns(g, c);
    ExecEvent(g, c, [Acquire], Locked(g, c), fetch);
    assert [Acquire] + [fetch] == [Acquire, fetch];
    assert g.phases[c := Holding][c := Working(slot, start, [])] == g.phases[c := Working(slot, start, [])];
  }

  lemma {:induction false} StoreRuns(g: Global, c: nat, slot: string, start: ImmutableState, current: ImmutableState,
                  evs: seq<Evidence>, e: Event)
    requires c < |g.phases| && e.Store? && e.slot == slot && Justified(start, e.state, e.evs)
    ensures Next(Inside(g, c, slot, start, current, evs), c, e) == Some(Inside(g, c, slot, start, e.state, e.evs))
  {
    var h := Inside(g, c, slot, start, current, evs);
    assert h.phases[c := Working(slot, start, e.evs)] == g.phases[c := Working(slot, start, e.evs)];
    assert h.cache[slot := e.state] == g.cache[slot := e.state];
  }

  lemma {:induction false} ReleaseRuns(g: Global, c: nat, slot: string, start: ImmutableState, current: ImmutableState,
                    evs: seq<Evidence>)
    requires Ready(g, c)
    ensures Next(Inside(g, c, slot, start, current, evs), c, Release) == Some(After(g, slot, start, current, evs))
  {
    assert Inside(g, c, slot, start, current, evs).phases[c := Idle] == g.phases;
  }

  /** The state the stores leave, and the evidence of the last of them. */
  function Last(start: ImmutableState, stores: seq<Event>): (ImmutableState, seq<Evidence>) {
    if stores == [] || !stores[|stores| - 1].Store? then (start, [])
    else (stores[|stores| - 1].state, stores[|stores| - 1].evs)
  }

  /** The machine after the lock, the fetch and these stores. */
  predicate ReachedBy(g: Global, c: nat, slot: string, start: ImmutableState, stores: seq<Event>)
    requires c < |g.phases|
  {
    var (current, evs) := Last(start, stores);
    Exec(g, Steps(c, [Acquire, Fetch(slot, start)] + stores)) == Some(Inside(g, c, slot, start, current, evs))
  }

  lemma {:induction false} OneMoreStore(g: Global, c: nat, slot: string, start: ImmutableState, front: seq<Event>,
                                        e: Event)
    requires c < |g.phases| && ReachedBy(g, c, slot, start, front)
    requires e.Store? && e.slot == slot && Justified(start, e.state, e.evs)
    ensures ReachedBy(g, c, slot, start, front + [e])
  {
    var opening := [Acquire, Fetch(slot, start)];
    var (current, evs) := Last(start, front);
    ExecEvent(g, c, opening + front, Inside(g, c, slot, start, current, evs), e);
    StoreRuns(g, c, slot, start, current, evs, e);
    assert opening + (front + [e]) == opening + front + [e];
  }

  lemma {:induction false} StoresRun(g: Global, c: nat, slot: string, start: ImmutableState, stores: seq<Event>)
    requires Ready(g, c) && (slot in g.cache ==> g.cache[slot] == start)
    requires StoresFrom(slot, start, stores)
    ensures ReachedBy(g, c, slot, start, stores)
    decreases |stores|
  {
    if stores == [] {
      OpeningRuns(g, c, slot, start);
      assert [Acquire, Fetch(slot, start)] + stores == [Acquire, Fetch(slot, start)];
    } else {
      var front, e := stores[..|stores| - 1], stores[|stores| - 1];
      StoresRun(g, c, slot, start, front);
      OneMoreStore(g, c, slot, start, front, e);
      assert stores == front + [e];
    }
  }

  /**
   A lawful operation, run while the lock is free, is a run of the machine by its client.  It ends with the
   lock free and the clients as before; the cache is the one the operation leaves, its start counts as
   fetched, and what its last store rested on counts as accepted.
   */
  lemma {:induction false} OperationRuns(g: Global, c: nat, slot: string, start: ImmutableState, effect: Effect,
                      cache': map<string, ImmutableState>, events: seq<Event>)
    requires Ready(g, c) && (slot in g.cache ==> g.cache[slot] == start)
    requires Lawful(slot, start, effect) && Performed(slot, start, effect, g.cache, cache', events)
    ensures Exec(g, Steps(c, events)) == Some(After(g, slot, start, effect.state, Last(start, effect.stores).1))
    ensures After(g, slot, start, effect.state, Last(start, effect.stores).1).cache == cache'
  {
    var front := [Acquire, Fetch(slot, start)] + effect.stores;
    var (current, evs) := Last(start, effect.stores);
    assert current == effect.state;
    StoresRun(g, c, slot, start, effect.stores);
    ExecEvent(g, c, front, Inside(g, c, slot, start, current, evs), Release);
    ReleaseRuns(g, c, slot, start, current, evs);
  }

  /** An operation that gets the lock but no state leaves the machine as it was. */
  lemma {:induction false} RefusalRuns(g: Global, c: nat)
    requires Ready(g, c)
    ensures Exec(g, Steps(c, [Acquire, Release])) == Some(g)
  {
    LockRuns(g, c);
    ExecEvent(g, c, [Acquire], Locked(g, c), Release);
    assert [Acquire] + [Release] == [Acquire, Release];
    assert g.phases[c := Holding][c := Idle] == g.phases;
  }
}
