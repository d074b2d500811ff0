/** The state service shared by the clients: one lock, and one slot of trusted state per API key. */
module StateService {
  import opened Wrappers
  import opened ImmuStore
  import opened History
  import opened ApiKey
  import opened CacheProtocol
  import opened Operations

  class StateService {
    const sha: string -> Bytes
    var cache: map<string, ImmutableState>
    var locked: bool
    /** What has been done to the cache so far. */
    ghost var trace: seq<Event>

    constructor (sha: string -> Bytes, cache: map<string, ImmutableState>)
      ensures this.sha == sha && this.cache == cache && !locked && trace == []
    {
      this.sha := sha;
      this.cache := cache;
      locked := false;
      trace := [];
    }

    function Slot(apiKey: string): string { ObfuscateApiKey(sha, apiKey) }

    method CacheLock(env: Env) returns (r: Result<()>)
      modifies this`locked, this`trace
      ensures r.Success? <==> !old(locked) && !env.lockFails
      ensures r.Success? ==> locked && trace == old(trace) + [Acquire]
      ensures r.Failure? ==> r.error == LockFailed && locked == old(locked) && trace == old(trace)
    {
      if locked || env.lockFails {
        return Failure(LockFailed);
      }
      locked := true;
      trace := trace + [Acquire];
      r := Success(());
    }

    method CacheUnlock()
      modifies this`locked, this`trace
      ensures !locked && trace == old(trace) + [Release]
    {
      locked := false;
      trace := trace + [Release];
    }

    /** The state cached for an API key; an empty slot is filled with what the server reports. */
    method GetState(apiKey: string, env: Env) returns (r: Result<ImmutableState>)
      modifies this`cache, this`trace
      ensures r == Begin(false, Lookup(old(cache), Slot(apiKey)), env.(lockFails := false))
      ensures r.Success? ==> && cache == old(cache)[Slot(apiKey) := r.value]
                             && trace == old(trace) + [Fetch(Slot(apiKey), r.value)]
      ensures r.Failure? ==> cache == old(cache) && trace == old(trace)
    {
      if env.fetchFails {
        return Failure(StateUnavailable);
      }
      var slot := Slot(apiKey);
      if slot in cache {
        r := Success(cache[slot]);
      } else {
        r := env.reported;
        if r.Failure? {
          return;
        }
        cache := cache[slot := r.value];
      }
      trace := trace + [Fetch(slot, r.value)];
    }

    /** Store a state; `evs` is the evidence it rests on. */
    method SetState(apiKey: string, state: ImmutableState, fails: bool, ghost evs: seq<Evidence>)
      returns (r: Result<()>)
      modifies this`cache, this`trace
      ensures r.Success? <==> !fails
      ensures r.Success? ==> && cache == old(cache)[Slot(apiKey) := state]
                             && trace == old(trace) + [Store(Slot(apiKey), state, evs)]
      ensures r.Failure? ==> r.error == SetStateFailed && cache == old(cache) && trace == old(trace)
    {
      if fails {
        return Failure(SetStateFailed);
      }
      cache := cache[Slot(apiKey) := state];
      trace := trace + [Store(Slot(apiKey), state, evs)];
      r := Success(());
    }
  }

  /** Slot isolation: an operation under one API key leaves the slot of another alone, unless their hashes collide. */
  lemma OtherKeysUntouched(sha: string -> Bytes, mine: string, other: string, locked: bool, env: Env,
                           start: Result<ImmutableState>, effect: Effect,
                           cache: map<string, ImmutableState>, cache': map<string, ImmutableState>,
                           trace: seq<Event>, trace': seq<Event>)
    requires Ended(locked, env, ObfuscateApiKey(sha, mine), start, effect, cache, cache', trace, trace')
    requires sha(mine) != sha(other)
    ensures Lookup(cache', ObfuscateApiKey(sha, other)) == Lookup(cache, ObfuscateApiKey(sha, other))
  {
    SlotsIsolated(sha, mine, other);
  }
}
