/** The MySQL and PostgreSQL metadata caches and the MySQL result cache, on top of the shared store. */
module Caches {
  import opened Common
  import opened Cache

  // ----- who may load a key, as a function of the state

  datatype Flight = Flight(inflight: set<string>, lastRefresh: map<string, Time>)

  datatype Turn = Leader | Follower | Cooling

  datatype Call =
    | Lead(key: string, refresh: bool, cooldown: Time, now: Time)
    | Finish(key: string)
    | Forget(refreshesToo: bool)  // clear(): MySQL forgets refresh times, PostgreSQL keeps them

  function Answer(f: Flight, c: Call): (Flight, Turn) {
    match c
    case Lead(key, refresh, cooldown, now) =>
      if key in f.inflight then (f, Follower)
      else if refresh && key in f.lastRefresh && now - f.lastRefresh[key] < cooldown then (f, Cooling)
      else (Flight(f.inflight + {key}, if refresh then f.lastRefresh[key := now] else f.lastRefresh), Leader)
    case Finish(key) => (f.(inflight := f.inflight - {key}), Follower)
    case Forget(refreshesToo) => (if refreshesToo then f.(lastRefresh := map[]) else f, Follower)
  }

  function State(calls: seq<Call>): Flight {
    if calls == [] then Flight({}, map[]) else Answer(State(calls[..|calls| - 1]), calls[|calls| - 1]).0
  }

  ghost predicate Led(calls: seq<Call>, i: nat, key: string) {
    i < |calls| && calls[i].Lead? && calls[i].key == key && Answer(State(calls[..i]), calls[i]).1 == Leader
  }

  /** Somebody leads the key and has not finished. */
  ghost predicate InFlight(calls: seq<Call>, key: string) {
    exists i: nat :: Led(calls, i, key) && forall k :: i < k < |calls| ==> calls[k] != Finish(key)
  }

  ghost predicate Refreshed(calls: seq<Call>, i: nat, key: string) { Led(calls, i, key) && calls[i].refresh }

  /** Call i is the last forced refresh of the key, and its time has not been forgotten. */
  ghost predicate LastRefresh(calls: seq<Call>, i: nat, key: string) {
    && Refreshed(calls, i, key)
    && forall k :: i < k < |calls| ==> calls[k] != Forget(true) && !Refreshed(calls, k, key)
  }

  lemma LedBefore(calls: seq<Call>, i: nat, n: nat, key: string)
    requires i < n <= |calls|
    ensures Led(calls[..n], i, key) <==> Led(calls, i, key)
    ensures Refreshed(calls[..n], i, key) <==> Refreshed(calls, i, key)
  {
    assert calls[..n][..i] == calls[..i];
  }

  lemma {:induction false} InFlightIff(calls: seq<Call>, key: string)
    ensures key in State(calls).inflight <==> InFlight(calls, key)
  {
    hide Led;
    if calls != [] {
      var n := |calls| - 1;
      var before := calls[..n];
      InFlightIff(before, key);
      if i: nat :| Led(before, i, key) && forall k :: i < k < n ==> before[k] != Finish(key) {
        LedInside(before, i, key);
        LedBefore(calls, i, n, key);
        assert calls[n] != Finish(key) ==> InFlight(calls, key);
      }
      LedLast(calls, key);
      if i: nat :| Led(calls, i, key) && forall k :: i < k < |calls| ==> calls[k] != Finish(key) {
        LedInside(calls, i, key);
        if i < n {
          LedBefore(calls, i, n, key);
          assert InFlight(before, key);
        }
      }
    } else {
      Nothing(calls, key);
    }
  }

  lemma LedInside(calls: seq<Call>, i: nat, key: string)
    requires Led(calls, i, key)
    ensures i < |calls| && calls[i].Lead? && calls[i].key == key
  { }

  /** What the last call does to the state. */
  lemma LedLast(calls: seq<Call>, key: string)
    requires calls != []
    ensures var n := |calls| - 1;
            var (before, after) := (State(calls[..n]), State(calls));
            && (Led(calls, n, key) ==> key in after.inflight)
            && (key in after.inflight ==> Led(calls, n, key) || (key in before.inflight && calls[n] != Finish(key)))
            && (key in before.inflight && calls[n] != Finish(key) ==> key in after.inflight)
            && (Refreshed(calls, n, key) ==>
                  key in after.lastRefresh && after.lastRefresh[key] == calls[n].now)
            && (!Refreshed(calls, n, key) ==>
                  if calls[n] == Forget(true) then key !in after.lastRefresh
                  else (key in after.lastRefresh <==> key in before.lastRefresh)
                       && (key in after.lastRefresh ==> after.lastRefresh[key] == before.lastRefresh[key]))
  { }

  /** The remembered time is that of the last forced refresh. */
  lemma {:induction false} RefreshIff(calls: seq<Call>, key: string)
    ensures key in State(calls).lastRefresh <==> exists i: nat :: LastRefresh(calls, i, key)
    ensures forall i: nat :: LastRefresh(calls, i, key) ==> key in State(calls).lastRefresh && State(calls).lastRefresh[key] == calls[i].now
  {
    hide Refreshed, State;
    if calls == [] {
      Nothing(calls, key);
    } else {
      var n := |calls| - 1;
      var before := calls[..n];
      RefreshIff(before, key);
      LedLast(calls, key);
      if Refreshed(calls, n, key) {
        assert LastRefresh(calls, n, key);
        forall i: nat | LastRefresh(calls, i, key) ensures i == n { RefreshedInside(calls, i, key); }
      } else {
        forall i: nat
          ensures LastRefresh(calls, i, key) <==> calls[n] != Forget(true) && LastRefresh(before, i, key)
          ensures LastRefresh(before, i, key) ==> i < n && before[i] == calls[i]
        {
          RefreshBefore(calls, i, key);
          if LastRefresh(before, i, key) { RefreshedInside(before, i, key); }
        }
      }
    }
  }

  lemma Nothing(calls: seq<Call>, key: string)
    requires calls == []
    ensures key !in State(calls).lastRefresh && key !in State(calls).inflight
    ensures forall i: nat :: !Led(calls, i, key) && !Refreshed(calls, i, key)
  { }

  lemma RefreshedInside(calls: seq<Call>, i: nat, key: string)
    requires Refreshed(calls, i, key)
    ensures i < |calls|
  { }

  lemma RefreshBefore(calls: seq<Call>, i: nat, key: string)
    requires calls != [] && !Refreshed(calls, |calls| - 1, key)
    ensures LastRefresh(calls, i, key) <==> calls[|calls| - 1] != Forget(true) && LastRefresh(calls[..|calls| - 1], i, key)
  {
    hide Refreshed;
    var n := |calls| - 1;
    forall k: nat | k < n ensures Refreshed(calls[..n], k, key) <==> Refreshed(calls, k, key) { LedBefore(calls, k, n, key); }
    if Refreshed(calls, i, key) { RefreshedInside(calls, i, key); }
    if Refreshed(calls[..n], i, key) { RefreshedInside(calls[..n], i, key); }
  }

  /** After any history: a caller follows exactly while somebody leads the key; is held back exactly when it forces a
      refresh within the cooldown of the last one; and leads otherwise. */
  lemma TurnExact(calls: seq<Call>, key: string, refresh: bool, cooldown: Time, now: Time)
    ensures var turn := Answer(State(calls), Lead(key, refresh, cooldown, now)).1;
            && (turn == Follower <==> InFlight(calls, key))
            && (turn == Cooling <==> !InFlight(calls, key) && refresh
                                     && exists i: nat :: LastRefresh(calls, i, key) && now - calls[i].now < cooldown)
  {
    hide State, InFlight, LastRefresh;
    InFlightIff(calls, key);
    RefreshIff(calls, key);
  }

  /** Between two leaders of one key the first has finished. */
  lemma OneLeader(calls: seq<Call>, i: nat, j: nat, key: string)
    requires i < j && Led(calls, i, key) && Led(calls, j, key)
    ensures exists k :: i < k < j && calls[k] == Finish(key)
  {
    hide State;
    InFlightIff(calls[..j], key);
    LedBefore(calls, i, j, key);
    assert !(forall k :: i < k < |calls[..j]| ==> calls[..j][k] != Finish(key));
  }

  /** Two successive forced refreshes of a key are a cooldown apart, unless the refresh times were forgotten in between. */
  lemma RefreshesSpaced(calls: seq<Call>, i: nat, j: nat, key: string)
    requires i < j && Refreshed(calls, i, key) && Refreshed(calls, j, key)
    requires forall k :: i < k < j ==> calls[k] != Forget(true) && !Refreshed(calls, k, key)
    ensures calls[j].now - calls[i].now >= calls[j].cooldown
  {
    hide State;
    RefreshIff(calls[..j], key);
    forall k: nat | k < j ensures Refreshed(calls[..j], k, key) <==> Refreshed(calls, k, key) { LedBefore(calls, k, j, key); }
    assert LastRefresh(calls[..j], i, key);
  }

  // ----- the caches

  class MetadataCache {
    const enabled: bool
    const clearForgetsRefreshes: bool
    const store: Store
    var inflight: set<string>
    var lastRefresh: map<string, Time>

    constructor (enabled: bool, lim: Limits, clearForgetsRefreshes: bool)
      ensures store.Valid() && store.lim == lim && store.lru == [] && Flights() == Flight({}, map[]) && fresh(store)
      ensures this.enabled == enabled && this.clearForgetsRefreshes == clearForgetsRefreshes
    {
      this.enabled, this.clearForgetsRefreshes := enabled, clearForgetsRefreshes;
      store := new Store(lim);
      inflight, lastRefresh := {}, map[];
    }

    ghost function Flights(): Flight
      reads this
    {
      Flight(inflight, lastRefresh)
    }

    method Get(key: string, now: Time) returns (hit: Option<string>)
      requires store.Valid()
      modifies store
      ensures store.Valid()
      ensures !enabled ==> hit.None? && store.lru == old(store.lru)
      ensures enabled ==> store.lru == Apply(store.lim, old(store.lru), Op.Get(key, now)).0
      ensures enabled ==> var e := Apply(store.lim, old(store.lru), Op.Get(key, now)).1;
                          hit == if e.Some? then Some(e.value.value) else None
    {
      hide Apply;
      if !enabled { return None; }
      var e := store.Lookup(key, now);
      if e.None? { return None; }
      return Some(e.value.value);
    }

    /** lead and leadRefresh; a follower has waited for the leader to finish. */
    method TakeTurn(key: string, refresh: bool, cooldown: Time, now: Time) returns (turn: Turn)
      modifies this
      ensures !enabled ==> turn == Leader && Flights() == old(Flights())
      ensures enabled ==> (Flights(), turn) == Answer(old(Flights()), Lead(key, refresh, cooldown, now))
    {
      if !enabled { return Leader; }
      if key in inflight { return Follower; }
      if refresh {
        if key in lastRefresh && now - lastRefresh[key] < cooldown { return Cooling; }
        lastRefresh := lastRefresh[key := now];
      }
      inflight := inflight + {key};
      return Leader;
    }

    /** Admit a value that fits by itself, then let the followers go. */
    method Conclude(key: string, value: string, size: nat, ttl: Time, now: Time, cache: bool)
      requires store.Valid()
      modifies this, store
      ensures store.Valid()
      ensures store.lru == if enabled && cache && size <= store.lim.maxBytes
                           then Apply(store.lim, old(store.lru), Put(Entry(key, value, now, now + ttl, size))).0
                           else old(store.lru)
      ensures Flights() == if enabled then Answer(old(Flights()), Finish(key)).0 else old(Flights())
    {
      hide Apply;
      if !enabled { return; }
      if cache && size <= store.lim.maxBytes {
        store.Insert(Entry(key, value, now, now + ttl, size));
      }
      if key in inflight { inflight := inflight - {key}; }
    }

    method Clear()
      modifies this, store
      ensures store.Valid() && store.lru == []
      ensures Flights() == Answer(old(Flights()), Forget(clearForgetsRefreshes)).0
    {
      store.Clear();
      if clearForgetsRefreshes { lastRefresh := map[]; }
    }
  }

  class ResultCache {
    const enabled: bool
    const ttl: Time
    const maxEntryBytes: nat
    const store: Store

    constructor (enabled: bool, ttl: Time, lim: Limits, maxEntryBytes: nat)
      ensures store.Valid() && store.lim == lim && store.lru == [] && fresh(store)
      ensures this.enabled == enabled && this.ttl == ttl && this.maxEntryBytes == maxEntryBytes
    {
      this.enabled, this.ttl, this.maxEntryBytes := enabled, ttl, maxEntryBytes;
      store := new Store(lim);
    }

    /** The cached result and its age. */
    method Get(key: string, now: Time) returns (hit: Option<(string, Time)>)
      requires store.Valid()
      modifies store
      ensures store.Valid()
      ensures !enabled ==> hit.None? && store.lru == old(store.lru)
      ensures enabled ==> store.lru == Apply(store.lim, old(store.lru), Op.Get(key, now)).0
      ensures enabled ==> var e := Apply(store.lim, old(store.lru), Op.Get(key, now)).1;
                          hit == if e.Some? then Some((e.value.value, now - e.value.stored)) else None
    {
      hide Apply;
      if !enabled { return None; }
      var e := store.Lookup(key, now);
      if e.None? { return None; }
      return Some((e.value.value, now - e.value.stored));
    }

    /** A truncated or oversized result is not cached; an admitted one is there afterwards. */
    method Put(key: string, result: string, size: nat, truncated: bool, now: Time)
      requires store.Valid() && maxEntryBytes <= store.lim.maxBytes
      modifies store
      ensures store.Valid()
      ensures store.lru == if enabled && !truncated && size <= maxEntryBytes
                           then Apply(store.lim, old(store.lru), Op.Put(Entry(key, result, now, now + ttl, size))).0
                           else old(store.lru)
      ensures enabled && !truncated && size <= maxEntryBytes && store.lim.maxEntries >= 1 ==>
                store.lru != [] && store.lru[0] == Entry(key, result, now, now + ttl, size)
    {
      if !enabled || truncated { return; }
      if size > maxEntryBytes { return; }
      ghost var e := Entry(key, result, now, now + ttl, size);
      if store.lim.maxEntries >= 1 { NewestSurvives(store.lim, e, Without(store.lru, key)); }
      store.Insert(Entry(key, result, now, now + ttl, size));
    }
  }
}
