/** The bounded caches: a key map, a recency list and a byte counter that must agree. */
module Cache {
  import opened Common

  type Time = int

  datatype Entry = Entry(key: string, value: string, stored: Time, expires: Time, bytes: nat)

  datatype Limits = Limits(maxEntries: nat, maxBytes: nat)

  // ----- the recency list, most recently used first

  function Bytes(lru: seq<Entry>): nat { if lru == [] then 0 else lru[0].bytes + Bytes(lru[1..]) }

  function Without(lru: seq<Entry>, key: string): seq<Entry> {
    if lru == [] then []
    else if lru[0].key == key then Without(lru[1..], key)
    else [lru[0]] + Without(lru[1..], key)
  }

  ghost predicate Unique(lru: seq<Entry>) { forall i, j :: 0 <= i < j < |lru| ==> lru[i].key != lru[j].key }

  predicate Fits(lim: Limits, lru: seq<Entry>) { |lru| <= lim.maxEntries && Bytes(lru) <= lim.maxBytes }

  /** Drop entries from the least recently used end until both bounds hold. */
  function Evicted(lim: Limits, lru: seq<Entry>): (r: seq<Entry>)
    ensures r <= lru && Fits(lim, r)
  {
    if Fits(lim, lru) then lru else Evicted(lim, lru[..|lru| - 1])
  }

  lemma {:induction false} BytesAppend(a: seq<Entry>, b: seq<Entry>)
    ensures Bytes(a + b) == Bytes(a) + Bytes(b)
  {
    if a == [] {
      assert a + b == b;
    } else {
      assert (a + b)[1..] == a[1..] + b;
      BytesAppend(a[1..], b);
    }
  }

  /** The survivors of an eviction are the longest prefix within both bounds. */
  lemma {:induction false} EvictedLongest(lim: Limits, lru: seq<Entry>, n: nat)
    requires n <= |lru|
    ensures Fits(lim, lru[..n]) <==> n <= |Evicted(lim, lru)|
    ensures Evicted(lim, lru) == lru[..|Evicted(lim, lru)|]
  {
    if Fits(lim, lru) {
      assert lru == lru[..n] + lru[n..];
      BytesAppend(lru[..n], lru[n..]);
    } else {
      var shorter := lru[..|lru| - 1];
      if n < |lru| {
        assert shorter[..n] == lru[..n];
        EvictedLongest(lim, shorter, n);
      } else {
        assert lru[..n] == lru;
        EvictedLongest(lim, shorter, |shorter|);
      }
    }
  }

  /** An entry that fits by itself survives its own insertion. */
  lemma NewestSurvives(lim: Limits, e: Entry, rest: seq<Entry>)
    requires lim.maxEntries >= 1 && e.bytes <= lim.maxBytes
    ensures Evicted(lim, [e] + rest) != [] && Evicted(lim, [e] + rest)[0] == e
  {
    EvictedLongest(lim, [e] + rest, 1);
    assert ([e] + rest)[..1] == [e];
    assert Bytes([e]) == e.bytes;
  }

  lemma {:induction false} WithoutMembers(lru: seq<Entry>, key: string)
    ensures forall e :: e in Without(lru, key) <==> e in lru && e.key != key
    ensures |Without(lru, key)| <= |lru|
  {
    if lru != [] {
      WithoutMembers(lru[1..], key);
      assert forall e :: e in lru <==> e == lru[0] || e in lru[1..];
    }
  }

  lemma {:induction false} WithoutFacts(lru: seq<Entry>, key: string)
    requires Unique(lru)
    ensures Unique(Without(lru, key))
    ensures forall e :: e in Without(lru, key) <==> e in lru && e.key != key
    ensures |Without(lru, key)| <= |lru|
  {
    hide Unique;
    WithoutMembers(lru, key);
    if lru != [] {
      RestUnique(lru);
      WithoutFacts(lru[1..], key);
      if lru[0].key != key { InFrontUnique(lru[0], Without(lru[1..], key)); }
    }
  }

  lemma RestUnique(lru: seq<Entry>)
    requires Unique(lru) && lru != []
    ensures Unique(lru[1..]) && forall e :: e in lru[1..] ==> e.key != lru[0].key
  { }

  lemma InFrontUnique(e: Entry, rest: seq<Entry>)
    requires Unique(rest) && forall x :: x in rest ==> x.key != e.key
    ensures Unique([e] + rest)
  {
    assert forall i :: 0 <= i < |rest| ==> rest[i] in rest;
  }

  lemma {:induction false} WithoutOne(lru: seq<Entry>, e: Entry)
    requires Unique(lru) && e in lru
    ensures Bytes(Without(lru, e.key)) == Bytes(lru) - e.bytes
    ensures |Without(lru, e.key)| == |lru| - 1
  {
    if lru[0] == e {
      WithoutAbsent(lru[1..], e.key);
    } else {
      WithoutOne(lru[1..], e);
    }
  }

  lemma {:induction false} WithoutAbsent(lru: seq<Entry>, key: string)
    requires forall i :: 0 <= i < |lru| ==> lru[i].key != key
    ensures Without(lru, key) == lru
  {
    if lru != [] { WithoutAbsent(lru[1..], key); }
  }

  // ----- operations on the list, and the unbounded map they refine

  datatype Op =
    | Get(key: string, now: Time)
    | Put(entry: Entry)
    | Clear

  /** The effect of an operation on the recency list, and what it returns to the caller. */
  function Apply(lim: Limits, lru: seq<Entry>, op: Op): (seq<Entry>, Option<Entry>) {
    match op
    case Get(key, now) =>
      var e := Find(lru, key);
      if e.None? then (lru, None)
      else if now > e.value.expires then (Without(lru, key), None)
      else ([e.value] + Without(lru, key), e)
    case Put(entry) => (Evicted(lim, [entry] + Without(lru, entry.key)), None)
    case Clear => ([], None)
  }

  function Find(lru: seq<Entry>, key: string): (r: Option<Entry>)
    ensures r.Some? ==> r.value in lru && r.value.key == key
    ensures r.None? ==> forall e :: e in lru ==> e.key != key
  {
    if lru == [] then None else if lru[0].key == key then Some(lru[0]) else Find(lru[1..], key)
  }

  /** A cache without bounds: the entry last admitted for each key. */
  function Remember(log: map<string, Entry>, op: Op): map<string, Entry> {
    match op
    case Get(_, _) => log
    case Put(entry) => log[entry.key := entry]
    case Clear => map[]
  }

  ghost predicate Agrees(lim: Limits, lru: seq<Entry>, log: map<string, Entry>) {
    && Unique(lru) && Fits(lim, lru)
    && (forall e :: e in lru ==> e.key in log && log[e.key] == e)
    && (forall k :: k in log ==> log[k].key == k)
  }

  lemma PrefixMembers(a: seq<Entry>, b: seq<Entry>)
    requires a <= b && Unique(b)
    ensures Unique(a) && forall e :: e in a ==> e in b
  {
    forall e | e in a ensures e in b {
      var i :| 0 <= i < |a| && a[i] == e;
      assert b[i] == e;
    }
  }

  lemma FrontUnique(lru: seq<Entry>, e: Entry)
    requires Unique(lru)
    ensures Unique([e] + Without(lru, e.key))
    ensures forall x :: x in [e] + Without(lru, e.key) <==> x == e || (x in lru && x.key != e.key)
  {
    WithoutFacts(lru, e.key);
    InFrontUnique(e, Without(lru, e.key));
  }

  /** Each operation keeps the agreement; a hit returns exactly what the unbounded cache holds, and unexpired. */
  lemma ApplyAgrees(lim: Limits, lru: seq<Entry>, log: map<string, Entry>, op: Op)
    requires Agrees(lim, lru, log)
    ensures Agrees(lim, Apply(lim, lru, op).0, Remember(log, op))
    ensures op.Get? && Apply(lim, lru, op).1.Some? ==>
              op.key in log && Apply(lim, lru, op).1.value == log[op.key] && op.now <= log[op.key].expires
  {
    match op
    case Get(key, now) =>
      var e := Find(lru, key);
      if e.Some? {
        WithoutFacts(lru, key);
        WithoutOne(lru, e.value);
        FrontUnique(lru, e.value);
      }
    case Put(entry) =>
      FrontUnique(lru, entry);
      PrefixMembers(Evicted(lim, [entry] + Without(lru, entry.key)), [entry] + Without(lru, entry.key));
    case Clear =>
  }

  function Run(lim: Limits, ops: seq<Op>): seq<Entry> {
    if ops == [] then [] else Apply(lim, Run(lim, ops[..|ops| - 1]), ops[|ops| - 1]).0
  }

  function Log(ops: seq<Op>): map<string, Entry> {
    if ops == [] then map[] else Remember(Log(ops[..|ops| - 1]), ops[|ops| - 1])
  }

  lemma {:induction false} RunAgrees(lim: Limits, ops: seq<Op>)
    ensures Agrees(lim, Run(lim, ops), Log(ops))
  {
    if ops != [] {
      RunAgrees(lim, ops[..|ops| - 1]);
      ApplyAgrees(lim, Run(lim, ops[..|ops| - 1]), Log(ops[..|ops| - 1]), ops[|ops| - 1]);
    }
  }

  /** Over any history of operations, a hit is the entry last admitted for its key since the last clear, unexpired. */
  lemma HitIsLastAdmitted(lim: Limits, ops: seq<Op>, key: string, now: Time)
    ensures var hit := Apply(lim, Run(lim, ops), Get(key, now)).1;
            hit.Some? ==> key in Log(ops) && hit.value == Log(ops)[key] && now <= hit.value.expires
  {
    RunAgrees(lim, ops);
    ApplyAgrees(lim, Run(lim, ops), Log(ops), Get(key, now));
  }

  // ----- what is found

  lemma {:induction false} FindUnique(lru: seq<Entry>, e: Entry)
    requires Unique(lru) && e in lru
    ensures Find(lru, e.key) == Some(e)
  {
    if lru[0] != e { FindUnique(lru[1..], e); }
  }

  /** A hit is an unexpired entry of the list, and every unexpired entry of the list is hit. */
  lemma HitIff(lim: Limits, lru: seq<Entry>, key: string, now: Time, e: Entry)
    requires Unique(lru)
    ensures Apply(lim, lru, Get(key, now)).1 == Some(e) <==> e in lru && e.key == key && now <= e.expires
  {
    if e in lru && e.key == key { FindUnique(lru, e); }
  }

  /** The entries of the list up to e alone are too many or too large. */
  ghost predicate Crowded(lim: Limits, lru: seq<Entry>, e: Entry) {
    exists i :: 0 <= i < |lru| && lru[i] == e && !Fits(lim, lru[..i + 1])
  }

  /** An entry leaves only by clearing, by being replaced, when it is looked up after its expiry, or when it is crowded out. */
  lemma LeavesOnly(lim: Limits, ops: seq<Op>, op: Op, e: Entry)
    requires e in Run(lim, ops) && e !in Run(lim, ops + [op])
    ensures op.Get? ==> op.key == e.key && op.now > e.expires
    ensures op.Put? ==> op.entry.key == e.key || Crowded(lim, [op.entry] + Without(Run(lim, ops), op.entry.key), e)
  {
    hide Without, Evicted, Fits, Bytes;
    assert (ops + [op])[..|ops|] == ops;
    var lru := Run(lim, ops);
    RunAgrees(lim, ops);
    match op
    case Clear => { }
    case Get(key, now) =>
      WithoutFacts(lru, key);
      if key == e.key { FindUnique(lru, e); }
    case Put(entry) =>
      if entry.key != e.key {
        WithoutFacts(lru, entry.key);
        var full := [entry] + Without(lru, entry.key);
        assert e in full;
        var i :| 0 <= i < |full| && full[i] == e;
        EvictedLongest(lim, full, i + 1);
        assert forall k :: 0 <= k < |Evicted(lim, full)| ==> Evicted(lim, full)[k] in Evicted(lim, full);
      }
  }

  // ----- while there is room, nothing is crowded out

  function Weights(log: map<string, Entry>): map<string, int> { map k | k in log :: log[k].bytes }

  /** All that was admitted and not cleared fits together. */
  ghost predicate Room(lim: Limits, log: map<string, Entry>) { |log| <= lim.maxEntries && Total(Weights(log)) <= lim.maxBytes }

  lemma {:induction false} ListWithin(lru: seq<Entry>, log: map<string, Entry>)
    requires Unique(lru) && forall e :: e in lru ==> e.key in log && log[e.key] == e
    ensures |lru| <= |log| && Bytes(lru) <= Total(Weights(log))
    decreases lru
  {
    hide Unique, Total;
    if lru != [] {
      var e := lru[0];
      RestUnique(lru);
      var less := log - {e.key};
      forall x | x in lru[1..] ensures x.key in less && less[x.key] == x { assert x in lru; }
      ListWithin(lru[1..], less);
      TotalRemove(Weights(log), e.key);
      assert Weights(log) - {e.key} == Weights(less);
      assert log.Keys == less.Keys + {e.key};
    } else {
      NaturalTotal(log);
    }
  }

  lemma {:induction false} NaturalTotal(log: map<string, Entry>)
    ensures Total(Weights(log)) >= 0
    decreases log.Keys
  {
    hide Total;
    if log.Keys == {} {
      EmptyTotal(Weights(log));
    } else {
      var k := Witness(log.Keys);
      TotalRemove(Weights(log), k);
      assert Weights(log) - {k} == Weights(log - {k});
      NaturalTotal(log - {k});
    }
  }

  lemma EmptyTotal(m: map<string, int>)
    requires m.Keys == {}
    ensures Total(m) == 0
  { }

  /** With room for all, an insertion evicts nobody. */
  lemma RoomForAll(lim: Limits, ops: seq<Op>, entry: Entry)
    requires Room(lim, Log(ops + [Put(entry)]))
    ensures Run(lim, ops + [Put(entry)]) == [entry] + Without(Run(lim, ops), entry.key)
  {
    hide Total, Bytes, Without, Room;
    var all := ops + [Put(entry)];
    assert all[..|ops|] == ops;
    var lru := Run(lim, ops);
    RunAgrees(lim, ops);
    FrontUnique(lru, entry);
    ListWithin([entry] + Without(lru, entry.key), Log(all));
    assert Fits(lim, [entry] + Without(lru, entry.key)) by { RoomBounds(lim, Log(all)); }
  }

  lemma RoomBounds(lim: Limits, log: map<string, Entry>)
    requires Room(lim, log)
    ensures |log| <= lim.maxEntries && Total(Weights(log)) <= lim.maxBytes
  { }

  ghost predicate RoomAt(lim: Limits, ops: seq<Op>, n: nat)
    requires n <= |ops|
  {
    Room(lim, Log(ops[..n]))
  }

  ghost predicate Roomy(lim: Limits, ops: seq<Op>) { forall n :: 0 <= n <= |ops| ==> RoomAt(lim, ops, n) }

  /** With room for all, an admitted entry is in the list unless somebody looked it up after its expiry. */
  lemma {:induction false} KeptOrExpired(lim: Limits, ops: seq<Op>, key: string)
    requires Roomy(lim, ops) && key in Log(ops)
    ensures Log(ops)[key] in Run(lim, ops)
            || exists i :: 0 <= i < |ops| && ops[i].Get? && ops[i].key == key && ops[i].now > Log(ops)[key].expires
  {
    hide Room, Without, Evicted;
    if ops != [] {
      var before, op := ops[..|ops| - 1], ops[|ops| - 1];
      assert ops == before + [op] && ops[..|ops|] == ops;
      EarlierRoomy(lim, ops);
      assert RoomAt(lim, ops, |ops|);
      var lru := Run(lim, before);
      RunAgrees(lim, before);
      if op.Put? && op.entry.key == key {
        RoomForAll(lim, before, op.entry);
      } else {
        KeptOrExpired(lim, before, key);
        if i :| 0 <= i < |before| && before[i].Get? && before[i].key == key && before[i].now > Log(before)[key].expires {
          assert ops[i] == before[i];
        } else {
          match op
          case Put(entry) =>
            RoomForAll(lim, before, entry);
            WithoutFacts(lru, entry.key);
          case Get(k, now) =>
            WithoutFacts(lru, k);
            if k == key { FindUnique(lru, Log(before)[key]); }
        }
      }
    }
  }

  lemma EarlierRoomy(lim: Limits, ops: seq<Op>)
    requires ops != [] && Roomy(lim, ops)
    ensures Roomy(lim, ops[..|ops| - 1])
  {
    hide Room;
    var before := ops[..|ops| - 1];
    forall n | 0 <= n <= |before| ensures RoomAt(lim, before, n) {
      assert before[..n] == ops[..n];
      assert RoomAt(lim, ops, n);
    }
  }

  /** As long as all that was admitted fits, the bounded cache hits exactly when the unbounded one holds an unexpired
      entry, and returns it; lookups are in the order of time. */
  lemma HitsLikeUnbounded(lim: Limits, ops: seq<Op>, key: string, now: Time)
    requires Roomy(lim, ops) && forall i :: 0 <= i < |ops| && ops[i].Get? ==> ops[i].now <= now
    ensures Apply(lim, Run(lim, ops), Get(key, now)).1
            == if key in Log(ops) && now <= Log(ops)[key].expires then Some(Log(ops)[key]) else None
  {
    hide Without, Evicted, Room, Fits, Roomy;
    RunAgrees(lim, ops);
    ApplyAgrees(lim, Run(lim, ops), Log(ops), Get(key, now));
    if key in Log(ops) && now <= Log(ops)[key].expires {
      KeptOrExpired(lim, ops, key);
      HitIff(lim, Run(lim, ops), key, now, Log(ops)[key]);
    }
  }

  // ----- the list is in the order of last use

  /** The operation stores an entry of this key or finds one. */
  predicate Uses(lim: Limits, lru: seq<Entry>, op: Op, key: string) {
    (op.Put? && op.entry.key == key) || (op.Get? && op.key == key && Apply(lim, lru, op).1.Some?)
  }

  /** The index of the last operation that used the key, or -1. */
  function LastUse(lim: Limits, ops: seq<Op>, key: string): (i: int)
    ensures -1 <= i < |ops|
  {
    if ops == [] then -1
    else if Uses(lim, Run(lim, ops[..|ops| - 1]), ops[|ops| - 1], key) then |ops| - 1
    else LastUse(lim, ops[..|ops| - 1], key)
  }

  ghost predicate UsedAt(lim: Limits, ops: seq<Op>, k: nat, key: string) {
    k < |ops| && Uses(lim, Run(lim, ops[..k]), ops[k], key)
  }

  lemma {:induction false} LastUseIsLast(lim: Limits, ops: seq<Op>, key: string)
    ensures var i := LastUse(lim, ops, key);
            (i >= 0 ==> UsedAt(lim, ops, i, key)) && forall k: nat :: UsedAt(lim, ops, k, key) ==> k <= i
  {
    hide Uses, Run;
    if ops != [] {
      var before := ops[..|ops| - 1];
      LastUseIsLast(lim, before, key);
      forall k: nat | k < |before| ensures UsedAt(lim, ops, k, key) == UsedAt(lim, before, k, key) { assert ops[..k] == before[..k]; }
    }
  }

  /** Each entry was last used later than the ones behind it. */
  ghost predicate ByLastUse(lim: Limits, ops: seq<Op>, lru: seq<Entry>) {
    forall i, j :: 0 <= i < j < |lru| ==> LastUse(lim, ops, lru[i].key) > LastUse(lim, ops, lru[j].key)
  }

  lemma {:induction false} WithoutInOrder(lim: Limits, ops: seq<Op>, lru: seq<Entry>, key: string)
    requires ByLastUse(lim, ops, lru)
    ensures ByLastUse(lim, ops, Without(lru, key))
  {
    hide LastUse, ByLastUse;
    if lru != [] {
      RestInOrder(lim, ops, lru);
      WithoutInOrder(lim, ops, lru[1..], key);
      WithoutMembers(lru[1..], key);
      if lru[0].key != key { InFrontInOrder(lim, ops, lru[0], Without(lru[1..], key)); }
    }
  }

  lemma RestInOrder(lim: Limits, ops: seq<Op>, lru: seq<Entry>)
    requires ByLastUse(lim, ops, lru) && lru != []
    ensures ByLastUse(lim, ops, lru[1..])
    ensures forall e :: e in lru[1..] ==> LastUse(lim, ops, lru[0].key) > LastUse(lim, ops, e.key)
  {
    hide LastUse;
    forall e | e in lru[1..] ensures LastUse(lim, ops, lru[0].key) > LastUse(lim, ops, e.key) {
      var k :| 0 <= k < |lru[1..]| && lru[1..][k] == e;
      assert lru[k + 1] == e;
    }
  }

  lemma InFrontInOrder(lim: Limits, ops: seq<Op>, e: Entry, rest: seq<Entry>)
    requires ByLastUse(lim, ops, rest)
    requires forall x :: x in rest ==> LastUse(lim, ops, e.key) > LastUse(lim, ops, x.key)
    ensures ByLastUse(lim, ops, [e] + rest)
  {
    hide LastUse;
    assert forall i :: 0 <= i < |rest| ==> rest[i] in rest;
  }

  /** Keys that an operation does not use keep their last use. */
  lemma UsesNone(lim: Limits, ops: seq<Op>, key: string)
    requires ops != [] && !Uses(lim, Run(lim, ops[..|ops| - 1]), ops[|ops| - 1], key)
    ensures LastUse(lim, ops, key) == LastUse(lim, ops[..|ops| - 1], key)
  { }

  lemma UsesLast(lim: Limits, ops: seq<Op>, key: string)
    requires ops != [] && Uses(lim, Run(lim, ops[..|ops| - 1]), ops[|ops| - 1], key)
    ensures LastUse(lim, ops, key) == |ops| - 1
  { }

  /** The list before an operation, without the key it concerns, is in order of last use after it as well. */
  lemma OthersInOrder(lim: Limits, ops: seq<Op>, lru: seq<Entry>, key: string)
    requires ops != [] && ByLastUse(lim, ops[..|ops| - 1], lru)
    requires forall e :: e in lru && e.key != key ==> !Uses(lim, Run(lim, ops[..|ops| - 1]), ops[|ops| - 1], e.key)
    ensures ByLastUse(lim, ops, Without(lru, key))
    ensures forall e :: e in Without(lru, key) ==> LastUse(lim, ops, e.key) < |ops| - 1
  {
    hide LastUse, Uses, Run;
    var before := ops[..|ops| - 1];
    var w := Without(lru, key);
    WithoutInOrder(lim, before, lru, key);
    WithoutMembers(lru, key);
    forall e | e in w ensures LastUse(lim, ops, e.key) == LastUse(lim, before, e.key) { UsesNone(lim, ops, e.key); }
    assert forall i :: 0 <= i < |w| ==> w[i] in w;
  }

  /** In every run, the list is in the order of last use: what was stored or found later stands further in front. */
  lemma {:induction false} RunByLastUse(lim: Limits, ops: seq<Op>)
    ensures ByLastUse(lim, ops, Run(lim, ops))
  {
    hide LastUse, Without;
    if ops != [] {
      var before, op := ops[..|ops| - 1], ops[|ops| - 1];
      var lru := Run(lim, before);
      RunByLastUse(lim, before);
      match op
      case Get(key, now) =>
        var e := Find(lru, key);
        OthersInOrder(lim, ops, lru, key);
        if e.None? {
          assert forall i :: 0 <= i < |lru| ==> lru[i] in lru;
          WithoutAbsent(lru, key);
        } else if now <= e.value.expires {
          UsesLast(lim, ops, key);
          InFrontInOrder(lim, ops, e.value, Without(lru, key));
        }
      case Put(entry) =>
        OthersInOrder(lim, ops, lru, entry.key);
        UsesLast(lim, ops, entry.key);
        InFrontInOrder(lim, ops, entry, Without(lru, entry.key));
      case Clear =>
    }
  }

  /** What an insertion throws out was last used before everything that it keeps. */
  lemma EvictedLeastRecent(lim: Limits, ops: seq<Op>, entry: Entry, kept: Entry, gone: Entry)
    requires kept in Run(lim, ops + [Put(entry)])
    requires gone in [entry] + Without(Run(lim, ops), entry.key) && gone !in Run(lim, ops + [Put(entry)])
    ensures LastUse(lim, ops + [Put(entry)], gone.key) < LastUse(lim, ops + [Put(entry)], kept.key)
  {
    hide LastUse, Without, Evicted;
    var all := ops + [Put(entry)];
    assert all[..|all| - 1] == ops;
    var lru := Run(lim, ops);
    RunByLastUse(lim, ops);
    OthersInOrder(lim, all, lru, entry.key);
    UsesLast(lim, all, entry.key);
    InFrontInOrder(lim, all, entry, Without(lru, entry.key));
    var full := [entry] + Without(lru, entry.key);
    assert Run(lim, all) == Evicted(lim, full);
    var i :| 0 <= i < |Evicted(lim, full)| && Evicted(lim, full)[i] == kept;
    var j :| 0 <= j < |full| && full[j] == gone;
    assert forall k :: 0 <= k < |Evicted(lim, full)| ==> Evicted(lim, full)[k] in Evicted(lim, full) && full[k] == Evicted(lim, full)[k];
  }

  // ----- the structures as they are kept

  /** The key map, the recency list and the byte counter describe the same entries. */
  ghost predicate Matches(lru: seq<Entry>, items: map<string, Entry>, bytes: int) {
    && Unique(lru) && bytes == Bytes(lru) && |items| == |lru|
    && (forall e :: e in lru ==> e.key in items && items[e.key] == e)
    && (forall k :: k in items ==> items[k] in lru && items[k].key == k)
  }

  lemma Sizes(lru: seq<Entry>, items: map<string, Entry>, bytes: int)
    requires Matches(lru, items, bytes)
    ensures |items| == |lru| && bytes == Bytes(lru)
  { }

  lemma FindItem(lru: seq<Entry>, items: map<string, Entry>, bytes: int, key: string)
    requires Matches(lru, items, bytes)
    ensures Find(lru, key) == if key in items then Some(items[key]) else None
    ensures key in items ==> items[key] in lru && items[key].key == key
    ensures key !in items ==> Without(lru, key) == lru
  {
    if key !in items {
      assert forall i :: 0 <= i < |lru| ==> lru[i] in lru;
      WithoutAbsent(lru, key);
    }
  }

  lemma RemoveMatches(lru: seq<Entry>, items: map<string, Entry>, bytes: int, e: Entry)
    requires Matches(lru, items, bytes) && e in lru
    ensures Matches(Without(lru, e.key), items - {e.key}, bytes - e.bytes)
    ensures e.key !in items - {e.key}
  {
    hide Without, Bytes, Unique;
    WithoutFacts(lru, e.key);
    WithoutOne(lru, e);
    assert (items - {e.key}).Keys == items.Keys - {e.key};
  }

  lemma PushFacts(lru: seq<Entry>, e: Entry)
    requires Unique(lru) && forall x :: x in lru ==> x.key != e.key
    ensures Unique([e] + lru) && Bytes([e] + lru) == e.bytes + Bytes(lru)
    ensures forall x :: x in [e] + lru <==> x == e || x in lru
  {
    InFrontUnique(e, lru);
    assert ([e] + lru)[1..] == lru;
  }

  lemma RemoveFits(lim: Limits, lru: seq<Entry>, items: map<string, Entry>, bytes: int, e: Entry)
    requires Matches(lru, items, bytes) && e in lru && Fits(lim, lru)
    ensures Fits(lim, Without(lru, e.key))
  {
    WithoutOne(lru, e);
  }

  lemma AddMatches(lru: seq<Entry>, items: map<string, Entry>, bytes: int, e: Entry)
    requires Matches(lru, items, bytes) && e.key !in items
    ensures Matches([e] + lru, items[e.key := e], bytes + e.bytes)
  {
    hide Unique, Bytes;
    PushFacts(lru, e);
    assert items[e.key := e].Keys == items.Keys + {e.key};
  }

  lemma MoveMatches(lru: seq<Entry>, items: map<string, Entry>, bytes: int, e: Entry)
    requires Matches(lru, items, bytes) && e in lru
    ensures Matches([e] + Without(lru, e.key), items, bytes)
    ensures Bytes([e] + Without(lru, e.key)) == Bytes(lru) && |[e] + Without(lru, e.key)| == |lru|
  {
    hide Matches;
    RemoveMatches(lru, items, bytes, e);
    AddMatches(Without(lru, e.key), items - {e.key}, bytes - e.bytes, e);
    Sizes(lru, items, bytes);
    assert (items - {e.key})[e.key := e] == items by { ItemOf(lru, items, bytes, e); }
    Sizes([e] + Without(lru, e.key), items, bytes);
  }

  lemma ItemOf(lru: seq<Entry>, items: map<string, Entry>, bytes: int, e: Entry)
    requires Matches(lru, items, bytes) && e in lru
    ensures e.key in items && items[e.key] == e
  { }

  lemma LastOut(lru: seq<Entry>, items: map<string, Entry>, bytes: int)
    requires Matches(lru, items, bytes) && lru != []
    ensures Without(lru, lru[|lru| - 1].key) == lru[..|lru| - 1] && lru[|lru| - 1] in lru
  {
    LastOutUnique(lru);
  }

  /** The part that the three caches share: `items`, `lru` and `bytes`, updated in place. */
  class Store {
    const lim: Limits
    var bytes: int
    var lru: seq<Entry>
    var items: map<string, Entry>

    /** The three structures describe the same entries, within the bounds. */
    ghost predicate Valid()
      reads this
    {
      Matches(lru, items, bytes) && Fits(lim, lru)
    }

    constructor (lim: Limits)
      ensures Valid() && this.lim == lim && lru == []
    {
      this.lim, bytes, lru, items := lim, 0, [], map[];
    }

    method Remove(e: Entry)
      requires Matches(lru, items, bytes) && e in lru
      modifies this
      ensures Matches(lru, items, bytes) && lru == Without(old(lru), e.key) && e.key !in items
    {
      RemoveMatches(lru, items, bytes, e);
      items := items - {e.key};
      bytes := bytes - e.bytes;
      lru := Without(lru, e.key);
    }

    method Lookup(key: string, now: Time) returns (r: Option<Entry>)
      requires Valid()
      modifies this
      ensures Valid()
      ensures (lru, r) == Apply(lim, old(lru), Get(key, now))
    {
      hide Matches, Without, Bytes;
      FindItem(lru, items, bytes, key);
      if key !in items { return None; }
      var e := items[key];
      if now > e.expires {
        RemoveFits(lim, lru, items, bytes, e);
        Remove(e);
        return None;
      }
      MoveMatches(lru, items, bytes, e);
      lru := [e] + Without(lru, key);
      return Some(e);
    }

    /** Replace the entry of a key, put it in front, and evict from the back. */
    method Insert(e: Entry)
      requires Valid()
      modifies this
      ensures Valid()
      ensures lru == Apply(lim, old(lru), Put(e)).0
    {
      hide Matches, Without, Bytes;
      FindItem(lru, items, bytes, e.key);
      if e.key in items {
        Remove(items[e.key]);
      }
      ghost var full := [e] + lru;
      PushFront(e);
      Sizes(lru, items, bytes);
      while |items| > lim.maxEntries || bytes > lim.maxBytes
        invariant |items| == |lru| && bytes == Bytes(lru)
        invariant Matches(lru, items, bytes)
        invariant Evicted(lim, lru) == Evicted(lim, full)
        decreases |lru|
      {
        EvictBack();
      }
    }

    /** One turn of the eviction loop. */
    method EvictBack()
      requires Matches(lru, items, bytes) && !Fits(lim, lru)
      modifies this
      ensures Matches(lru, items, bytes) && |items| == |lru| && bytes == Bytes(lru)
      ensures |lru| < |old(lru)| && Evicted(lim, lru) == Evicted(lim, old(lru))
    {
      hide Matches, Without;
      var back := lru[|lru| - 1];
      LastOut(lru, items, bytes);
      Remove(back);
      Sizes(lru, items, bytes);
    }

    method PushFront(e: Entry)
      requires Matches(lru, items, bytes) && e.key !in items
      modifies this
      ensures Matches(lru, items, bytes) && lru == [e] + old(lru)
    {
      AddMatches(lru, items, bytes, e);
      items := items[e.key := e];
      bytes := bytes + e.bytes;
      lru := [e] + lru;
    }

    method Clear()
      modifies this
      ensures Valid() && lru == []
    {
      lru, items, bytes := [], map[], 0;
    }
  }

  lemma {:induction false} LastOutUnique(lru: seq<Entry>)
    requires Unique(lru) && lru != []
    ensures Without(lru, lru[|lru| - 1].key) == lru[..|lru| - 1]
  {
    if |lru| == 1 {
      assert lru[1..] == [];
    } else {
      assert lru[1..][|lru| - 2] == lru[|lru| - 1];
      LastOutUnique(lru[1..]);
      assert lru[..|lru| - 1] == [lru[0]] + lru[1..][..|lru| - 2];
    }
  }
}
