/** What every critical section of the admission controller keeps. */
module AdmissionState {
  import opened Common
  import opened Admission

  // ----- the grants that are out

  ghost function HeldOn(held: map<nat, Waiter>, target: string): set<nat> {
    set id | id in held && held[id].target == target
  }

  ghost function HeldIn(held: map<nat, Waiter>, c: Class): set<nat> {
    set id | id in held && held[id].class_ == c
  }

  /** The counters count the outstanding grants, per target and per class. */
  ghost predicate Counted(s: State) {
    && s.active == |s.held|
    && (forall t :: At(s.byTarget, t) == |HeldOn(s.held, t)|)
    && (forall c: Class :: At(s.byClass, c) == |HeldIn(s.held, c)|)
  }

  /** Every cap holds. */
  ghost predicate Capped(cfg: Config, s: State) {
    && s.active <= cfg.global
    && (forall t :: At(s.byTarget, t) <= cfg.perTarget)
    && At(s.byClass, Batch) <= cfg.batchMax && At(s.byClass, Maintenance) <= cfg.maintenanceMax
  }

  /** Every arrived waiter waits, was canceled, or was granted; `all` lists them by id. */
  ghost predicate Accounted(s: State, all: map<nat, Waiter>) {
    && (forall id :: id in all ==> all[id].id == id)
    && (forall c: Class, w :: w in Queue(s.queues, c) ==> w.id in all && all[w.id] == w && w.id !in s.ready)
    && (forall id :: id in all ==> Waits(s, all[id]) || id in s.canceled || id in s.ready)
    && s.ready <= all.Keys && s.canceled <= all.Keys && s.canceled !! s.ready
    && s.held.Keys <= s.ready && (forall id :: id in s.held ==> s.held[id] == all[id])
  }

  ghost predicate Consistent(cfg: Config, s: State, all: map<nat, Waiter>) {
    Shaped(s) && Counted(s) && Capped(cfg, s) && Accounted(s, all)
  }

  lemma HeldOnAdd(held: map<nat, Waiter>, w: Waiter, t: string)
    requires w.id !in held
    ensures |HeldOn(held[w.id := w], t)| == |HeldOn(held, t)| + if t == w.target then 1 else 0
  {
    assert HeldOn(held[w.id := w], t) == HeldOn(held, t) + if t == w.target then {w.id} else {};
  }

  lemma HeldInAdd(held: map<nat, Waiter>, w: Waiter, c: Class)
    requires w.id !in held
    ensures |HeldIn(held[w.id := w], c)| == |HeldIn(held, c)| + if c == w.class_ then 1 else 0
  {
    assert HeldIn(held[w.id := w], c) == HeldIn(held, c) + if c == w.class_ then {w.id} else {};
  }

  lemma CountGrant(s: State, t: State, w: Waiter)
    requires Counted(s) && w.id !in s.held
    requires t.active == s.active + 1 && t.held == s.held[w.id := w]
    requires t.byTarget == s.byTarget[w.target := At(s.byTarget, w.target) + 1]
    requires t.byClass == s.byClass[w.class_ := At(s.byClass, w.class_) + 1]
    ensures Counted(t)
  {
    assert t.held.Keys == s.held.Keys + {w.id};
    forall k ensures At(t.byTarget, k) == |HeldOn(t.held, k)| { HeldOnAdd(s.held, w, k); }
    forall c: Class ensures At(t.byClass, c) == |HeldIn(t.held, c)| { HeldInAdd(s.held, w, c); }
  }

  lemma CountReturn(s: State, t: State, w: Waiter)
    requires Counted(s) && w.id in s.held && s.held[w.id] == w
    requires t.active == s.active - 1 && t.held == s.held - {w.id}
    requires t.byTarget == s.byTarget[w.target := At(s.byTarget, w.target) - 1]
    requires t.byClass == s.byClass[w.class_ := At(s.byClass, w.class_) - 1]
    ensures Counted(t)
  {
    assert t.held.Keys == s.held.Keys - {w.id};
    assert t.held[w.id := w] == s.held;
    forall k ensures At(t.byTarget, k) == |HeldOn(t.held, k)| { HeldOnAdd(t.held, w, k); }
    forall c: Class ensures At(t.byClass, c) == |HeldIn(t.held, c)| { HeldInAdd(t.held, w, c); }
  }

  // ----- the sums over all targets and classes

  ghost function HeldAmong(held: map<nat, Waiter>, keys: set<string>): set<nat> {
    set id | id in held && held[id].target in keys
  }

  lemma SplitAmong(held: map<nat, Waiter>, keys: set<string>, k: string)
    requires k in keys
    ensures |HeldAmong(held, keys)| == |HeldOn(held, k)| + |HeldAmong(held, keys - {k})|
  {
    assert HeldAmong(held, keys) == HeldOn(held, k) + HeldAmong(held, keys - {k});
    assert HeldOn(held, k) !! HeldAmong(held, keys - {k});
  }

  lemma {:induction false} TotalCounts(m: map<string, int>, held: map<nat, Waiter>)
    requires forall t :: t in m ==> m[t] == |HeldOn(held, t)|
    ensures Total(m) == |HeldAmong(held, m.Keys)|
    decreases m.Keys
  {
    if m.Keys == {} {
      assert HeldAmong(held, m.Keys) == {};
    } else {
      var k := Pick(m.Keys);
      SplitAmong(held, m.Keys, k);
      assert (m - {k}).Keys == m.Keys - {k};
      TotalCounts(m - {k}, held);
    }
  }

  /** active is the sum of byTarget and of byClass. */
  lemma ActiveIsSum(cfg: Config, s: State, all: map<nat, Waiter>)
    requires Consistent(cfg, s, all)
    ensures s.active == Total(s.byTarget)
    ensures s.active == At(s.byClass, Metadata) + At(s.byClass, Interactive) + At(s.byClass, Batch) + At(s.byClass, Maintenance)
  {
    TargetSum(s);
    ClassSum(s.held);
  }

  lemma TargetSum(s: State)
    requires Counted(s)
    ensures s.active == Total(s.byTarget)
  {
    assert forall t :: t in s.byTarget ==> s.byTarget[t] == At(s.byTarget, t);
    TotalCounts(s.byTarget, s.held);
    forall id | id in s.held ensures s.held[id].target in s.byTarget {
      assert id in HeldOn(s.held, s.held[id].target);
    }
    assert HeldAmong(s.held, s.byTarget.Keys) == s.held.Keys;
  }

  lemma ClassSum(held: map<nat, Waiter>)
    ensures |held| == |HeldIn(held, Metadata)| + |HeldIn(held, Interactive)| + |HeldIn(held, Batch)| + |HeldIn(held, Maintenance)|
  {
    var m, i, b, x := HeldIn(held, Metadata), HeldIn(held, Interactive), HeldIn(held, Batch), HeldIn(held, Maintenance);
    assert held.Keys == m + i + b + x;
    assert |m + i| == |m| + |i|;
    assert |(m + i) + b| == |m + i| + |b|;
  }

  // ----- each elementary change keeps consistency

  lemma GrantCapped(cfg: Config, s: State, t: State, w: Waiter)
    requires Capped(cfg, s) && s.active < cfg.global && CanRun(cfg, s, w)
    requires t.active == s.active + 1
    requires t.byTarget == s.byTarget[w.target := At(s.byTarget, w.target) + 1]
    requires t.byClass == s.byClass[w.class_ := At(s.byClass, w.class_) + 1]
    ensures Capped(cfg, t)
  {
    forall k ensures At(t.byTarget, k) <= cfg.perTarget { assert At(s.byTarget, k) <= cfg.perTarget; }
  }

  lemma GrantAccounted(s: State, t: State, w: Waiter, all: map<nat, Waiter>)
    requires Shaped(s) && Accounted(s, all) && Taken(s, t, w)
    ensures Accounted(t, all)
  {
    assert all[w.id] == w;
    forall c: Class, v | v in Queue(t.queues, c) ensures v.id in all && all[v.id] == v && v.id !in t.ready {
      assert v in Queue(s.queues, c);
    }
  }

  lemma GrantKeeps(cfg: Config, s: State, t: State, w: Waiter, all: map<nat, Waiter>)
    requires Consistent(cfg, s, all) && s.active < cfg.global && CanRun(cfg, s, w) && Taken(s, t, w)
    ensures Consistent(cfg, t, all)
  {
    CountGrant(s, t, w);
    GrantCapped(cfg, s, t, w);
    GrantAccounted(s, t, w, all);
  }

  lemma DropKeeps(cfg: Config, s: State, t: State, all: map<nat, Waiter>)
    requires Consistent(cfg, s, all) && SameWaiting(s, t)
    ensures Consistent(cfg, t, all) && TotalQueued(t) == TotalQueued(s)
  { }

  function Enqueued(s: State, w: Waiter): State {
    s.(queues := s.queues[w.class_ := Queue(s.queues, w.class_) + [w]])
  }

  lemma EnqueueMembers(s: State, w: Waiter)
    requires Shaped(s) && forall c: Class, v :: v in Queue(s.queues, c) ==> v.id < w.id
    ensures Shaped(Enqueued(s, w))
    ensures forall c: Class, v :: v in Queue(Enqueued(s, w).queues, c) <==> v in Queue(s.queues, c) || (c == w.class_ && v == w)
  {
    var t := Enqueued(s, w);
    forall c: Class ensures Ordered(Queue(t.queues, c)) && forall v :: v in Queue(t.queues, c) <==> v in Queue(s.queues, c) || (c == w.class_ && v == w) {
      assert Queue(t.queues, c) == if c == w.class_ then Queue(s.queues, c) + [w] else Queue(s.queues, c);
      assert forall i :: 0 <= i < |Queue(s.queues, c)| ==> Queue(s.queues, c)[i] in Queue(s.queues, c);
    }
  }

  lemma EnqueueAccounted(s: State, w: Waiter, all: map<nat, Waiter>)
    requires Shaped(s) && Accounted(s, all) && w.id !in all
    requires forall c: Class, v :: v in Queue(Enqueued(s, w).queues, c) <==> v in Queue(s.queues, c) || (c == w.class_ && v == w)
    ensures Accounted(Enqueued(s, w), all[w.id := w])
  {
    hide Ordered;
    forall id | id in all[w.id := w]
      ensures Waits(Enqueued(s, w), all[w.id := w][id]) || id in s.canceled || id in s.ready
    {
      if id != w.id { assert Waits(s, all[id]) || id in s.canceled || id in s.ready; }
    }
  }

  lemma EnqueueKeeps(cfg: Config, s: State, w: Waiter, all: map<nat, Waiter>)
    requires Consistent(cfg, s, all) && forall id :: id in all ==> id < w.id
    ensures Consistent(cfg, Enqueued(s, w), all[w.id := w])
    ensures TotalQueued(Enqueued(s, w)) == TotalQueued(s) + 1
  {
    EnqueueMembers(s, w);
    EnqueueAccounted(s, w, all);
    EnqueueTotal(s, w);
  }

  lemma EnqueueTotal(s: State, w: Waiter)
    requires w.id !in s.canceled
    ensures TotalQueued(Enqueued(s, w)) == TotalQueued(s) + 1
  {
    LiveAppend(Queue(s.queues, w.class_), w, s.canceled);
    assert forall c: Class :: Queue(Enqueued(s, w).queues, c)
                              == if c == w.class_ then Queue(s.queues, c) + [w] else Queue(s.queues, c);
  }

  function Returned(s: State, w: Waiter): State {
    s.(active := s.active - 1,
       byTarget := s.byTarget[w.target := At(s.byTarget, w.target) - 1],
       byClass := s.byClass[w.class_ := At(s.byClass, w.class_) - 1],
       held := s.held - {w.id})
  }

  lemma ReturnKeeps(cfg: Config, s: State, w: Waiter, all: map<nat, Waiter>)
    requires Consistent(cfg, s, all) && w.id in s.held && s.held[w.id] == w
    ensures Consistent(cfg, Returned(s, w), all) && TotalQueued(Returned(s, w)) == TotalQueued(s)
  {
    hide Ordered, HeldOn, HeldIn, Live;
    CountReturn(s, Returned(s, w), w);
    forall k ensures At(Returned(s, w).byTarget, k) <= cfg.perTarget { assert At(s.byTarget, k) <= cfg.perTarget; }
    ReturnAccounted(s, w, all);
  }

  lemma ReturnAccounted(s: State, w: Waiter, all: map<nat, Waiter>)
    requires Accounted(s, all)
    ensures Accounted(Returned(s, w), all)
  {
    forall id | id in all ensures Waits(Returned(s, w), all[id]) || id in s.canceled || id in s.ready {
      assert Waits(s, all[id]) || id in s.canceled || id in s.ready;
    }
  }

  function Canceled(s: State, w: Waiter): State { s.(canceled := s.canceled + {w.id}) }

  lemma CancelKeeps(cfg: Config, s: State, w: Waiter, all: map<nat, Waiter>)
    requires Consistent(cfg, s, all) && w.id in all && w.id !in s.ready
    ensures Consistent(cfg, Canceled(s, w), all) && TotalQueued(Canceled(s, w)) <= TotalQueued(s)
  {
    CancelAccounted(s, w, all);
    forall c: Class ensures Live(Queue(s.queues, c), s.canceled + {w.id}) <= Live(Queue(s.queues, c), s.canceled) {
      LiveCancel(Queue(s.queues, c), s.canceled, w.id);
    }
  }

  lemma CancelAccounted(s: State, w: Waiter, all: map<nat, Waiter>)
    requires Accounted(s, all) && w.id in all && w.id !in s.ready
    ensures Accounted(Canceled(s, w), all)
  {
    forall id | id in all ensures Waits(Canceled(s, w), all[id]) || id in s.canceled + {w.id} || id in s.ready {
      assert Waits(s, all[id]) || id in s.canceled || id in s.ready;
    }
  }
}
