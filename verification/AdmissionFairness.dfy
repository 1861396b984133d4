/** When a backlogged class is served within a bounded number of admissions: the exact condition on the configuration. */
module AdmissionFairness {
  import opened Common
  import opened Admission
  import opened AdmissionState
  import opened AdmissionRuns

  // ----- the sentence of the design document

  ghost predicate Backlogged(s: State, c: Class) { exists w :: Waits(s, w) && w.class_ == c }

  /** Decisions i..j of the history pass over class c although it has somebody waiting each time. */
  ghost predicate Skipped(log: seq<Decision>, c: Class, i: nat, j: nat)
    requires i <= j <= |log|
  {
    forall k :: i <= k < j ==> log[k].granted.class_ != c && Backlogged(log[k].before, c)
  }

  /** In every run a continuously backlogged class c is passed over at most `bound` times in a row. */
  ghost predicate ServedWithin(cfg: Config, c: Class, bound: nat) {
    forall run: seq<System>, events: seq<Event>, n: nat, i: nat, j: nat ::
      IsRun(cfg, run, events) && n < |run| && i <= j <= |run[n].log| && Skipped(run[n].log, c, i, j) ==> j - i <= bound
  }

  /** Nobody can be granted past somebody else who waits. */
  predicate Trivial(cfg: Config) { cfg.global == 0 || cfg.perTarget == 0 || cfg.maxQueued <= 1 }

  /** No cap of its own and no capacity kept free for others can hold class c back while a slot is free. */
  predicate Unhindered(cfg: Config, c: Class) {
    cfg.perTarget >= cfg.global &&
    match c
    case Metadata => true
    case Interactive => cfg.metadataReserved == 0
    case Batch => cfg.metadataReserved == 0 && cfg.batchMax >= cfg.global
    case Maintenance => false
  }

  function Bound(c: Class): nat { if c == Metadata || c == Interactive then 3 else 5 }

  // ----- the condition suffices

  lemma SubsetSize(a: set<nat>, b: set<nat>)
    requires a <= b
    ensures |a| <= |b|
  {
    assert b == a + (b - a) && |b| == |a| + |b - a|;
  }

  lemma CountsBelowActive(s: State, t: string, c: Class)
    requires Counted(s)
    ensures 0 <= At(s.byTarget, t) <= s.active && 0 <= At(s.byClass, c) <= s.active
  {
    assert |s.held| == |s.held.Keys|;
    SubsetSize(HeldOn(s.held, t), s.held.Keys);
    SubsetSize(HeldIn(s.held, c), s.held.Keys);
  }

  /** Under the condition whoever waits can be granted while a slot is free. */
  lemma UnhinderedRuns(cfg: Config, s: State, w: Waiter)
    requires Deciding(cfg, s) && Waits(s, w) && Unhindered(cfg, w.class_)
    ensures Runnable(cfg, s, w.class_)
  {
    CountsBelowActive(s, w.target, w.class_);
    assert CanRun(cfg, s, w);
  }

  lemma {:induction false} LiveMember(q: seq<Waiter>, w: Waiter, canceled: set<nat>)
    requires w in q && w.id !in canceled
    ensures Live(q, canceled) >= 1
  {
    if q[0] != w { LiveMember(q[1..], w, canceled); }
  }

  /** A decision that passes over a backlogged class needs room for two in the queue, a slot, and a free target. */
  lemma SkipNeedsRoom(cfg: Config, d: Decision, b: Waiter)
    requires Deciding(cfg, d.before) && Granted(cfg, d.before, d.after, d.granted)
    requires Waits(d.before, b) && b.class_ != d.granted.class_
    ensures !Trivial(cfg)
  {
    var s, w := d.before, d.granted;
    hide OldestOfTarget, ClosesIn, HasRunnable;
    CountsBelowActive(s, w.target, w.class_);
    LiveMember(Queue(s.queues, b.class_), b, s.canceled);
    LiveMember(Queue(s.queues, w.class_), w, s.canceled);
    hide Live;
  }

  lemma SkippedIsBypassed(cfg: Config, s: State, log: seq<Decision>, c: Class, i: nat, j: nat)
    requires Faithful(cfg, s, log) && i <= j <= |log| && Skipped(log, c, i, j) && Unhindered(cfg, c)
    ensures Bypassed(cfg, log, c, i, j)
  {
    hide Granted, Runnable, Unhindered, Deciding;
    forall k | i <= k < j ensures Runnable(cfg, log[k].before, c) {
      var w :| Waits(log[k].before, w) && w.class_ == c;
      UnhinderedRuns(cfg, log[k].before, w);
    }
  }

  lemma SkippedNeedsRoom(cfg: Config, s: State, log: seq<Decision>, c: Class, i: nat, j: nat)
    requires Faithful(cfg, s, log) && i < j <= |log| && Skipped(log, c, i, j)
    ensures !Trivial(cfg)
  {
    hide Granted, Trivial, Deciding;
    var w :| Waits(log[i].before, w) && w.class_ == c;
    SkipNeedsRoom(cfg, log[i], w);
  }

  lemma ConditionSuffices(cfg: Config, c: Class)
    requires Trivial(cfg) || Unhindered(cfg, c)
    ensures ServedWithin(cfg, c, Bound(c))
  {
    hide IsRun, Consistent, Faithful, Fifo, AtRest, CallersAgree, Skipped, Bypassed, Trivial, Unhindered;
    forall run: seq<System>, events: seq<Event>, n: nat, i: nat, j: nat
      | IsRun(cfg, run, events) && n < |run| && i <= j <= |run[n].log| && Skipped(run[n].log, c, i, j)
      ensures j - i <= Bound(c)
    {
      RunInv(cfg, run, events, n);
      if i < j {
        SkippedNeedsRoom(cfg, run[n].ctl, run[n].log, c, i, j);
        SkippedIsBypassed(cfg, run[n].ctl, run[n].log, c, i, j);
        BoundedBypass(cfg, run, events, n, c, i, j);
      }
    }
  }

  // ----- the condition is needed: who holds the slots, who waits and who comes and goes

  function Name(k: nat): string { seq(k, i => 'x') }

  /** The class of the callers that come and go. */
  function Rotating(cfg: Config, c: Class): Class {
    if c == Metadata || (c == Maintenance && cfg.perTarget >= cfg.global) then Interactive else Metadata
  }

  /** The caller in the k-th slot: the target of the waiting class is filled up, or its class cap is, where that helps. */
  function Seat(cfg: Config, c: Class, k: nat): Waiter {
    Waiter(k, Name(if k < cfg.perTarget then 0 else k + 1),
           if c == Batch && cfg.perTarget >= cfg.global && k < cfg.batchMax < cfg.global then Batch else Rotating(cfg, c))
  }

  function SeatsOn(cfg: Config, c: Class, k: nat, t: string): nat {
    if k == 0 then 0 else SeatsOn(cfg, c, k - 1, t) + if Seat(cfg, c, k - 1).target == t then 1 else 0
  }

  function SeatsIn(cfg: Config, c: Class, k: nat, d: Class): nat {
    if k == 0 then 0 else SeatsIn(cfg, c, k - 1, d) + if Seat(cfg, c, k - 1).class_ == d then 1 else 0
  }

  lemma {:induction false} SeatCounts(cfg: Config, c: Class, k: nat)
    ensures SeatsOn(cfg, c, k, Name(0)) == Min(k, cfg.perTarget)
    ensures forall j: nat :: j > k ==> SeatsOn(cfg, c, k, Name(j)) == 0
    ensures c == Batch && cfg.perTarget >= cfg.global > cfg.batchMax ==> SeatsIn(cfg, c, k, Batch) == Min(k, cfg.batchMax)
  {
    if k > 0 {
      SeatCounts(cfg, c, k - 1);
      assert |Name(0)| == 0 && |Name(k)| == k;
      forall j: nat | j > k ensures Name(j) != Seat(cfg, c, k - 1).target { assert |Name(j)| == j; }
    }
  }

  /** b cannot be granted while a caller of the rotating class on target u can. */
  ghost predicate Obstructed(cfg: Config, byTarget: map<string, int>, byClass: map<Class, int>, b: Waiter, u: string) {
    if cfg.perTarget < cfg.global then At(byTarget, b.target) >= cfg.perTarget && b.target != u
    else b.class_ == Batch && cfg.batchMax < cfg.global ==> At(byClass, Batch) >= cfg.batchMax
  }

  /** Whoever is granted while metadata waits and only reserved slots are free is a metadata caller. */
  lemma ReservedForMetadata(cfg: Config, s: State, t: State, w: Waiter, m: Waiter)
    requires Shaped(s) && Granted(cfg, s, t, w) && cfg.metadataReserved > 0 && s.active >= cfg.global - cfg.metadataReserved
    requires Waits(s, m) && m.class_ == Metadata && At(s.byTarget, m.target) < cfg.perTarget
    ensures w.class_ == Metadata
  {
    RunnableByMembers(cfg, s, Metadata);
  }

  lemma OnlyNewcomerRuns(cfg: Config, s: State, b: Waiter, m: Waiter)
    requires Shaped(s) && !Trivial(cfg) && !Unhindered(cfg, b.class_) && s.active == cfg.global - 1
    requires m.class_ == Rotating(cfg, b.class_) && At(s.byTarget, m.target) < cfg.perTarget
    requires Obstructed(cfg, s.byTarget, s.byClass, b, m.target)
    requires forall v :: Waits(s, v) <==> v == b || v == m
    ensures CanRun(cfg, s, m) && !CanRun(cfg, s, b)
  {
    RunnableByMembers(cfg, s, Metadata);
    RunnableByMembers(cfg, s, Interactive);
    hide HasRunnable, Shaped;
    assert Waits(s, m) && Waits(s, b);
  }

  // ----- one grant

  /** Dispatching when only w may be granted grants w and stops. */
  lemma GrantsOne(cfg: Config, s: State, log: seq<Decision>, w: Waiter)
    requires Shaped(s) && s.active < cfg.global && Waits(s, w) && CanRun(cfg, s, w)
    requires forall v :: Waits(s, v) && v != w ==> !CanRun(cfg, s, v)
    requires s.active + 1 == cfg.global || forall v :: Waits(s, v) ==> v == w
    ensures var (t, log') := Dispatch(cfg, s, log);
            && t.active == s.active + 1 && t.held == s.held[w.id := w]
            && t.byTarget == s.byTarget[w.target := At(s.byTarget, w.target) + 1]
            && t.byClass == s.byClass[w.class_ := At(s.byClass, w.class_) + 1]
            && TotalQueued(t) + 1 == TotalQueued(s) && (forall v :: Waits(t, v) <==> Waits(s, v) && v != w)
            && |log'| == |log| + 1 && log' == log + [Decision(s, w, log'[|log|].after)]
  {
    hide Scan, CanRun, TotalQueued, Shaped, OldestOfTarget, ClosesIn;
    SameWaitingReflexive(s);
    ScanDecides(cfg, s, s, 0);
    var (t, g) := Scan(cfg, s, 0);
    assert Runnable(cfg, s, w.class_);
    assert g == Some(w);
    if t.active < cfg.global { NobodyLeft(cfg, t, log + [Decision(s, w, t)]); }
  }

  /** Dispatching when nobody waits changes nothing that counts. */
  lemma NobodyLeft(cfg: Config, t: State, log: seq<Decision>)
    requires Shaped(t) && t.active < cfg.global && forall v :: !Waits(t, v)
    ensures var (u, log') := Dispatch(cfg, t, log);
            log' == log && u == t.(queues := u.queues) && TotalQueued(u) == TotalQueued(t) && forall v :: !Waits(u, v)
  {
    hide Scan, CanRun, TotalQueued, Shaped, OldestOfTarget, ClosesIn;
    SameWaitingReflexive(t);
    ScanDecides(cfg, t, t, 0);
    var (u, g) := Scan(cfg, t, 0);
    SameTotal(t, u);
  }

  lemma Dispatches(cfg: Config, sys: System, w: Waiter)
    requires Shaped(sys.ctl) && sys.ctl.active < cfg.global && Waits(sys.ctl, w) && CanRun(cfg, sys.ctl, w)
    requires forall v :: Waits(sys.ctl, v) && v != w ==> !CanRun(cfg, sys.ctl, v)
    requires sys.ctl.active + 1 == cfg.global || forall v :: Waits(sys.ctl, v) ==> v == w
    ensures var s := sys.ctl; var sys' := Dispatched(cfg, sys); var t := sys'.ctl;
            && sys'.all == sys.all && sys'.phase == sys.phase && sys'.nextId == sys.nextId
            && t.active == s.active + 1 && t.held == s.held[w.id := w]
            && t.byTarget == s.byTarget[w.target := At(s.byTarget, w.target) + 1]
            && t.byClass == s.byClass[w.class_ := At(s.byClass, w.class_) + 1]
            && TotalQueued(t) + 1 == TotalQueued(s) && (forall v :: Waits(t, v) <==> Waits(s, v) && v != w)
            && |sys'.log| == |sys.log| + 1 && sys'.log == sys.log + [Decision(s, w, sys'.log[|sys.log|].after)]
  {
    hide Dispatch, TotalQueued, Waits, Shaped, CanRun;
    GrantsOne(cfg, sys.ctl, sys.log, w);
  }

  lemma FullSlots(cfg: Config, sys: System)
    requires sys.ctl.active >= cfg.global
    ensures Dispatched(cfg, sys) == sys
  { }

  lemma ArriveIs(cfg: Config, sys: System, w: Waiter)
    requires w.id == sys.nextId && TotalQueued(sys.ctl) < cfg.maxQueued
    ensures Next(cfg, sys, Arrive(w.target, w.class_), Dispatched(cfg, Joined(sys, w)))
  {
    hide Dispatched, TotalQueued;
  }

  lemma ReleaseIs(cfg: Config, sys: System, h: nat)
    requires h in sys.all && h in sys.phase && sys.phase[h] == Admitted
    ensures Next(cfg, sys, Release(h), Dispatched(cfg, GivenBack(sys, sys.all[h])))
  {
    hide Dispatched;
  }

  lemma KeysAgree(cfg: Config, sys: System)
    requires Inv(cfg, sys)
    ensures sys.phase.Keys == sys.all.Keys && forall id :: id in sys.all ==> id < sys.nextId
  {
    hide Sound, AtRest;
  }

  /** What an arrival changes before anybody is granted. */
  lemma Arrival(cfg: Config, sys: System, w: Waiter)
    requires Inv(cfg, sys) && w.id == sys.nextId && TotalQueued(sys.ctl) < cfg.maxQueued
    ensures var joined := Joined(sys, w);
            && Shaped(joined.ctl) && TotalQueued(joined.ctl) == TotalQueued(sys.ctl) + 1
            && (forall v :: Waits(joined.ctl, v) <==> Waits(sys.ctl, v) || v == w)
            && joined.ctl.active == sys.ctl.active && joined.ctl.held == sys.ctl.held && joined.log == sys.log
            && joined.ctl.byTarget == sys.ctl.byTarget && joined.ctl.byClass == sys.ctl.byClass
            && Next(cfg, sys, Arrive(w.target, w.class_), Dispatched(cfg, joined)) && Inv(cfg, Dispatched(cfg, joined))
  {
    hide AtRest, Counted, Capped, Faithful, Fifo, TotalQueued, Next, Dispatched, CallersAgree;
    KeysAgree(cfg, sys);
    EnqueueKeeps(cfg, sys.ctl, w, sys.all);
    EnqueueMembers(sys.ctl, w);
    ArriveIs(cfg, sys, w);
    NextInv(cfg, sys, Arrive(w.target, w.class_), Dispatched(cfg, Joined(sys, w)));
  }

  // ----- filling the slots

  ghost predicate RunTo(cfg: Config, run: seq<System>, events: seq<Event>, sys: System) {
    IsRun(cfg, run, events) && run[|run| - 1] == sys
  }

  lemma Extend(cfg: Config, run: seq<System>, events: seq<Event>, sys: System, e: Event, sys': System)
    requires RunTo(cfg, run, events, sys) && Next(cfg, sys, e, sys')
    ensures RunTo(cfg, run + [sys'], events + [e], sys')
  {
    hide Next, Init;
    forall i | 0 <= i < |events| + 1 ensures Next(cfg, (run + [sys'])[i], (events + [e])[i], (run + [sys'])[i + 1]) {
      if i < |events| { assert Next(cfg, run[i], events[i], run[i + 1]); }
    }
  }

  /** The first k slots are taken by the callers of their seats, and nobody waits. */
  ghost predicate Seated(cfg: Config, c: Class, sys: System, k: nat) {
    && Inv(cfg, sys) && sys.ctl.active == k && sys.nextId == k && |sys.log| == k
    && TotalQueued(sys.ctl) == 0 && (forall v :: !Waits(sys.ctl, v))
    && (forall t :: At(sys.ctl.byTarget, t) == SeatsOn(cfg, c, k, t))
    && (forall d: Class :: At(sys.ctl.byClass, d) == SeatsIn(cfg, c, k, d))
    && (k > 0 ==> k - 1 in sys.all && k - 1 in sys.phase && k - 1 in sys.ctl.held
                  && sys.all[k - 1] == Seat(cfg, c, k - 1) && sys.phase[k - 1] == Waiting)
  }

  lemma SeatRuns(cfg: Config, c: Class, s: State, k: nat)
    requires Shaped(s) && !Trivial(cfg) && k < cfg.global
    requires forall v :: Waits(s, v) <==> v == Seat(cfg, c, k)
    requires forall t :: At(s.byTarget, t) == SeatsOn(cfg, c, k, t)
    requires forall d: Class :: At(s.byClass, d) == SeatsIn(cfg, c, k, d)
    ensures CanRun(cfg, s, Seat(cfg, c, k))
  {
    SeatCounts(cfg, c, k);
    RunnableByMembers(cfg, s, Metadata);
    hide HasRunnable, SeatsOn, SeatsIn, Shaped, Name;
  }

  lemma SeatStep(cfg: Config, c: Class, sys: System, k: nat) returns (sys': System)
    requires !Trivial(cfg) && k < cfg.global && Seated(cfg, c, sys, k)
    ensures Next(cfg, sys, Arrive(Seat(cfg, c, k).target, Seat(cfg, c, k).class_), sys') && Seated(cfg, c, sys', k + 1)
  {
    hide Inv, Next, Dispatched, TotalQueued, Waits, Shaped, CanRun, Seat;
    var w := Seat(cfg, c, k);
    assert w.id == k by { SeatId(cfg, c, k); }
    Arrival(cfg, sys, w);
    var joined := Joined(sys, w);
    SeatRuns(cfg, c, joined.ctl, k);
    Dispatches(cfg, joined, w);
    sys' := Dispatched(cfg, joined);
    forall t ensures At(sys'.ctl.byTarget, t) == SeatsOn(cfg, c, k + 1, t) { }
    forall d: Class ensures At(sys'.ctl.byClass, d) == SeatsIn(cfg, c, k + 1, d) { }
    assert k in sys'.all && k in sys'.phase && k in sys'.ctl.held && sys'.nextId == k + 1;
  }

  lemma SeatId(cfg: Config, c: Class, k: nat)
    ensures Seat(cfg, c, k).id == k
  { }

  lemma Start() returns (sys: System)
    ensures Init(sys)
  {
    sys := System(State(0, map[], map[], map[Metadata := [], Interactive := [], Batch := [], Maintenance := []], 0, {}, {}, map[]),
                  [], map[], map[], 0, {});
  }

  lemma NobodySeated(cfg: Config, c: Class, sys: System)
    requires Init(sys)
    ensures Seated(cfg, c, sys, 0)
  {
    hide Inv, TotalQueued, Waits;
    InitInv(cfg, sys);
    NobodyWaits(sys.ctl);
  }

  lemma NobodyWaits(s: State)
    requires s.queues == map[Metadata := [], Interactive := [], Batch := [], Maintenance := []]
    ensures TotalQueued(s) == 0 && forall v :: !Waits(s, v)
  {
    assert forall d: Class :: Queue(s.queues, d) == [];
  }

  lemma {:induction false} Fill(cfg: Config, c: Class, k: nat) returns (run: seq<System>, events: seq<Event>, sys: System)
    requires !Trivial(cfg) && k <= cfg.global
    ensures RunTo(cfg, run, events, sys) && Seated(cfg, c, sys, k)
  {
    hide Seated, Next, Trivial;
    if k == 0 {
      sys := Start();
      NobodySeated(cfg, c, sys);
      run, events := [sys], [];
    } else {
      var before;
      run, events, before := Fill(cfg, c, k - 1);
      sys := SeatStep(cfg, c, before, k - 1);
      hide IsRun;
      var w := Seat(cfg, c, k - 1);
      Extend(cfg, run, events, before, Arrive(w.target, w.class_), sys);
      run, events := run + [sys], events + [Arrive(w.target, w.class_)];
    }
  }

  // ----- the full house: h comes and goes, b waits

  ghost predicate Stuck(cfg: Config, c: Class, sys: System, h: nat, b: Waiter) {
    && Inv(cfg, sys) && sys.ctl.active == cfg.global && TotalQueued(sys.ctl) == 1
    && b.class_ == c && (forall v :: Waits(sys.ctl, v) <==> v == b)
    && h in sys.all && h in sys.phase && sys.phase[h] == Waiting && h in sys.ctl.held
    && sys.all[h].id == h && sys.all[h].class_ == Rotating(cfg, c)
    && Obstructed(cfg, sys.ctl.byTarget, sys.ctl.byClass, b, sys.all[h].target)
    && cfg.global <= |sys.log| && Skipped(sys.log, c, cfg.global, |sys.log|)
  }

  lemma FullHouse(cfg: Config, c: Class, sys: System) returns (sys': System, h: nat, b: Waiter)
    requires !Trivial(cfg) && Seated(cfg, c, sys, cfg.global)
    ensures Next(cfg, sys, Arrive(b.target, b.class_), sys') && Stuck(cfg, c, sys', h, b) && |sys'.log| == cfg.global
  {
    hide Inv, Next, Dispatched, TotalQueued, Waits, Shaped;
    h := cfg.global - 1;
    b := Waiter(sys.nextId, Name(0), c);
    Arrival(cfg, sys, b);
    FullSlots(cfg, Joined(sys, b));
    sys' := Joined(sys, b);
    SeatCounts(cfg, c, cfg.global);
    assert |Name(cfg.global)| == cfg.global && |Name(0)| == 0;
  }

  lemma Comes(cfg: Config, c: Class, sys: System, h: nat, b: Waiter) returns (sys': System, m: Waiter)
    requires !Trivial(cfg) && Stuck(cfg, c, sys, h, b)
    ensures m == Waiter(sys.nextId, sys.all[h].target, sys.all[h].class_) && sys' == Joined(sys, m) && m.id != h
    ensures Next(cfg, sys, Arrive(m.target, m.class_), sys') && Inv(cfg, sys') && TotalQueued(sys'.ctl) == 2
    ensures forall v :: Waits(sys'.ctl, v) <==> v == b || v == m
  {
    hide Inv, Next, Dispatched, TotalQueued, Waits, Shaped, Obstructed, Skipped;
    m := Waiter(sys.nextId, sys.all[h].target, sys.all[h].class_);
    Arrival(cfg, sys, m);
    KeysAgree(cfg, sys);
    FullSlots(cfg, Joined(sys, m));
    sys' := Joined(sys, m);
  }

  /** The slot of h is free again. */
  lemma SlotBack(cfg: Config, sys: System, h: nat)
    requires Inv(cfg, sys) && h in sys.all && h in sys.phase && sys.phase[h] == Admitted
    ensures var w := sys.all[h]; var s := GivenBack(sys, w).ctl;
            && Shaped(s) && TotalQueued(s) == TotalQueued(sys.ctl) && (forall v :: Waits(s, v) <==> Waits(sys.ctl, v))
            && s.active == sys.ctl.active - 1
            && s.byTarget == sys.ctl.byTarget[w.target := At(sys.ctl.byTarget, w.target) - 1]
            && s.byClass == sys.ctl.byClass[w.class_ := At(sys.ctl.byClass, w.class_) - 1]
            && At(sys.ctl.byTarget, w.target) <= cfg.perTarget
  {
    hide AtRest, Faithful, Fifo, Counted, TotalQueued;
    AdmittedIsReady(cfg, sys, h);
    GivenBackMidway(cfg, sys, h);
    HeldWhileOut(sys, h);
    ReturnKeeps(cfg, sys.ctl, sys.all[h], sys.all);
  }

  lemma SkippedAgain(log: seq<Decision>, log': seq<Decision>, c: Class, i: nat, s: State, b: Waiter, m: Waiter)
    requires i <= |log| && Skipped(log, c, i, |log|) && Waits(s, b) && b.class_ == c && m.class_ != c
    requires |log'| == |log| + 1 && log' == log + [Decision(s, m, log'[|log|].after)]
    ensures Skipped(log', c, i, |log'|)
  {
    hide Waits;
    assert log'[|log|] == Decision(s, m, log'[|log|].after);
    forall k | i <= k < |log'| ensures log'[k].granted.class_ != c && Backlogged(log'[k].before, c) {
      if k < |log| { assert log'[k] == log[k]; }
    }
  }

  /** The slot comes back while b and m wait: m gets it, and everything is as before. */
  lemma GoesTo(cfg: Config, c: Class, sys: System, h: nat, b: Waiter, m: Waiter) returns (sys': System)
    requires !Trivial(cfg) && !Unhindered(cfg, c) && Inv(cfg, sys) && sys.ctl.active == cfg.global
    requires TotalQueued(sys.ctl) == 2 && b.class_ == c && (forall v :: Waits(sys.ctl, v) <==> v == b || v == m)
    requires h in sys.all && h in sys.phase && sys.phase[h] == Admitted && sys.all[h].id == h != m.id
    requires m.id in sys.all && sys.all[m.id] == m && m.id in sys.phase && sys.phase[m.id] == Waiting
    requires m.target == sys.all[h].target && m.class_ == sys.all[h].class_ == Rotating(cfg, c)
    requires Obstructed(cfg, sys.ctl.byTarget, sys.ctl.byClass, b, m.target)
    requires cfg.global <= |sys.log| && Skipped(sys.log, c, cfg.global, |sys.log|)
    ensures Next(cfg, sys, Release(h), sys') && Stuck(cfg, c, sys', m.id, b) && |sys'.log| == |sys.log| + 1
  {
    hide Inv, Next, Dispatched, TotalQueued, Waits, Shaped, CanRun, Skipped, Trivial, Unhindered;
    SlotBack(cfg, sys, h);
    var given := GivenBack(sys, sys.all[h]);
    RotatingFacts(cfg, c);
    OnlyNewcomerRuns(cfg, given.ctl, b, m);
    Dispatches(cfg, given, m);
    ReleaseIs(cfg, sys, h);
    sys' := Dispatched(cfg, given);
    NextInv(cfg, sys, Release(h), sys');
    SkippedAgain(sys.log, sys'.log, c, cfg.global, given.ctl, b, m);
  }

  /** Those that come and go are of another class, and never batch callers. */
  lemma RotatingFacts(cfg: Config, c: Class)
    ensures Rotating(cfg, c) != Batch
    ensures !Unhindered(cfg, c) ==> Rotating(cfg, c) != c
  { }

  /** Everybody else comes and goes while b waits. */
  lemma Cycle(cfg: Config, c: Class, sys: System, h: nat, b: Waiter) returns (s1: System, s2: System, s3: System, m: Waiter)
    requires !Trivial(cfg) && !Unhindered(cfg, c) && Stuck(cfg, c, sys, h, b)
    ensures Next(cfg, sys, Arrive(m.target, m.class_), s1) && Next(cfg, s1, TakePermit(h), s2) && Next(cfg, s2, Release(h), s3)
    ensures Stuck(cfg, c, s3, m.id, b) && |s3.log| == |sys.log| + 1
  {
    hide Inv, Dispatched, TotalQueued, Waits, Obstructed, Skipped, Trivial, Unhindered;
    s1, m := Comes(cfg, c, sys, h, b);
    HeldIsReady(cfg, sys, h);
    s2 := s1.(phase := s1.phase[h := Admitted]);
    NextInv(cfg, s1, TakePermit(h), s2);
    s3 := GoesTo(cfg, c, s2, h, b, m);
  }

  lemma HeldIsReady(cfg: Config, sys: System, h: nat)
    requires Inv(cfg, sys) && h in sys.ctl.held
    ensures h in sys.ctl.ready
  {
    hide AtRest, Counted, Capped, Faithful, Fifo;
  }

  /** Without the condition there is, for every n, a run in which a backlogged class is passed over n times in a row. */
  lemma {:induction false} Starves(cfg: Config, c: Class, n: nat)
    returns (run: seq<System>, events: seq<Event>, sys: System, h: nat, b: Waiter)
    requires !Trivial(cfg) && !Unhindered(cfg, c)
    ensures RunTo(cfg, run, events, sys) && Stuck(cfg, c, sys, h, b) && |sys.log| == cfg.global + n
  {
    hide Stuck, RunTo, Next, Seated, Trivial, Unhindered;
    if n == 0 {
      var full;
      run, events, full := Fill(cfg, c, cfg.global);
      sys, h, b := FullHouse(cfg, c, full);
      Extend(cfg, run, events, full, Arrive(b.target, b.class_), sys);
      run, events := run + [sys], events + [Arrive(b.target, b.class_)];
    } else {
      var before, k;
      run, events, before, k, b := Starves(cfg, c, n - 1);
      var s1, s2, s3, m := Cycle(cfg, c, before, k, b);
      var arrives := Arrive(m.target, m.class_);
      Extend(cfg, run, events, before, arrives, s1);
      Extend(cfg, run + [s1], events + [arrives], s1, TakePermit(k), s2);
      Extend(cfg, run + [s1] + [s2], events + [arrives] + [TakePermit(k)], s2, Release(k), s3);
      run, events := run + [s1] + [s2] + [s3], events + [arrives] + [TakePermit(k)] + [Release(k)];
      sys, h := s3, m.id;
    }
  }

  lemma ConditionNeeded(cfg: Config, c: Class, bound: nat)
    requires !Trivial(cfg) && !Unhindered(cfg, c)
    ensures !ServedWithin(cfg, c, bound)
  {
    hide Trivial, Unhindered, Skipped, Inv, Obstructed, Next, Init;
    var run, events, sys, h, b := Starves(cfg, c, bound + 1);
    hide IsRun;
    assert IsRun(cfg, run, events) && |run| > 0;
    assert Skipped(run[|run| - 1].log, c, cfg.global, cfg.global + bound + 1);
  }

  /** A continuously backlogged class is served within a bounded number of admissions, in all runs, if and only if the
      configuration lets nobody pass anybody, or leaves nothing that can hold the class back. */
  lemma ServedIffUnhindered(cfg: Config, c: Class)
    ensures (exists bound :: ServedWithin(cfg, c, bound)) <==> Trivial(cfg) || Unhindered(cfg, c)
  {
    hide ServedWithin, Trivial, Unhindered;
    if Trivial(cfg) || Unhindered(cfg, c) {
      ConditionSuffices(cfg, c);
    } else {
      forall bound ensures !ServedWithin(cfg, c, bound) { ConditionNeeded(cfg, c, bound); }
    }
  }
}
