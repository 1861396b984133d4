/** Whole runs of the admission controller: safety, the dispatch fixed point, bounded bypass and FIFO order. */
module AdmissionRuns {
  import opened Common
  import opened Admission
  import opened AdmissionState

  /** One grant decision: the state it was taken in, the waiter granted, the state it left. */
  datatype Decision = Decision(before: State, granted: Waiter, after: State)

  /** dispatchLocked: decide until the global cap is reached or nobody can be granted. */
  function Dispatch(cfg: Config, s: State, log: seq<Decision>): (State, seq<Decision>)
    decreases cfg.global - s.active
  {
    if s.active >= cfg.global then (s, log) else
      var (t, g) := Scan(cfg, s, 0);
      if g.None? then (t, log) else Dispatch(cfg, t, log + [Decision(s, g.value, t)])
  }

  // ----- the history of grants

  ghost predicate Rivals(v: Waiter, w: Waiter) { v.class_ == w.class_ && v.target == w.target }

  /** The state in which a decision is taken. */
  ghost predicate Deciding(cfg: Config, s: State) {
    s.active < cfg.global && Shaped(s) && Counted(s) && TotalQueued(s) <= cfg.maxQueued
  }

  /** Every decision was one, and the round robin was left alone in between. */
  ghost predicate Faithful(cfg: Config, s: State, log: seq<Decision>) {
    && (forall k :: 0 <= k < |log| ==> Deciding(cfg, log[k].before)
                                       && Granted(cfg, log[k].before, log[k].after, log[k].granted))
    && (forall k :: 0 < k < |log| ==> log[k].before.next == log[k - 1].after.next)
    && (log != [] ==> s.next == log[|log| - 1].after.next)
  }

  /** The waiters whose ready channel was closed are those of the log, each once. */
  ghost predicate Recorded(ready: set<nat>, all: map<nat, Waiter>, log: seq<Decision>) {
    && (forall id :: id in ready <==> exists k :: 0 <= k < |log| && log[k].granted.id == id)
    && (forall k :: 0 <= k < |log| ==> log[k].granted.id in all && all[log[k].granted.id] == log[k].granted)
    && (forall j, k :: 0 <= j < k < |log| ==> log[j].granted.id != log[k].granted.id)
  }

  /** Rivals were granted in arrival order, and before all rivals that still wait. */
  ghost predicate InOrder(s: State, log: seq<Decision>) {
    && (forall j, k :: 0 <= j < k < |log| && Rivals(log[j].granted, log[k].granted) ==> log[j].granted.id < log[k].granted.id)
    && (forall k, v :: 0 <= k < |log| && Waits(s, v) && Rivals(log[k].granted, v) ==> log[k].granted.id < v.id)
  }

  /** What was granted before a decision is what the log lists before it. */
  ghost predicate Layered(log: seq<Decision>) {
    forall k, id :: 0 <= k < |log| ==> (id in log[k].before.ready <==> exists j :: 0 <= j < k && log[j].granted.id == id)
  }

  /** An earlier rival of a granted waiter had been canceled or granted by then. */
  ghost predicate NoneSkipped(all: map<nat, Waiter>, log: seq<Decision>) {
    forall k, id :: 0 <= k < |log| && id in all && id < log[k].granted.id && Rivals(all[id], log[k].granted)
                    ==> id in log[k].before.canceled || id in log[k].before.ready
  }

  ghost predicate Fifo(s: State, all: map<nat, Waiter>, log: seq<Decision>) {
    Recorded(s.ready, all, log) && Layered(log) && InOrder(s, log) && NoneSkipped(all, log)
  }

  lemma LogGrant(cfg: Config, s: State, t: State, w: Waiter, log: seq<Decision>)
    requires Faithful(cfg, s, log) && Deciding(cfg, s) && Granted(cfg, s, t, w)
    ensures Faithful(cfg, t, log + [Decision(s, w, t)])
  {
    hide Granted, Deciding;
    var log' := log + [Decision(s, w, t)];
    forall k | 0 < k < |log'| ensures log'[k].before.next == log'[k - 1].after.next { }
  }

  lemma RecordGrant(ready: set<nat>, d: Decision, all: map<nat, Waiter>, log: seq<Decision>)
    requires Recorded(ready, all, log) && d.granted.id !in ready && d.granted.id in all && all[d.granted.id] == d.granted
    ensures Recorded(ready + {d.granted.id}, all, log + [d])
  {
    var log' := log + [d];
    forall id ensures id in ready + {d.granted.id} <==> exists k :: 0 <= k < |log'| && log'[k].granted.id == id {
      if id in ready {
        var k :| 0 <= k < |log| && log[k].granted.id == id;
        assert log'[k] == log[k];
      }
      assert log'[|log|] == d;
    }
    forall k | 0 <= k < |log| ensures log[k].granted.id != d.granted.id {
      assert log[k].granted.id in ready;
    }
  }

  lemma LayerGrant(s: State, t: State, w: Waiter, all: map<nat, Waiter>, log: seq<Decision>)
    requires Recorded(s.ready, all, log) && Layered(log)
    ensures Layered(log + [Decision(s, w, t)])
  {
    var log' := log + [Decision(s, w, t)];
    forall k, id | 0 <= k < |log'|
      ensures id in log'[k].before.ready <==> exists j :: 0 <= j < k && log'[j].granted.id == id
    {
      if j :| 0 <= j < k && log[j].granted.id == id { assert log'[j] == log[j]; }
      if j :| 0 <= j < k && log'[j].granted.id == id { assert log'[j] == log[j]; }
    }
  }

  lemma OrderGrant(s: State, t: State, w: Waiter, log: seq<Decision>)
    requires InOrder(s, log) && Taken(s, t, w) && OldestOfTarget(s, w)
    requires forall v :: Waits(s, v) && v.id == w.id ==> v == w
    ensures InOrder(t, log + [Decision(s, w, t)])
  {
    var log' := log + [Decision(s, w, t)];
    forall k, v | 0 <= k < |log'| && Waits(t, v) && Rivals(log'[k].granted, v) ensures log'[k].granted.id < v.id {
      assert Waits(s, v);
    }
  }

  lemma SkipGrant(s: State, t: State, w: Waiter, all: map<nat, Waiter>, log: seq<Decision>)
    requires Accounted(s, all) && NoneSkipped(all, log) && OldestOfTarget(s, w)
    ensures NoneSkipped(all, log + [Decision(s, w, t)])
  {
    forall id | id in all && id < w.id && Rivals(all[id], w) ensures id in s.canceled || id in s.ready {
      assert !Waits(s, all[id]);
    }
  }

  lemma FifoGrant(cfg: Config, s: State, t: State, w: Waiter, all: map<nat, Waiter>, log: seq<Decision>)
    requires Consistent(cfg, s, all) && Fifo(s, all, log) && Granted(cfg, s, t, w)
    ensures Fifo(t, all, log + [Decision(s, w, t)])
  {
    assert w in Queue(s.queues, w.class_);
    RecordGrant(s.ready, Decision(s, w, t), all, log);
    LayerGrant(s, t, w, all, log);
    OrderGrant(s, t, w, log);
    SkipGrant(s, t, w, all, log);
  }

  // ----- dispatching

  ghost predicate Sound(cfg: Config, s: State, all: map<nat, Waiter>, log: seq<Decision>) {
    Consistent(cfg, s, all) && TotalQueued(s) <= cfg.maxQueued && Faithful(cfg, s, log) && Fifo(s, all, log)
  }

  /** The state at every unlock: the cap is reached, or no class has anyone who could be granted. */
  ghost predicate AtRest(cfg: Config, s: State) {
    s.active == cfg.global || forall c: Class :: !Runnable(cfg, s, c)
  }

  lemma SameWaitingReflexive(s: State)
    requires Shaped(s)
    ensures SameWaiting(s, s)
  { }

  lemma {:induction false} DispatchSound(cfg: Config, s: State, all: map<nat, Waiter>, log: seq<Decision>)
    requires Sound(cfg, s, all, log)
    ensures Sound(cfg, Dispatch(cfg, s, log).0, all, Dispatch(cfg, s, log).1)
    ensures AtRest(cfg, Dispatch(cfg, s, log).0)
    ensures Extends(s, log, Dispatch(cfg, s, log).0, Dispatch(cfg, s, log).1)
    decreases cfg.global - s.active
  {
    hide Granted, Faithful, Fifo, Counted, Accounted, SameWaiting, Scan;
    if s.active < cfg.global {
      SameWaitingReflexive(s);
      ScanDecides(cfg, s, s, 0);
      var (t, g) := Scan(cfg, s, 0);
      if g.Some? {
        GrantSound(cfg, s, t, g.value, all, log);
        DispatchSound(cfg, t, all, log + [Decision(s, g.value, t)]);
      } else {
        RestSound(cfg, s, t, all, log);
      }
    }
  }

  /** Dispatching only adds grants. */
  ghost predicate Extends(s: State, log: seq<Decision>, t: State, log': seq<Decision>) {
    log <= log' && t.canceled == s.canceled && s.ready <= t.ready && t.held.Keys == s.held.Keys + (t.ready - s.ready)
  }

  lemma GrantSound(cfg: Config, s: State, t: State, w: Waiter, all: map<nat, Waiter>, log: seq<Decision>)
    requires Sound(cfg, s, all, log) && s.active < cfg.global && Granted(cfg, s, t, w)
    ensures Sound(cfg, t, all, log + [Decision(s, w, t)])
    ensures Extends(s, log, t, log + [Decision(s, w, t)])
  {
    hide Faithful, Fifo, Counted, Capped, OldestOfTarget, ClosesIn;
    assert w in Queue(s.queues, w.class_);
    GrantKeeps(cfg, s, t, w, all);
    LogGrant(cfg, s, t, w, log);
    FifoGrant(cfg, s, t, w, all, log);
  }

  lemma RestSound(cfg: Config, s: State, t: State, all: map<nat, Waiter>, log: seq<Decision>)
    requires Sound(cfg, s, all, log) && SameWaiting(s, t) && forall c: Class :: !Runnable(cfg, s, c)
    ensures Sound(cfg, t, all, log) && AtRest(cfg, t) && Extends(s, log, t, log)
  {
    DropKeeps(cfg, s, t, all);
    SameRunnable(cfg, s, t);
  }

  /** The fixed point in the terms of the configuration: below the global cap, whoever waits is stopped by its
      target's cap or by its class's own cap, never by capacity kept free for metadata or interactive work. */
  lemma RestMeansCapped(cfg: Config, s: State, w: Waiter)
    requires Shaped(s) && AtRest(cfg, s) && s.active < cfg.global && Waits(s, w)
    ensures At(s.byTarget, w.target) >= cfg.perTarget
            || (w.class_ == Batch && At(s.byClass, Batch) >= cfg.batchMax)
            || (w.class_ == Maintenance && At(s.byClass, Maintenance) >= cfg.maintenanceMax)
  {
    MetadataNeverReserved(cfg, s);
    InteractiveNeverReserved(cfg, s);
    assert !Runnable(cfg, s, w.class_);
  }

  lemma MetadataNeverReserved(cfg: Config, s: State)
    requires Shaped(s)
    ensures HasRunnable(cfg, s, Metadata) ==> Runnable(cfg, s, Metadata)
  {
    RunnableByMembers(cfg, s, Metadata);
    if v :| Waits(s, v) && v.class_ == Metadata && At(s.byTarget, v.target) < cfg.perTarget {
      assert CanRun(cfg, s, v);
    }
  }

  lemma InteractiveNeverReserved(cfg: Config, s: State)
    requires Shaped(s) && !HasRunnable(cfg, s, Metadata)
    ensures HasRunnable(cfg, s, Interactive) ==> Runnable(cfg, s, Interactive)
  {
    RunnableByMembers(cfg, s, Interactive);
    if v :| Waits(s, v) && v.class_ == Interactive && At(s.byTarget, v.target) < cfg.perTarget {
      assert CanRun(cfg, s, v);
    }
  }

  // ----- callers and runs

  /** Where an Acquire call stands: in its select, past it by timeout or cancellation, past it with a permit, over. */
  datatype Phase = Waiting | Leaving | Admitted | Done

  datatype System = System(ctl: State, log: seq<Decision>, all: map<nat, Waiter>, phase: map<nat, Phase>, nextId: nat, returned: set<nat>)

  /** Each event is one critical section or one local step of one caller. */
  datatype Event = Arrive(target: string, class_: Class) | TakePermit(id: nat) | GiveUp(id: nat) | Cancel(id: nat) | Release(id: nat)

  ghost predicate Init(sys: System) {
    && sys.ctl == State(0, map[], map[], map[Metadata := [], Interactive := [], Batch := [], Maintenance := []], 0, {}, {}, map[])
    && sys == System(sys.ctl, [], map[], map[], 0, {})
  }

  function Dispatched(cfg: Config, sys: System): System {
    var (t, log) := Dispatch(cfg, sys.ctl, sys.log);
    sys.(ctl := t, log := log)
  }

  function Joined(sys: System, w: Waiter): System {
    System(Enqueued(sys.ctl, w), sys.log, sys.all[w.id := w], sys.phase[w.id := Waiting], w.id + 1, sys.returned)
  }

  /** The caller's grant goes back. */
  function GivenBack(sys: System, w: Waiter): System {
    sys.(ctl := Returned(sys.ctl, w), phase := sys.phase[w.id := Done], returned := sys.returned + {w.id})
  }

  function Withdrawn(sys: System, w: Waiter): System {
    sys.(ctl := Canceled(sys.ctl, w), phase := sys.phase[w.id := Done])
  }

  ghost predicate Next(cfg: Config, sys: System, e: Event, sys': System) {
    match e
    case Arrive(target, class_) =>
      sys' == if TotalQueued(sys.ctl) >= cfg.maxQueued then sys
              else Dispatched(cfg, Joined(sys, Waiter(sys.nextId, target, class_)))
    case TakePermit(id) =>
      id in sys.all && id in sys.phase && sys.phase[id] == Waiting && id in sys.ctl.ready
      && sys' == sys.(phase := sys.phase[id := Admitted])
    case GiveUp(id) =>
      id in sys.all && id in sys.phase && sys.phase[id] == Waiting && sys' == sys.(phase := sys.phase[id := Leaving])
    case Cancel(id) =>
      id in sys.all && id in sys.phase && sys.phase[id] == Leaving
      && sys' == Dispatched(cfg, if id in sys.ctl.ready then GivenBack(sys, sys.all[id]) else Withdrawn(sys, sys.all[id]))
    case Release(id) =>
      id in sys.all && id in sys.phase && sys.phase[id] in {Admitted, Done}
      && sys' == if sys.phase[id] == Admitted then Dispatched(cfg, GivenBack(sys, sys.all[id])) else sys
  }

  /** A caller holds a grant exactly from the closing of its channel to its one return. */
  ghost predicate CallersAgree(sys: System) {
    && sys.phase.Keys == sys.all.Keys
    && (forall id :: id in sys.all ==> id < sys.nextId)
    && sys.returned == sys.ctl.ready - sys.ctl.held.Keys
    && (forall id :: id in sys.all ==>
          match sys.phase[id]
          case Admitted => id in sys.ctl.held
          case Done => id !in sys.ctl.held && (id in sys.ctl.canceled || id in sys.returned)
          case _ => id !in sys.ctl.canceled && id !in sys.returned)
  }

  ghost predicate Inv(cfg: Config, sys: System) {
    Sound(cfg, sys.ctl, sys.all, sys.log) && AtRest(cfg, sys.ctl) && CallersAgree(sys)
  }

  lemma InitInv(cfg: Config, sys: System)
    requires Init(sys)
    ensures Inv(cfg, sys)
  {
    assert forall c: Class :: Queue(sys.ctl.queues, c) == [];
    forall t ensures HeldOn(sys.ctl.held, t) == {} { }
    forall c ensures HeldIn(sys.ctl.held, c) == {} { }
  }

  /** Between the change a critical section makes and its dispatch, everything but the fixed point holds. */
  ghost predicate Midway(cfg: Config, sys: System) {
    Sound(cfg, sys.ctl, sys.all, sys.log) && CallersAgree(sys)
  }

  lemma DispatchedInv(cfg: Config, sys: System)
    requires Midway(cfg, sys)
    ensures Inv(cfg, Dispatched(cfg, sys)) && Dispatched(cfg, sys).returned == sys.returned
  {
    DispatchSound(cfg, sys.ctl, sys.all, sys.log);
    DispatchAgrees(sys, Dispatched(cfg, sys));
  }

  lemma DispatchAgrees(sys: System, sys': System)
    requires CallersAgree(sys) && Accounted(sys.ctl, sys.all) && Accounted(sys'.ctl, sys'.all)
    requires sys' == sys.(ctl := sys'.ctl, log := sys'.log) && Extends(sys.ctl, sys.log, sys'.ctl, sys'.log)
    ensures CallersAgree(sys')
  { }

  lemma JoinedMidway(cfg: Config, sys: System, w: Waiter)
    requires Inv(cfg, sys) && w.id == sys.nextId && TotalQueued(sys.ctl) < cfg.maxQueued
    ensures Midway(cfg, Joined(sys, w))
  {
    hide AtRest, Dispatch, Counted, Capped, Faithful, Fifo;
    EnqueueKeeps(cfg, sys.ctl, w, sys.all);
    EnqueueMembers(sys.ctl, w);
    EnqueueFifo(sys.ctl, w, sys.all, sys.log);
    JoinedAgrees(sys, w);
    SameHistory(cfg, sys.ctl, Enqueued(sys.ctl, w), sys.log);
  }

  lemma JoinedAgrees(sys: System, w: Waiter)
    requires CallersAgree(sys) && Accounted(sys.ctl, sys.all) && w.id == sys.nextId
    ensures CallersAgree(Joined(sys, w))
  { }

  lemma GivenBackMidway(cfg: Config, sys: System, id: nat)
    requires Inv(cfg, sys) && id in sys.all && id in sys.ctl.ready && sys.phase[id] != Done
    ensures Midway(cfg, GivenBack(sys, sys.all[id])) && id in sys.ctl.held && id !in sys.returned
  {
    hide AtRest, Dispatch, Counted, Capped, Faithful, Fifo, Shaped, CallersAgree;
    var w := sys.all[id];
    HeldWhileOut(sys, id);
    ReturnKeeps(cfg, sys.ctl, w, sys.all);
    QuietFifo(sys.ctl, Returned(sys.ctl, w), sys.all, sys.log);
    GivenBackAgrees(sys, id);
    SameHistory(cfg, sys.ctl, Returned(sys.ctl, w), sys.log);
  }

  lemma HeldWhileOut(sys: System, id: nat)
    requires CallersAgree(sys) && Accounted(sys.ctl, sys.all) && id in sys.all && id in sys.ctl.ready && sys.phase[id] != Done
    ensures id in sys.ctl.held && sys.ctl.held[id] == sys.all[id] && id !in sys.returned
  { }

  lemma SameHistory(cfg: Config, s: State, t: State, log: seq<Decision>)
    requires Faithful(cfg, s, log) && t.next == s.next
    ensures Faithful(cfg, t, log)
  { }

  lemma GivenBackAgrees(sys: System, id: nat)
    requires CallersAgree(sys) && Accounted(sys.ctl, sys.all) && id in sys.ctl.held
    ensures CallersAgree(GivenBack(sys, sys.all[id]))
  { }

  lemma WithdrawnMidway(cfg: Config, sys: System, id: nat)
    requires Inv(cfg, sys) && id in sys.all && id !in sys.ctl.ready && sys.phase[id] == Leaving
    ensures Midway(cfg, Withdrawn(sys, sys.all[id]))
  {
    hide AtRest, Dispatch, Counted, Capped, Faithful, Fifo, Shaped, CallersAgree;
    CancelKeeps(cfg, sys.ctl, sys.all[id], sys.all);
    QuietFifo(sys.ctl, Canceled(sys.ctl, sys.all[id]), sys.all, sys.log);
    SameHistory(cfg, sys.ctl, Canceled(sys.ctl, sys.all[id]), sys.log);
    WithdrawnAgrees(sys, id);
  }

  lemma WithdrawnAgrees(sys: System, id: nat)
    requires CallersAgree(sys) && Accounted(sys.ctl, sys.all) && id in sys.all && id !in sys.ctl.ready
    ensures CallersAgree(Withdrawn(sys, sys.all[id]))
  { }

  /** Steps that only take waiters out keep the history in order. */
  lemma QuietFifo(s: State, t: State, all: map<nat, Waiter>, log: seq<Decision>)
    requires Fifo(s, all, log) && t.ready == s.ready && t.queues == s.queues && s.canceled <= t.canceled
    ensures Fifo(t, all, log)
  {
    forall v | Waits(t, v) ensures Waits(s, v) { }
  }

  /** Every step of every caller keeps the invariant; a grant goes back only while it is held, and then counts as returned. */
  lemma NextInv(cfg: Config, sys: System, e: Event, sys': System)
    requires Inv(cfg, sys) && Next(cfg, sys, e, sys')
    ensures Inv(cfg, sys')
    ensures sys.returned <= sys'.returned && sys'.returned - sys.returned <= sys.ctl.held.Keys
  {
    hide Sound, AtRest, Dispatched;
    match e
    case Arrive(target, class_) =>
      if TotalQueued(sys.ctl) < cfg.maxQueued {
        var w := Waiter(sys.nextId, target, class_);
        JoinedMidway(cfg, sys, w);
        DispatchedInv(cfg, Joined(sys, w));
      }
    case TakePermit(id) =>
      TakeAgrees(cfg, sys, id);
    case GiveUp(id) =>
      assert CallersAgree(sys');
    case Cancel(id) =>
      if id in sys.ctl.ready {
        GivenBackMidway(cfg, sys, id);
        DispatchedInv(cfg, GivenBack(sys, sys.all[id]));
      } else {
        WithdrawnMidway(cfg, sys, id);
        DispatchedInv(cfg, Withdrawn(sys, sys.all[id]));
      }
    case Release(id) =>
      if sys.phase[id] == Admitted {
        AdmittedIsReady(cfg, sys, id);
        GivenBackMidway(cfg, sys, id);
        DispatchedInv(cfg, GivenBack(sys, sys.all[id]));
      }
  }

  lemma AdmittedIsReady(cfg: Config, sys: System, id: nat)
    requires Inv(cfg, sys) && id in sys.all && sys.phase[id] == Admitted
    ensures id in sys.ctl.ready
  {
    hide AtRest, Counted, Capped, Faithful, Fifo, Shaped;
  }

  lemma TakeAgrees(cfg: Config, sys: System, id: nat)
    requires Inv(cfg, sys) && id in sys.all && sys.phase[id] == Waiting && id in sys.ctl.ready
    ensures CallersAgree(sys.(phase := sys.phase[id := Admitted]))
  {
    hide AtRest, Counted, Capped, Faithful, Fifo, Shaped;
    HeldWhileOut(sys, id);
  }

  // ----- whole runs

  ghost predicate IsRun(cfg: Config, run: seq<System>, events: seq<Event>) {
    && |run| == |events| + 1 && Init(run[0])
    && forall i :: 0 <= i < |events| ==> Next(cfg, run[i], events[i], run[i + 1])
  }

  lemma {:induction false} RunInv(cfg: Config, run: seq<System>, events: seq<Event>, i: nat)
    requires IsRun(cfg, run, events) && i < |run|
    ensures Inv(cfg, run[i])
  {
    hide Inv, Next, Init;
    if i == 0 {
      InitInv(cfg, run[0]);
    } else {
      RunInv(cfg, run, events, i - 1);
      NextInv(cfg, run[i - 1], events[i - 1], run[i]);
    }
  }

  lemma EnqueueFifo(s: State, w: Waiter, all: map<nat, Waiter>, log: seq<Decision>)
    requires Fifo(s, all, log) && forall id :: id in all ==> id < w.id
    requires forall c: Class, v :: v in Queue(Enqueued(s, w).queues, c) ==> v in Queue(s.queues, c) || v == w
    ensures Fifo(Enqueued(s, w), all[w.id := w], log)
  {
    forall k, v | 0 <= k < |log| && Waits(Enqueued(s, w), v) && Rivals(log[k].granted, v) ensures log[k].granted.id < v.id {
      if v != w { assert Waits(s, v); }
    }
  }

  /** Safety, at every point of every run: the counters, the caps and the queue bound hold, and a grant is out
      exactly for the callers whose channel was closed and who have not given it back. */
  lemma Safety(cfg: Config, run: seq<System>, events: seq<Event>, i: nat)
    requires IsRun(cfg, run, events) && i < |run|
    ensures var sys := run[i]; var s := sys.ctl;
            && s.active == |s.held| && s.held.Keys == s.ready - sys.returned
            && s.active == Total(s.byTarget)
            && s.active == At(s.byClass, Metadata) + At(s.byClass, Interactive) + At(s.byClass, Batch) + At(s.byClass, Maintenance)
            && Capped(cfg, s) && TotalQueued(s) <= cfg.maxQueued
            && forall id :: id in s.held ==> id in sys.phase && sys.phase[id] != Done
  {
    hide IsRun, Capped, Faithful, Fifo, AtRest, Shaped;
    RunInv(cfg, run, events, i);
    ActiveIsSum(cfg, run[i].ctl, run[i].all);
  }

  /** The dispatch fixed point, at every point of every run. */
  lemma NothingLeftToDispatch(cfg: Config, run: seq<System>, events: seq<Event>, i: nat, w: Waiter)
    requires IsRun(cfg, run, events) && i < |run| && run[i].ctl.active < cfg.global && Waits(run[i].ctl, w)
    ensures var s := run[i].ctl;
            At(s.byTarget, w.target) >= cfg.perTarget
            || (w.class_ == Batch && At(s.byClass, Batch) >= cfg.batchMax)
            || (w.class_ == Maintenance && At(s.byClass, Maintenance) >= cfg.maintenanceMax)
  {
    hide IsRun, Capped, Faithful, Fifo, AtRest, Counted, Accounted;
    RunInv(cfg, run, events, i);
    RestMeansCapped(cfg, run[i].ctl, w);
  }

  /** Decisions i..j of the history pass over class c although it could have been served each time. */
  ghost predicate Bypassed(cfg: Config, log: seq<Decision>, c: Class, i: nat, j: nat)
    requires i <= j <= |log|
  {
    forall k :: i <= k < j ==> log[k].granted.class_ != c && Runnable(cfg, log[k].before, c)
  }

  lemma {:induction false} BypassShortens(cfg: Config, s: State, log: seq<Decision>, c: Class, i: nat, j: nat)
    requires Faithful(cfg, s, log) && i < j <= |log| && Bypassed(cfg, log, c, i, j)
    ensures j - i + Distance(log[j - 1].after.next, c) <= Distance(log[i].before.next, c)
    decreases j
  {
    hide Distance, Runnable, CanRun, Taken, OldestOfTarget, First, Deciding;
    assert Granted(cfg, log[j - 1].before, log[j - 1].after, log[j - 1].granted);
    if j - 1 > i {
      BypassShortens(cfg, s, log, c, i, j - 1);
      assert log[j - 1].before.next == log[j - 2].after.next;
    }
  }

  /** Bounded bypass, over every run and every window of its grants: a class that could be served at each decision
      is passed over at most 3 times (metadata, interactive) or 5 times (batch, maintenance). */
  lemma BoundedBypass(cfg: Config, run: seq<System>, events: seq<Event>, n: nat, c: Class, i: nat, j: nat)
    requires IsRun(cfg, run, events) && n < |run| && i <= j <= |run[n].log| && Bypassed(cfg, run[n].log, c, i, j)
    ensures j - i <= if c == Metadata || c == Interactive then 3 else 5
  {
    hide IsRun, Consistent, Faithful, Fifo, AtRest, CallersAgree, Distance, Bypassed;
    RunInv(cfg, run, events, n);
    if i < j {
      BypassShortens(cfg, run[n].ctl, run[n].log, c, i, j);
      DistanceBound(run[n].log[i].before.next, c);
    }
  }

  lemma DistanceBound(next: nat, c: Class)
    ensures Distance(next, c) <= if c == Metadata || c == Interactive then 3 else 5
  { }

  lemma LoggedDecision(cfg: Config, run: seq<System>, events: seq<Event>, n: nat, k: nat)
    requires IsRun(cfg, run, events) && n < |run| && k < |run[n].log|
    ensures var d := run[n].log[k]; Deciding(cfg, d.before) && Granted(cfg, d.before, d.after, d.granted)
  {
    hide IsRun, Consistent, Fifo, AtRest, CallersAgree, Granted, Deciding;
    RunInv(cfg, run, events, n);
  }

  /** Every grant of every run went to the first of those who were admissible, and the scan goes on after its class. */
  lemma GrantsAreFirst(cfg: Config, run: seq<System>, events: seq<Event>, n: nat, k: nat)
    requires IsRun(cfg, run, events) && n < |run| && k < |run[n].log|
    ensures var d := run[n].log[k];
            && Admissible(cfg, d.before, d.granted)
            && (forall v :: Admissible(cfg, d.before, v) ==> NotBefore(d.before.next, v, d.granted))
            && d.after.next == (d.before.next + Distance(d.before.next, d.granted.class_) + 1) % 6
  {
    hide *;
    LoggedDecision(cfg, run, events, n, k);
    var d := run[n].log[k];
    GrantIsFirst(cfg, d.before, d.after, d.granted);
  }

  lemma GrantIsFirst(cfg: Config, s: State, t: State, w: Waiter)
    requires Deciding(cfg, s) && Granted(cfg, s, t, w)
    ensures Admissible(cfg, s, w) && forall v :: Admissible(cfg, s, v) ==> NotBefore(s.next, v, w)
    ensures t.next == (s.next + Distance(s.next, w.class_) + 1) % 6
  {
    hide Admissible, NotBefore, Distance, Taken, Shaped, Counted, First, CanRun, OldestOfTarget, ClosesIn, TotalQueued;
    DecisionIsFirst(cfg, s, t, Some(w));
  }

  /** At every unlock of every run, nobody who waits is admissible. */
  lemma NobodyAdmissible(cfg: Config, run: seq<System>, events: seq<Event>, n: nat, v: Waiter)
    requires IsRun(cfg, run, events) && n < |run|
    ensures !Admissible(cfg, run[n].ctl, v)
  {
    hide IsRun, Faithful, Fifo, CallersAgree, CanRun, Counted, Capped, Accounted, Shaped;
    RunInv(cfg, run, events, n);
    var s := run[n].ctl;
    if s.active < cfg.global && Waits(s, v) {
      GuardIsAdmissible(cfg, s, v);
      assert !Runnable(cfg, s, v.class_);
    }
  }

  /** FIFO, over every run: when b is granted, a rival that arrived before it was granted earlier or had been canceled. */
  lemma ArrivalOrder(cfg: Config, run: seq<System>, events: seq<Event>, n: nat, a: nat, j: nat)
    requires IsRun(cfg, run, events) && n < |run| && j < |run[n].log|
    requires a in run[n].all && a < run[n].log[j].granted.id && Rivals(run[n].all[a], run[n].log[j].granted)
    ensures a in run[n].log[j].before.canceled || exists i :: 0 <= i < j && run[n].log[i].granted.id == a
  {
    hide IsRun, Consistent, Faithful, Recorded, InOrder, AtRest, CallersAgree;
    RunInv(cfg, run, events, n);
  }

  /** A caller who finds fewer than the limit waiting is queued or granted at once, and only a full queue turns one away. */
  lemma ArrivalsAreTaken(cfg: Config, run: seq<System>, events: seq<Event>, n: nat, target: string, class_: Class)
    requires IsRun(cfg, run, events) && n < |events| && events[n] == Arrive(target, class_)
    ensures var (before, after, w) := (run[n], run[n + 1], Waiter(run[n].nextId, target, class_));
            if TotalQueued(before.ctl) >= cfg.maxQueued then after == before
            else w.id !in before.all && w.id in after.all && after.all[w.id] == w && (Waits(after.ctl, w) || w.id in after.ctl.held)
  {
    hide Consistent, Faithful, Fifo, AtRest, Dispatch;
    RunInv(cfg, run, events, n);
    RunInv(cfg, run, events, n + 1);
    assert Next(cfg, run[n], events[n], run[n + 1]);
    var w := Waiter(run[n].nextId, target, class_);
    if TotalQueued(run[n].ctl) < cfg.maxQueued {
      TakenIn(cfg, run[n + 1], w);
    }
  }

  lemma TakenIn(cfg: Config, sys: System, w: Waiter)
    requires Inv(cfg, sys) && w.id in sys.all && sys.all[w.id] == w && sys.phase[w.id] == Waiting
    ensures Waits(sys.ctl, w) || w.id in sys.ctl.held
  { }

  /** A waiter once granted is never granted again. */
  lemma GrantedOnce(cfg: Config, run: seq<System>, events: seq<Event>, n: nat, i: nat, j: nat)
    requires IsRun(cfg, run, events) && n < |run| && i < j < |run[n].log|
    ensures run[n].log[i].granted.id != run[n].log[j].granted.id
  {
    hide IsRun, Consistent, Faithful, InOrder, AtRest, CallersAgree;
    RunInv(cfg, run, events, n);
  }
}
