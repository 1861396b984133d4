/** The controller as the source writes it: fields updated under the mutex, one method per critical section. */
module AdmissionController {
  import opened Common
  import opened Admission
  import opened AdmissionState
  import opened AdmissionRuns

  class Controller {
    const cfg: Config
    var active: int
    var byTarget: map<string, int>
    var byClass: map<Class, int>
    var queues: map<Class, seq<Waiter>>
    var next: nat
    // A waiter is identified by its arrival number; its flags live in these two sets.
    var arrivals: nat
    var canceled: set<nat>
    var ready: set<nat>
    ghost var held: map<nat, Waiter>
    ghost var log: seq<Decision>

    ghost function State(): Admission.State
      reads this
    {
      Admission.State.State(active, byTarget, byClass, queues, next, canceled, ready, held)
    }

    constructor (cfg: Config)
      ensures this.cfg == cfg && arrivals == 0
      ensures Init(System(State(), log, map[], map[], arrivals, {}))
    {
      this.cfg := cfg;
      active, byTarget, byClass, next, arrivals := 0, map[], map[], 0, 0;
      queues := map[Metadata := [], Interactive := [], Batch := [], Maintenance := []];
      canceled, ready, held, log := {}, {}, map[], [];
    }

    method HasRunnableLocked(c: Class) returns (yes: bool)
      ensures yes == HasRunnable(cfg, State(), c)
    {
      var q := Queue(queues, c);
      for i := 0 to |q|
        invariant forall k :: 0 <= k < i ==> q[k].id in canceled || At(byTarget, q[k].target) >= cfg.perTarget
      {
        if q[i].id !in canceled && At(byTarget, q[i].target) < cfg.perTarget { return true; }
      }
      return false;
    }

    method CanRunLocked(w: Waiter) returns (yes: bool)
      ensures yes == CanRun(cfg, State(), w)
    {
      if At(byTarget, w.target) >= cfg.perTarget { return false; }
      if w.class_ == Batch && At(byClass, Batch) >= cfg.batchMax { return false; }
      if w.class_ == Maintenance && At(byClass, Maintenance) >= cfg.maintenanceMax { return false; }
      var metadata := HasRunnableLocked(Metadata);
      if w.class_ != Metadata && cfg.metadataReserved > 0 && metadata && active >= cfg.global - cfg.metadataReserved { return false; }
      var interactive := HasRunnableLocked(Interactive);
      if w.class_ == Maintenance && interactive && active >= cfg.global - 1 { return false; }
      return true;
    }

    method TotalQueuedLocked() returns (n: nat)
      ensures n == TotalQueued(State())
    {
      n := 0;
      var classes := [Metadata, Interactive, Batch, Maintenance];
      ghost var counted := 0;
      for k := 0 to 4
        invariant n == (if k > 0 then Live(Queue(queues, Metadata), canceled) else 0)
                       + (if k > 1 then Live(Queue(queues, Interactive), canceled) else 0)
                       + (if k > 2 then Live(Queue(queues, Batch), canceled) else 0)
                       + (if k > 3 then Live(Queue(queues, Maintenance), canceled) else 0)
      {
        var q := Queue(queues, classes[k]);
        ghost var before := n;
        for i := 0 to |q|
          invariant n == before + Live(q[..i], canceled)
        {
          assert q[..i + 1] == q[..i] + [q[i]];
          LiveAppend(q[..i], q[i], canceled);
          if q[i].id !in canceled { n := n + 1; }
        }
        assert q[..|q|] == q;
      }
    }

    /** Drop the canceled waiters at the front of a queue. */
    method DropFront(class_: Class)
      modifies this`queues
      ensures State() == Dropped(old(State()), class_)
    {
      var q := Queue(queues, class_);
      while q != [] && q[0].id in canceled
        invariant DropCanceled(q, canceled) == DropCanceled(Queue(queues, class_), canceled)
      {
        q := q[1..];
      }
      queues := queues[class_ := q];
    }

    method FirstEligible(q: seq<Waiter>) returns (candidate: int)
      ensures candidate == Candidate(cfg, State(), q, 0)
    {
      for i := 0 to |q|
        invariant Candidate(cfg, State(), q, 0) == Candidate(cfg, State(), q, i)
      {
        var can := CanRunLocked(q[i]);
        if q[i].id !in canceled && can { return i; }
      }
      return -1;
    }

    /** One round of the scan: n steps after `next`. */
    method TryClass(n: nat) returns (granted: bool)
      requires n < 6
      modifies this
      ensures granted == Round(cfg, old(State()), n).1.Some?
      ensures State() == Round(cfg, old(State()), n).0
      ensures log == old(log) && arrivals == old(arrivals)
    {
      hide HasRunnable, CanRun, DropCanceled, Candidate, Dropped, Grant, Remove;
      var idx := (next + n) % 6;
      DropFront(ORDER[idx]);
      var q := Queue(queues, ORDER[idx]);
      var candidate := FirstEligible(q);
      if candidate < 0 { return false; }
      GrantLocked(ORDER[idx], candidate, idx);
      return true;
    }

    /** Take waiter i out of its queue and close its ready channel. */
    method GrantLocked(class_: Class, i: nat, idx: nat)
      requires i < |Queue(queues, class_)|
      modifies this
      ensures var q := Queue(old(queues), class_);
              State() == Grant(old(State()), q[i], class_, Remove(q, i), (idx + 1) % 6)
      ensures log == old(log) && arrivals == old(arrivals)
    {
      var q := Queue(queues, class_);
      var w := q[i];
      queues := queues[class_ := q[..i] + q[i + 1..]];
      active := active + 1;
      byTarget := byTarget[w.target := At(byTarget, w.target) + 1];
      byClass := byClass[class_ := At(byClass, class_) + 1];
      next := (idx + 1) % 6;
      ready := ready + {w.id};
      held := held[w.id := w];
    }

    /** Grant until the global cap is reached or a whole round grants nothing. */
    method DispatchLocked()
      modifies this
      ensures (State(), log) == Dispatch(cfg, old(State()), old(log))
      ensures arrivals == old(arrivals)
    {
      hide Round, TotalQueued, HasRunnable, CanRun;
      while active < cfg.global
        invariant Dispatch(cfg, State(), log) == Dispatch(cfg, old(State()), old(log))
        invariant arrivals == old(arrivals)
        decreases cfg.global - active
      {
        var granted := false;
        ghost var before := State();
        ghost var history := log;
        var n := 0;
        while n < 6
          invariant n <= 6 && !granted && log == history && arrivals == old(arrivals)
          invariant State().active == before.active
          invariant Scan(cfg, State(), n) == Scan(cfg, before, 0)
        {
          granted := TryClass(n);
          if granted { break; }
          n := n + 1;
        }
        if !granted { return; }
        log := log + [Decision(before, Scan(cfg, before, 0).1.value, State())];
      }
    }

    /** The critical section of Acquire: refuse when the queue is full, else join it. */
    method Enqueue(target: string, class_: Class) returns (w: Option<Waiter>)
      modifies this
      ensures w.None? <==> TotalQueued(old(State())) >= cfg.maxQueued
      ensures w.None? ==> State() == old(State()) && log == old(log) && arrivals == old(arrivals)
      ensures w.Some? ==> w.value == Waiter(old(arrivals), target, class_) && arrivals == old(arrivals) + 1
                          && (State(), log) == Dispatch(cfg, Enqueued(old(State()), w.value), old(log))
    {
      var queued := TotalQueuedLocked();
      if queued >= cfg.maxQueued { return None; }
      var joiner := Waiter(arrivals, target, class_);
      arrivals := arrivals + 1;
      queues := queues[class_ := Queue(queues, class_) + [joiner]];
      assert State() == Enqueued(old(State()), joiner);
      DispatchLocked();
      return Some(joiner);
    }

    method ReleaseLocked(w: Waiter)
      modifies this
      ensures (State(), log) == Dispatch(cfg, Returned(old(State()), w), old(log))
      ensures arrivals == old(arrivals)
    {
      active := active - 1;
      byTarget := byTarget[w.target := At(byTarget, w.target) - 1];
      byClass := byClass[w.class_ := At(byClass, w.class_) - 1];
      held := held - {w.id};
      assert State() == Returned(old(State()), w);
      DispatchLocked();
    }

    /** A caller that timed out: give a grant back that raced with the timeout, else withdraw. */
    method Cancel(w: Waiter)
      modifies this
      ensures (State(), log) == if w.id in old(ready) then Dispatch(cfg, Returned(old(State()), w), old(log))
                                else Dispatch(cfg, Canceled(old(State()), w), old(log))
      ensures arrivals == old(arrivals)
    {
      if w.id in ready {
        ReleaseLocked(w);
      } else {
        canceled := canceled + {w.id};
        assert State() == Canceled(old(State()), w);
        DispatchLocked();
      }
    }
  }

  /** What a successful Acquire hands out; Release acts once. */
  class Permit {
    const c: Controller
    const w: Waiter
    var done: bool

    constructor (c: Controller, w: Waiter)
      ensures this.c == c && this.w == w && !done
    {
      this.c, this.w, done := c, w, false;
    }

    method Release()
      modifies this, c
      ensures done
      ensures (c.State(), c.log) == if old(done) then (old(c.State()), old(c.log))
                                    else Dispatch(c.cfg, Returned(old(c.State()), w), old(c.log))
    {
      if !done {
        done := true;
        c.ReleaseLocked(w);
      }
    }
  }
}
