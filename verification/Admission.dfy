/** The admission controller's scheduling decisions, as functions of its state. */
module Admission {
  import opened Common

  datatype Class = Metadata | Interactive | Batch | Maintenance

  datatype Config = Config(global: nat, perTarget: nat, maxQueued: nat, metadataReserved: nat, batchMax: nat, maintenanceMax: nat)

  /** One Acquire call; ids are handed out in arrival order. */
  datatype Waiter = Waiter(id: nat, target: string, class_: Class)

  /** The fields guarded by the mutex. A waiter's `canceled` flag and closed `ready` channel are sets of ids;
      `held` records the grants not yet returned. */
  datatype State = State(
    active: int, byTarget: map<string, int>, byClass: map<Class, int>,
    queues: map<Class, seq<Waiter>>, next: nat,
    canceled: set<nat>, ready: set<nat>, held: map<nat, Waiter>)

  const ORDER := [Metadata, Interactive, Metadata, Interactive, Batch, Maintenance]

  /** The class looked at in round n of a scan that starts at `next`. */
  function RoundClass(next: nat, n: nat): Class { ORDER[(next + n) % 6] }

  /** Reading a Go map: a missing key counts zero. */
  function At<K>(m: map<K, int>, k: K): int { if k in m then m[k] else 0 }

  /** The queue of a class, in arrival order. */
  function Queue(queues: map<Class, seq<Waiter>>, c: Class): seq<Waiter> { if c in queues then queues[c] else [] }

  predicate HasRunnable(cfg: Config, s: State, c: Class) {
    exists i :: 0 <= i < |Queue(s.queues, c)| && Queue(s.queues, c)[i].id !in s.canceled
                && At(s.byTarget, Queue(s.queues, c)[i].target) < cfg.perTarget
  }

  predicate CanRun(cfg: Config, s: State, w: Waiter) {
    && At(s.byTarget, w.target) < cfg.perTarget
    && (w.class_ == Batch ==> At(s.byClass, Batch) < cfg.batchMax)
    && (w.class_ == Maintenance ==> At(s.byClass, Maintenance) < cfg.maintenanceMax)
    && !(w.class_ != Metadata && cfg.metadataReserved > 0 && HasRunnable(cfg, s, Metadata)
         && s.active >= cfg.global - cfg.metadataReserved)
    && !(w.class_ == Maintenance && HasRunnable(cfg, s, Interactive) && s.active >= cfg.global - 1)
  }

  // ----- one grant decision

  function DropCanceled(q: seq<Waiter>, canceled: set<nat>): seq<Waiter> {
    if q != [] && q[0].id in canceled then DropCanceled(q[1..], canceled) else q
  }

  predicate Eligible(cfg: Config, s: State, w: Waiter) { w.id !in s.canceled && CanRun(cfg, s, w) }

  /** Index of the first eligible waiter at or after i, or -1. */
  function Candidate(cfg: Config, s: State, q: seq<Waiter>, i: nat): (r: int)
    requires i <= |q|
    ensures -1 <= r < |q|
    ensures r >= 0 ==> i <= r && Eligible(cfg, s, q[r]) && forall k :: i <= k < r ==> !Eligible(cfg, s, q[k])
    ensures r < 0 ==> forall k :: i <= k < |q| ==> !Eligible(cfg, s, q[k])
    decreases |q| - i
  {
    if i == |q| then -1 else if Eligible(cfg, s, q[i]) then i else Candidate(cfg, s, q, i + 1)
  }

  function Remove(q: seq<Waiter>, i: nat): seq<Waiter>
    requires i < |q|
  {
    q[..i] + q[i + 1..]
  }

  function Grant(s: State, w: Waiter, c: Class, rest: seq<Waiter>, next: nat): State {
    s.(active := s.active + 1,
       byTarget := s.byTarget[w.target := At(s.byTarget, w.target) + 1],
       byClass := s.byClass[c := At(s.byClass, c) + 1],
       queues := s.queues[c := rest],
       next := next, ready := s.ready + {w.id}, held := s.held[w.id := w])
  }

  function Dropped(s: State, c: Class): State {
    s.(queues := s.queues[c := DropCanceled(Queue(s.queues, c), s.canceled)])
  }

  /** One round of the scan: drop canceled waiters from the front, then grant the first eligible waiter, if any. */
  function Round(cfg: Config, s: State, n: nat): (r: (State, Option<Waiter>))
    ensures r.0.active == s.active + if r.1.Some? then 1 else 0
  {
    var c := RoundClass(s.next, n);
    var t := Dropped(s, c);
    var i := Candidate(cfg, t, Queue(t.queues, c), 0);
    if i < 0 then (t, None)
    else
      var w := Queue(t.queues, c)[i];
      (Grant(t, w, c, Remove(Queue(t.queues, c), i), ((s.next + n) % 6 + 1) % 6), Some(w))
  }

  /** The inner loop of dispatchLocked from its n-th round on: the state and the waiter granted, if any. */
  function Scan(cfg: Config, s: State, n: nat): (r: (State, Option<Waiter>))
    requires n <= 6
    ensures r.0.active == s.active + if r.1.Some? then 1 else 0
    decreases 6 - n
  {
    if n == 6 then (s, None) else
      var (t, g) := Round(cfg, s, n);
      if g.Some? then (t, g) else Scan(cfg, t, n + 1)
  }

  /** The number of waiters not canceled. */
  function Live(q: seq<Waiter>, canceled: set<nat>): nat {
    if q == [] then 0 else (if q[0].id in canceled then 0 else 1) + Live(q[1..], canceled)
  }

  function TotalQueued(s: State): nat {
    Live(Queue(s.queues, Metadata), s.canceled) + Live(Queue(s.queues, Interactive), s.canceled)
    + Live(Queue(s.queues, Batch), s.canceled) + Live(Queue(s.queues, Maintenance), s.canceled)
  }

  // ----- the view in which canceled waiters do not exist

  /** Queues hold waiters of their own class, in arrival order. */
  ghost predicate Ordered(q: seq<Waiter>) { forall i, j :: 0 <= i < j < |q| ==> q[i].id < q[j].id }

  ghost predicate Shaped(s: State) {
    && (forall c: Class :: Ordered(Queue(s.queues, c)))
    && (forall c: Class, w :: w in Queue(s.queues, c) ==> w.class_ == c)
  }

  ghost predicate Waits(s: State, w: Waiter) { w in Queue(s.queues, w.class_) && w.id !in s.canceled }

  /** Class c has a waiter that could be granted right now. */
  ghost predicate Runnable(cfg: Config, s: State, c: Class) {
    exists w :: Waits(s, w) && w.class_ == c && CanRun(cfg, s, w)
  }

  /** t is s with some canceled waiters dropped from its queues. */
  ghost predicate SameWaiting(s: State, t: State) {
    && t == s.(queues := t.queues) && Shaped(t)
    && (forall w :: Waits(s, w) <==> Waits(t, w))
    && (forall c: Class, w :: w in Queue(t.queues, c) ==> w in Queue(s.queues, c))
    && (forall c: Class :: Live(Queue(t.queues, c), s.canceled) == Live(Queue(s.queues, c), s.canceled))
  }

  lemma {:induction false} DropMembers(q: seq<Waiter>, canceled: set<nat>)
    ensures forall w :: w in DropCanceled(q, canceled) ==> w in q
    ensures forall w :: w in q && w.id !in canceled ==> w in DropCanceled(q, canceled)
    ensures Live(DropCanceled(q, canceled), canceled) == Live(q, canceled)
    ensures Ordered(q) ==> Ordered(DropCanceled(q, canceled))
  {
    if q != [] && q[0].id in canceled {
      DropMembers(q[1..], canceled);
    }
  }

  lemma DroppedSame(s: State, c: Class)
    requires Shaped(s)
    ensures SameWaiting(s, Dropped(s, c))
  {
    DropMembers(Queue(s.queues, c), s.canceled);
    var t := Dropped(s, c);
    forall d: Class
      ensures Ordered(Queue(t.queues, d)) && Live(Queue(t.queues, d), s.canceled) == Live(Queue(s.queues, d), s.canceled)
      ensures forall w :: w in Queue(t.queues, d) ==> w in Queue(s.queues, d)
    {
      assert Queue(t.queues, d) == if d == c then DropCanceled(Queue(s.queues, c), s.canceled) else Queue(s.queues, d);
    }
  }

  lemma RunnableByMembers(cfg: Config, s: State, c: Class)
    requires Shaped(s)
    ensures HasRunnable(cfg, s, c) <==> exists w :: Waits(s, w) && w.class_ == c && At(s.byTarget, w.target) < cfg.perTarget
  {
    if HasRunnable(cfg, s, c) {
      var i :| 0 <= i < |Queue(s.queues, c)| && Queue(s.queues, c)[i].id !in s.canceled && At(s.byTarget, Queue(s.queues, c)[i].target) < cfg.perTarget;
      assert Queue(s.queues, c)[i] in Queue(s.queues, c);
      assert Waits(s, Queue(s.queues, c)[i]);
    }
  }

  lemma SameHasRunnable(cfg: Config, s: State, t: State, c: Class)
    requires Shaped(s) && SameWaiting(s, t)
    ensures HasRunnable(cfg, s, c) == HasRunnable(cfg, t, c)
  {
    RunnableByMembers(cfg, s, c);
    RunnableByMembers(cfg, t, c);
  }

  /** Dropping canceled waiters changes no scheduling decision. */
  lemma SameRunnable(cfg: Config, s: State, t: State)
    requires Shaped(s) && SameWaiting(s, t)
    ensures forall w :: CanRun(cfg, s, w) == CanRun(cfg, t, w)
    ensures forall c :: Runnable(cfg, s, c) == Runnable(cfg, t, c)
  {
    SameHasRunnable(cfg, s, t, Metadata);
    SameHasRunnable(cfg, s, t, Interactive);
  }

  // ----- what one decision does

  /** How many rounds of a scan that starts at `next` come before class c is looked at. */
  function Distance(next: nat, c: Class): nat {
    match c
    case Metadata => [0, 1, 0, 3, 2, 1][next % 6]
    case Interactive => [1, 0, 1, 0, 3, 2][next % 6]
    case Batch => [4, 3, 2, 1, 0, 5][next % 6]
    case Maintenance => [5, 4, 3, 2, 1, 0][next % 6]
  }

  lemma DistanceInOrder(next: nat, c: Class)
    ensures RoundClass(next, Distance(next, c)) == c
    ensures forall n :: 0 <= n < Distance(next, c) ==> RoundClass(next, n) != c
  { }

  /** t is s after granting w, which was waiting: nobody else starts or stops waiting. */
  ghost predicate Taken(s: State, t: State, w: Waiter) {
    && Waits(s, w) && !Waits(t, w) && Shaped(t)
    && t.active == s.active + 1
    && t.byTarget == s.byTarget[w.target := At(s.byTarget, w.target) + 1]
    && t.byClass == s.byClass[w.class_ := At(s.byClass, w.class_) + 1]
    && t.canceled == s.canceled && t.ready == s.ready + {w.id} && t.held == s.held[w.id := w]
    && (forall v :: Waits(t, v) ==> Waits(s, v))
    && (forall v :: Waits(s, v) && v != w ==> Waits(t, v))
    && (forall c: Class, v :: v in Queue(t.queues, c) ==> v in Queue(s.queues, c))
    && TotalQueued(t) + 1 == TotalQueued(s)
  }

  ghost predicate OldestOfTarget(s: State, w: Waiter) {
    forall v :: Waits(s, v) && v.class_ == w.class_ && v.target == w.target ==> w.id <= v.id
  }

  /** The round robin moves strictly closer to every other class that could run. */
  ghost predicate ClosesIn(cfg: Config, s: State, next: nat, c: Class) {
    forall d: Class :: Runnable(cfg, s, d) && d != c ==> Distance(next, d) < Distance(s.next, d)
  }

  /** Whoever else could be granted belongs to a class that is looked at later, or arrived later in the same class. */
  ghost predicate First(cfg: Config, s: State, w: Waiter) {
    forall v :: Waits(s, v) && CanRun(cfg, s, v) ==> NotBefore(s.next, v, w)
  }

  ghost predicate FirstInClass(cfg: Config, s: State, w: Waiter) {
    forall v :: Waits(s, v) && CanRun(cfg, s, v) && v.class_ == w.class_ ==> w.id <= v.id
  }

  ghost predicate NotBefore(next: nat, v: Waiter, w: Waiter) {
    if v.class_ == w.class_ then w.id <= v.id else Distance(next, w.class_) < Distance(next, v.class_)
  }

  /** What a decision that grants w amounts to. */
  ghost predicate Granted(cfg: Config, s: State, t: State, w: Waiter) {
    && CanRun(cfg, s, w) && Taken(s, t, w) && First(cfg, s, w)
    && t.next == (s.next + Distance(s.next, w.class_) + 1) % 6
    && OldestOfTarget(s, w) && ClosesIn(cfg, s, t.next, w.class_)
  }

  ghost predicate Decided(cfg: Config, s: State, t: State, g: Option<Waiter>) {
    match g
    case Some(w) => Granted(cfg, s, t, w)
    case None => SameWaiting(s, t) && forall c: Class :: !Runnable(cfg, s, c)
  }

  lemma {:induction false} LiveAppend(q: seq<Waiter>, w: Waiter, canceled: set<nat>)
    ensures Live(q + [w], canceled) == Live(q, canceled) + if w.id in canceled then 0 else 1
  {
    if q == [] {
      assert q + [w] == [w];
    } else {
      assert (q + [w])[1..] == q[1..] + [w];
      LiveAppend(q[1..], w, canceled);
    }
  }

  lemma {:induction false} LiveRemove(q: seq<Waiter>, i: nat, canceled: set<nat>)
    requires i < |q| && q[i].id !in canceled
    ensures Live(q, canceled) == Live(Remove(q, i), canceled) + 1
  {
    if i == 0 {
      assert Remove(q, 0) == q[1..];
    } else {
      assert Remove(q, i)[1..] == Remove(q[1..], i - 1);
      LiveRemove(q[1..], i - 1, canceled);
    }
  }

  lemma {:induction false} LiveCancel(q: seq<Waiter>, canceled: set<nat>, id: nat)
    ensures Live(q, canceled + {id}) <= Live(q, canceled)
  {
    if q != [] { LiveCancel(q[1..], canceled, id); }
  }

  lemma RemoveMembers(q: seq<Waiter>, i: nat)
    requires Ordered(q) && i < |q|
    ensures Ordered(Remove(q, i))
    ensures forall v :: v in Remove(q, i) <==> v in q && v != q[i]
  {
    forall v | v in q && v != q[i] ensures v in Remove(q, i) {
      var k :| 0 <= k < |q| && q[k] == v;
      assert v == if k < i then Remove(q, i)[k] else Remove(q, i)[k - 1];
    }
  }

  lemma TotalAfterRemove(s: State, i: nat, c: Class, t: State)
    requires i < |Queue(s.queues, c)| && Queue(s.queues, c)[i].id !in s.canceled
    requires t.queues == s.queues[c := Remove(Queue(s.queues, c), i)] && t.canceled == s.canceled
    ensures TotalQueued(t) + 1 == TotalQueued(s)
  {
    LiveRemove(Queue(s.queues, c), i, s.canceled);
  }

  lemma MembersAfterRemove(s: State, i: nat, c: Class, t: State)
    requires Shaped(s) && i < |Queue(s.queues, c)|
    requires t.queues == s.queues[c := Remove(Queue(s.queues, c), i)] && t.canceled == s.canceled
    ensures Shaped(t)
    ensures forall d: Class, v :: v in Queue(t.queues, d) <==> v in Queue(s.queues, d) && v != Queue(s.queues, c)[i]
  {
    RemoveMembers(Queue(s.queues, c), i);
    assert Queue(s.queues, c)[i] in Queue(s.queues, c);
    forall d: Class ensures Ordered(Queue(t.queues, d)) {
      assert Queue(t.queues, d) == if d == c then Remove(Queue(s.queues, c), i) else Queue(s.queues, d);
    }
    forall d: Class, v ensures v in Queue(t.queues, d) <==> v in Queue(s.queues, d) && v != Queue(s.queues, c)[i] {
      assert Queue(t.queues, d) == if d == c then Remove(Queue(s.queues, c), i) else Queue(s.queues, d);
    }
  }

  /** Taking waiter i out of the queue of class c removes exactly that waiter from those that wait. */
  lemma GrantEffect(s: State, i: nat, c: Class, next: nat)
    requires Shaped(s) && i < |Queue(s.queues, c)| && Queue(s.queues, c)[i].id !in s.canceled
    ensures Taken(s, Grant(s, Queue(s.queues, c)[i], c, Remove(Queue(s.queues, c), i), next), Queue(s.queues, c)[i])
  {
    hide CanRun, HasRunnable, Live, TotalQueued, Ordered, Distance, Remove;
    var w := Queue(s.queues, c)[i];
    var t := Grant(s, w, c, Remove(Queue(s.queues, c), i), next);
    assert w in Queue(s.queues, c);
    MembersAfterRemove(s, i, c, t);
    TotalAfterRemove(s, i, c, t);
  }

  /** The first eligible waiter of a class is the oldest one of its target. */
  lemma PickIsOldest(cfg: Config, s: State, i: nat, c: Class)
    requires Shaped(s) && i < |Queue(s.queues, c)| && Candidate(cfg, s, Queue(s.queues, c), 0) == i
    ensures OldestOfTarget(s, Queue(s.queues, c)[i])
    ensures FirstInClass(cfg, s, Queue(s.queues, c)[i])
  {
    var q := Queue(s.queues, c);
    assert q[i] in q && q[i].class_ == c;
    forall v | Waits(s, v) && CanRun(cfg, s, v) && v.class_ == c ensures q[i].id <= v.id {
      var k :| 0 <= k < |q| && q[k] == v;
    }
    forall v | Waits(s, v) && v.class_ == c && v.target == q[i].target ensures q[i].id <= v.id {
      var k :| 0 <= k < |q| && q[k] == v;
      assert Eligible(cfg, s, v);
    }
  }

  /** Rounds already passed over belong to classes that cannot run. */
  ghost predicate PassedOver(cfg: Config, s: State, n: nat) {
    forall m :: 0 <= m < n ==> !Runnable(cfg, s, RoundClass(s.next, m))
  }

  lemma PassingShortens(cfg: Config, s: State, n: nat, next: nat, d: Class)
    requires n < 6 && PassedOver(cfg, s, n) && Runnable(cfg, s, d) && RoundClass(s.next, n) != d
    requires next == ((s.next + n) % 6 + 1) % 6
    ensures Distance(next, d) < Distance(s.next, d)
  {
    hide Runnable, Distance, RoundClass;
    DistanceInOrder(s.next, d);
    assert Distance(s.next, d) > n;
    DistanceAfter(s.next, n, d);
  }

  lemma DistanceAfter(next: nat, n: nat, d: Class)
    requires n < Distance(next, d)
    ensures Distance(((next + n) % 6 + 1) % 6, d) + n + 1 == Distance(next, d)
  { }

  lemma DropAgain(s: State, t: State, c: Class)
    requires SameWaiting(s, t)
    ensures SameWaiting(s, Dropped(t, c))
  {
    DroppedSame(t, c);
  }

  /** What is decided after dropping canceled waiters is decided for the original state as well. */
  lemma GrantedBefore(cfg: Config, s: State, t: State, u: State, w: Waiter)
    requires Shaped(s) && SameWaiting(s, t) && Taken(t, u, w)
    ensures Taken(s, u, w)
  {
    hide Shaped, Live, TotalQueued, Waits, Queue;
    SameTotal(s, t);
  }

  lemma SameTotal(s: State, t: State)
    requires SameWaiting(s, t)
    ensures TotalQueued(s) == TotalQueued(t)
  {
    hide Shaped, Live, Waits, Queue;
  }

  /** The scan grants the right waiter, or finds that no class has any that may run. */
  lemma {:induction false} ScanDecides(cfg: Config, s: State, t: State, n: nat)
    requires Shaped(s) && SameWaiting(s, t) && n <= 6 && PassedOver(cfg, s, n)
    ensures Decided(cfg, s, Scan(cfg, t, n).0, Scan(cfg, t, n).1)
    decreases 6 - n
  {
    if n == 6 {
      AllPassed(cfg, s);
    } else {
      RoundDecides(cfg, s, t, n);
      var (u, g) := Round(cfg, t, n);
      if g.None? { ScanDecides(cfg, s, u, n + 1); }
    }
  }

  lemma RoundDecides(cfg: Config, s: State, t: State, n: nat)
    requires Shaped(s) && SameWaiting(s, t) && n < 6 && PassedOver(cfg, s, n)
    ensures match Round(cfg, t, n).1
            case Some(w) => Granted(cfg, s, Round(cfg, t, n).0, w)
            case None => SameWaiting(s, Round(cfg, t, n).0) && PassedOver(cfg, s, n + 1)
  {
    var c := RoundClass(t.next, n);
    DropAgain(s, t, c);
    if Candidate(cfg, Dropped(t, c), Queue(Dropped(t, c).queues, c), 0) < 0 {
      PassOn(cfg, s, Dropped(t, c), n);
    } else {
      RoundHits(cfg, s, t, n);
    }
  }

  lemma AllPassed(cfg: Config, s: State)
    requires PassedOver(cfg, s, 6)
    ensures forall c: Class :: !Runnable(cfg, s, c)
  {
    forall c: Class ensures !Runnable(cfg, s, c) { DistanceInOrder(s.next, c); }
  }

  lemma PassOn(cfg: Config, s: State, u: State, n: nat)
    requires Shaped(s) && SameWaiting(s, u) && n < 6 && PassedOver(cfg, s, n)
    requires Candidate(cfg, u, Queue(u.queues, RoundClass(s.next, n)), 0) < 0
    ensures PassedOver(cfg, s, n + 1)
  {
    NoCandidate(cfg, u, RoundClass(s.next, n));
    SameRunnable(cfg, s, u);
  }

  /** Round n of the scan grants. */
  lemma RoundHits(cfg: Config, s: State, t: State, n: nat)
    requires Shaped(s) && SameWaiting(s, Dropped(t, RoundClass(t.next, n))) && n < 6 && PassedOver(cfg, s, n)
    requires Round(cfg, t, n).1.Some?
    ensures Granted(cfg, s, Round(cfg, t, n).0, Round(cfg, t, n).1.value)
  {
    hide CanRun, Runnable, Distance, Live, TotalQueued, Taken, PassedOver, First, OldestOfTarget, FirstInClass, SameWaiting,
         Shaped, Waits;
    var c := RoundClass(t.next, n);
    var u := Dropped(t, c);
    var i := Candidate(cfg, u, Queue(u.queues, c), 0);
    var w := Queue(u.queues, c)[i];
    var next := ((t.next + n) % 6 + 1) % 6;
    SameNext(s, u);
    PickFacts(cfg, s, u, i, c);
    forall d: Class | Runnable(cfg, s, d) && d != c ensures Distance(next, d) < Distance(s.next, d) {
      PassingShortens(cfg, s, n, next, d);
    }
    GrantEffect(u, i, c, next);
    GrantedBefore(cfg, s, u, Grant(u, w, c, Remove(Queue(u.queues, c), i), next), w);
    FirstRound(cfg, s, n, w);
    FirstOf(cfg, s, n, w);
  }

  lemma SameNext(s: State, t: State)
    requires SameWaiting(s, t)
    ensures t.next == s.next && t.canceled == s.canceled && Shaped(t)
  { }

  /** What is picked from the queue of c once canceled waiters were dropped. */
  lemma PickFacts(cfg: Config, s: State, u: State, i: nat, c: Class)
    requires Shaped(s) && SameWaiting(s, u)
    requires i < |Queue(u.queues, c)| && Candidate(cfg, u, Queue(u.queues, c), 0) == i
    ensures var w := Queue(u.queues, c)[i];
            w.class_ == c && Waits(s, w) && CanRun(cfg, s, w) && OldestOfTarget(s, w) && FirstInClass(cfg, s, w)
  {
    hide CanRun, Live;
    assert Queue(u.queues, c)[i] in Queue(u.queues, c);
    SameRunnable(cfg, s, u);
    PickIsOldest(cfg, u, i, c);
  }

  /** The round that grants is the first one to look at its class. */
  lemma FirstRound(cfg: Config, s: State, n: nat, w: Waiter)
    requires PassedOver(cfg, s, n) && n < 6 && Waits(s, w) && CanRun(cfg, s, w) && RoundClass(s.next, n) == w.class_
    ensures Distance(s.next, w.class_) == n
  {
    hide CanRun, Distance, RoundClass;
    DistanceInOrder(s.next, w.class_);
    assert Runnable(cfg, s, w.class_);
    assert forall m :: 0 <= m < n ==> RoundClass(s.next, m) != w.class_;
  }

  lemma FirstOf(cfg: Config, s: State, n: nat, w: Waiter)
    requires Distance(s.next, w.class_) == n
    requires PassedOver(cfg, s, n) && FirstInClass(cfg, s, w)
    ensures First(cfg, s, w)
  {
    hide CanRun, Distance;
    forall v | Waits(s, v) && CanRun(cfg, s, v) ensures NotBefore(s.next, v, w) {
      assert Runnable(cfg, s, v.class_);
      if v.class_ != w.class_ {
        DistanceInOrder(s.next, v.class_);
        DistanceInOrder(s.next, w.class_);
        assert Distance(s.next, v.class_) >= n;
      }
    }
  }

  lemma NoCandidate(cfg: Config, s: State, c: Class)
    requires Candidate(cfg, s, Queue(s.queues, c), 0) < 0
    ensures forall w :: Waits(s, w) && w.class_ == c ==> !CanRun(cfg, s, w)
  {
    forall w | Waits(s, w) && w.class_ == c ensures !CanRun(cfg, s, w) {
      var k :| 0 <= k < |Queue(s.queues, c)| && Queue(s.queues, c)[k] == w;
      assert !Eligible(cfg, s, Queue(s.queues, c)[k]);
    }
  }

  // ----- who is next, in terms of free slots

  /** Somebody of class c waits below the cap of its target. */
  ghost predicate Startable(cfg: Config, s: State, c: Class) {
    exists v :: Waits(s, v) && v.class_ == c && At(s.byTarget, v.target) < cfg.perTarget
  }

  /** How many free slots w has to leave to others: the reserved ones to metadata, the last one to interactive work. */
  ghost function KeptFree(cfg: Config, s: State, w: Waiter): nat {
    Max(if w.class_ != Metadata && Startable(cfg, s, Metadata) then cfg.metadataReserved else 0,
        if w.class_ == Maintenance && Startable(cfg, s, Interactive) then 1 else 0)
  }

  ghost predicate UnderCaps(cfg: Config, s: State, w: Waiter) {
    && At(s.byTarget, w.target) < cfg.perTarget
    && (w.class_ == Batch ==> At(s.byClass, Batch) < cfg.batchMax)
    && (w.class_ == Maintenance ==> At(s.byClass, Maintenance) < cfg.maintenanceMax)
  }

  /** w waits, none of its own caps stops it, and more slots are free than it has to leave. */
  ghost predicate Admissible(cfg: Config, s: State, w: Waiter) {
    Waits(s, w) && UnderCaps(cfg, s, w) && cfg.global - s.active > KeptFree(cfg, s, w)
  }

  /** While a slot is free, the guard lets exactly those pass who leave enough slots to others. */
  lemma GuardIsAdmissible(cfg: Config, s: State, w: Waiter)
    requires Shaped(s) && s.active < cfg.global && Waits(s, w)
    ensures CanRun(cfg, s, w) <==> Admissible(cfg, s, w)
  {
    hide HasRunnable, Shaped;
    RunnableByMembers(cfg, s, Metadata);
    RunnableByMembers(cfg, s, Interactive);
  }

  /** A decision grants the one admissible waiter that comes first: in the nearest class, the earliest to arrive; and
      nobody is granted only when nobody is admissible. */
  lemma DecisionIsFirst(cfg: Config, s: State, t: State, g: Option<Waiter>)
    requires Shaped(s) && s.active < cfg.global && Decided(cfg, s, t, g)
    ensures g.Some? ==> Admissible(cfg, s, g.value) && forall v :: Admissible(cfg, s, v) ==> NotBefore(s.next, v, g.value)
    ensures g.None? ==> forall v :: !Admissible(cfg, s, v)
  {
    hide CanRun, Admissible, Shaped, Taken, SameWaiting, Distance;
    forall v | Waits(s, v) ensures CanRun(cfg, s, v) <==> Admissible(cfg, s, v) { GuardIsAdmissible(cfg, s, v); }
    forall v | Admissible(cfg, s, v) ensures Waits(s, v) { AdmissibleWaits(cfg, s, v); }
    if g.Some? {
      TakenWaits(s, t, g.value);
    } else {
      forall v ensures !Admissible(cfg, s, v) {
        if Waits(s, v) { assert !Runnable(cfg, s, v.class_); }
      }
    }
  }

  lemma AdmissibleWaits(cfg: Config, s: State, v: Waiter)
    requires Admissible(cfg, s, v)
    ensures Waits(s, v)
  { }

  lemma TakenWaits(s: State, t: State, w: Waiter)
    requires Taken(s, t, w)
    ensures Waits(s, w)
  { }

  /** With more free slots than anybody keeps, no waiter below its own caps is passed by a class that is looked at later. */
  lemma UnreservedAreOpen(cfg: Config, s: State, t: State, w: Waiter, v: Waiter)
    requires Shaped(s) && Granted(cfg, s, t, w) && Waits(s, v) && UnderCaps(cfg, s, v)
    requires cfg.global - s.active > Max(cfg.metadataReserved, 1)
    ensures NotBefore(s.next, v, w) && Distance(s.next, w.class_) <= Distance(s.next, v.class_)
  {
    hide Shaped, Taken, Distance, ClosesIn, Startable;
    DecisionIsFirst(cfg, s, t, Some(w));
  }
}
