/** All cursors of the process together: shared slots and memory, over whole runs. */
module CursorRuns {
  import opened Common
  import opened Cursors

  const SLOTS := 128
  const MEMORY := 64 * 1024 * 1024

  datatype Limits = Limits(maxTimeout: Time, maxOpen: string -> nat)

  /** Handles are unique for ever; a released cursor stays in `owned`, but is no longer registered. */
  datatype World = World(now: Time, owned: map<nat, Owned>, target: map<nat, string>, slots: int, memory: int)

  datatype Action =
    | Wait(later: Time)
    | Reserve(h: nat, on: string, kind: Kind, charge: nat, lifetime: Time)
    | Charge(h: nat, charge: nat)
    | Act(h: nat, e: Event)

  // ----- what is registered

  ghost function Open(owned: map<nat, Owned>): set<nat> { set h | h in owned && !owned[h].c.released }

  ghost function OpenOn(owned: map<nat, Owned>, target: map<nat, string>, t: string): set<nat> {
    set h | h in owned && !owned[h].c.released && h in target && target[h] == t
  }

  ghost function Charges(owned: map<nat, Owned>): map<nat, int> { map h | h in owned && !owned[h].c.released :: owned[h].c.bytes }

  // ----- steps

  ghost predicate Granted(lim: Limits, w: World, on: string, charge: nat) {
    w.memory + charge <= MEMORY && w.slots + 1 <= SLOTS && |OpenOn(w.owned, w.target, on)| < lim.maxOpen(on)
  }

  function WithReserved(w: World, h: nat, on: string, kind: Kind, charge: nat, lifetime: Time): World {
    w.(owned := w.owned[h := Owned(Reserved(kind, charge, w.now + lifetime), NothingSent, Opening)],
       target := w.target[h := on], slots := w.slots + 1, memory := w.memory + charge)
  }

  /** updateCursorQuery: the charge grows only if the semaphore has room. */
  function Recharged(w: World, h: nat, charge: nat): World
    requires h in w.owned
  {
    var x := w.owned[h];
    if charge > x.c.bytes && w.memory + (charge - x.c.bytes) > MEMORY
    then w.(owned := w.owned[h := x.(pc := Failing)])
    else w.(owned := w.owned[h := x.(c := x.c.(bytes := charge))], memory := w.memory + (charge - x.c.bytes))
  }

  /** The effect of one cursor's step on the process: a release returns slot and memory. */
  function Replaced(w: World, h: nat, y: Owned): World
    requires h in w.owned
  {
    var freed := !w.owned[h].c.released && y.c.released;
    w.(owned := w.owned[h := y],
       slots := if freed then w.slots - 1 else w.slots,
       memory := if freed then w.memory - w.owned[h].c.bytes else w.memory)
  }

  ghost predicate Next(lim: Limits, w: World, a: Action, w': World) {
    match a
    case Wait(later) => w.now <= later && w' == w.(now := later)
    case Reserve(h, on, kind, charge, lifetime) =>
      h !in w.owned && w' == if Granted(lim, w, on, charge) then WithReserved(w, h, on, kind, charge, lifetime) else w
    case Charge(h, charge) =>
      h in w.owned && w.owned[h].pc in {Opening, Paged} && w' == Recharged(w, h, charge)
    case Act(h, e) =>
      h in w.owned && exists y :: Step(w.owned[h], w.now, lim.maxTimeout, e, y) && w' == Replaced(w, h, y)
  }

  ghost predicate Conserved(lim: Limits, w: World) {
    && w.slots == |Open(w.owned)| <= SLOTS
    && w.memory == Total(Charges(w.owned)) <= MEMORY
    && (forall t :: |OpenOn(w.owned, w.target, t)| <= lim.maxOpen(t))
  }

  ghost predicate AllGood(lim: Limits, w: World) {
    && w.owned.Keys == w.target.Keys
    && (forall h :: h in w.owned ==> Good(w.owned[h], w.now, lim.maxTimeout) && OnTime(w.owned[h].c, w.now))
    && (forall h :: h in w.owned && w.owned[h].pc in {Opening, Paged} ==> !w.owned[h].c.released)
  }

  ghost predicate Inv(lim: Limits, w: World) { AllGood(lim, w) && Conserved(lim, w) }

  // ----- conservation

  lemma OpenOnAdd(owned: map<nat, Owned>, target: map<nat, string>, h: nat, x: Owned, on: string, t: string)
    requires h !in owned && owned.Keys == target.Keys && !x.c.released
    ensures |OpenOn(owned[h := x], target[h := on], t)| == |OpenOn(owned, target, t)| + if t == on then 1 else 0
  {
    assert OpenOn(owned[h := x], target[h := on], t) == OpenOn(owned, target, t) + if t == on then {h} else {};
  }

  lemma OpenAdd(owned: map<nat, Owned>, h: nat, x: Owned)
    requires h !in owned && !x.c.released
    ensures |Open(owned[h := x])| == |Open(owned)| + 1
    ensures Total(Charges(owned[h := x])) == Total(Charges(owned)) + x.c.bytes
  {
    assert Open(owned[h := x]) == Open(owned) + {h};
    assert Charges(owned[h := x]) == Charges(owned)[h := x.c.bytes];
    TotalAdd(Charges(owned), h, x.c.bytes);
  }

  /** Replacing a cursor that stays registered (or stays released). */
  lemma OpenSame(owned: map<nat, Owned>, target: map<nat, string>, h: nat, y: Owned)
    requires h in owned && owned[h].c.released == y.c.released
    ensures Open(owned[h := y]) == Open(owned)
    ensures forall t :: OpenOn(owned[h := y], target, t) == OpenOn(owned, target, t)
    ensures Total(Charges(owned[h := y])) == Total(Charges(owned)) + if y.c.released then 0 else y.c.bytes - owned[h].c.bytes
  {
    if y.c.released {
      assert Charges(owned[h := y]) == Charges(owned);
    } else {
      TotalRemove(Charges(owned), h);
      TotalRemove(Charges(owned[h := y]), h);
      assert Charges(owned[h := y]) - {h} == Charges(owned) - {h};
    }
  }

  lemma OpenRemove(owned: map<nat, Owned>, target: map<nat, string>, h: nat, y: Owned)
    requires h in owned && !owned[h].c.released && y.c.released
    ensures |Open(owned[h := y])| == |Open(owned)| - 1
    ensures forall t :: |OpenOn(owned[h := y], target, t)| <= |OpenOn(owned, target, t)|
    ensures Total(Charges(owned[h := y])) == Total(Charges(owned)) - owned[h].c.bytes
    ensures Total(Charges(owned)) >= owned[h].c.bytes
  {
    assert h in Open(owned) && Open(owned[h := y]) == Open(owned) - {h};
    forall t ensures |OpenOn(owned[h := y], target, t)| <= |OpenOn(owned, target, t)| {
      if h in OpenOn(owned, target, t) {
        assert OpenOn(owned[h := y], target, t) == OpenOn(owned, target, t) - {h};
      } else {
        assert OpenOn(owned[h := y], target, t) == OpenOn(owned, target, t);
      }
    }
    TotalRemove(Charges(owned), h);
    assert Charges(owned[h := y]) == Charges(owned) - {h};
    TotalNatural(Charges(owned[h := y]));
  }

  lemma {:induction false} TotalNatural(m: map<nat, int>)
    requires forall k :: k in m ==> m[k] >= 0
    ensures Total(m) >= 0
    decreases m.Keys
  {
    if m.Keys != {} {
      var k := Pick(m.Keys);
      assert (m - {k}).Keys < m.Keys;
      TotalNatural(m - {k});
    }
  }

  lemma ReserveInv(lim: Limits, w: World, h: nat, on: string, kind: Kind, charge: nat, lifetime: Time)
    requires lim.maxTimeout > 0 && Inv(lim, w) && h !in w.owned && Granted(lim, w, on, charge)
    ensures Inv(lim, WithReserved(w, h, on, kind, charge, lifetime))
  {
    hide Open, OpenOn, Charges, Good;
    var x := Owned(Reserved(kind, charge, w.now + lifetime), NothingSent, Opening);
    OpenAdd(w.owned, h, x);
    forall t ensures |OpenOn(w.owned[h := x], w.target[h := on], t)| <= lim.maxOpen(t) {
      OpenOnAdd(w.owned, w.target, h, x, on, t);
    }
    GoodReserved(kind, charge, w.now + lifetime, w.now, lim.maxTimeout);
  }

  lemma RechargeInv(lim: Limits, w: World, h: nat, charge: nat)
    requires Inv(lim, w) && h in w.owned && w.owned[h].pc in {Opening, Paged}
    ensures Inv(lim, Recharged(w, h, charge))
  {
    hide AllGood, Good, OnTime;
    RechargeGood(lim, w, h, charge);
    hide Open, OpenOn, Charges;
    OpenSame(w.owned, w.target, h, Recharged(w, h, charge).owned[h]);
  }

  lemma RechargeGood(lim: Limits, w: World, h: nat, charge: nat)
    requires AllGood(lim, w) && h in w.owned && w.owned[h].pc in {Opening, Paged}
    ensures AllGood(lim, Recharged(w, h, charge)) && !w.owned[h].c.released
  {
    hide Good, OnTime;
    GoodRecharged(w.owned[h], w.now, lim.maxTimeout, charge);
  }

  lemma GoodRecharged(x: Owned, now: Time, maxTimeout: Time, charge: nat)
    requires Good(x, now, maxTimeout) && OnTime(x.c, now) && x.pc in {Opening, Paged}
    ensures Good(x.(c := x.c.(bytes := charge)), now, maxTimeout) && Good(x.(pc := Failing), now, maxTimeout)
    ensures OnTime(x.c.(bytes := charge), now)
  { }

  lemma WaitInv(lim: Limits, w: World, later: Time)
    requires Inv(lim, w) && w.now <= later
    ensures Inv(lim, w.(now := later))
  {
    hide Open, OpenOn, Charges, Good;
    forall h | h in w.owned ensures Good(w.owned[h], later, lim.maxTimeout) { GoodLater(w.owned[h], w.now, later, lim.maxTimeout); }
  }

  lemma StepOnTime(x: Owned, now: Time, maxTimeout: Time, e: Event, y: Owned)
    requires Good(x, now, maxTimeout) && OnTime(x.c, now) && Step(x, now, maxTimeout, e, y)
    ensures OnTime(y.c, now)
  {
    hide Good, Covered, MayRun, Closed, ReplyFits, SameCharge, Begin, Cleanup, Recover, Callback, Release, Answered, Usable;
    if e.Answer? { AnswerAbsolute(x, now, e.reply); }
  }

  lemma StepFrame(x: Owned, now: Time, maxTimeout: Time, e: Event, y: Owned)
    requires Good(x, now, maxTimeout) && OnTime(x.c, now) && Step(x, now, maxTimeout, e, y)
    ensures SameCharge(x.c, y.c) && OnTime(y.c, now) && (y.pc in {Opening, Paged} ==> !y.c.released)
  {
    hide OnTime, Covered, MayBeAlive, MayRun, Resolved, Closed, ReplyFits, Begin, Cleanup, Recover, Callback;
    StepOnTime(x, now, maxTimeout, e, y);
  }

  /** A step of one cursor; when it releases, what it gives back was held. */
  lemma ActInv(lim: Limits, w: World, h: nat, e: Event, y: Owned)
    requires Inv(lim, w) && h in w.owned && Step(w.owned[h], w.now, lim.maxTimeout, e, y)
    ensures Inv(lim, Replaced(w, h, y))
    ensures Replaced(w, h, y).slots >= 0 && Replaced(w, h, y).memory >= 0
  {
    hide Open, OpenOn, Charges, Good, Step, OnTime;
    StepGood(w.owned[h], w.now, lim.maxTimeout, e, y);
    StepFrame(w.owned[h], w.now, lim.maxTimeout, e, y);
    if w.owned[h].c.released == y.c.released {
      OpenSame(w.owned, w.target, h, y);
    } else {
      OpenRemove(w.owned, w.target, h, y);
    }
    ChargesNatural(Replaced(w, h, y).owned);
  }

  lemma ChargesNatural(owned: map<nat, Owned>)
    ensures Total(Charges(owned)) >= 0
  {
    TotalNatural(Charges(owned));
  }

  lemma NextInv(lim: Limits, w: World, a: Action, w': World)
    requires lim.maxTimeout > 0 && Inv(lim, w) && Next(lim, w, a, w')
    ensures Inv(lim, w')
  {
    hide Inv, Granted, Step;
    match a
    case Wait(later) => WaitInv(lim, w, later);
    case Reserve(h, on, kind, charge, lifetime) =>
      if Granted(lim, w, on, charge) { ReserveInv(lim, w, h, on, kind, charge, lifetime); }
    case Charge(h, charge) => RechargeInv(lim, w, h, charge);
    case Act(h, e) =>
      var y :| Step(w.owned[h], w.now, lim.maxTimeout, e, y) && w' == Replaced(w, h, y);
      ActInv(lim, w, h, e, y);
  }

  // ----- whole runs

  ghost predicate Init(w: World) { w.owned == map[] && w.target == map[] && w.slots == 0 && w.memory == 0 }

  ghost predicate IsRun(lim: Limits, run: seq<World>, actions: seq<Action>) {
    && lim.maxTimeout > 0 && |run| == |actions| + 1 && Init(run[0])
    && forall i :: 0 <= i < |actions| ==> Next(lim, run[i], actions[i], run[i + 1])
  }

  lemma InitInv(lim: Limits, w: World)
    requires Init(w)
    ensures Inv(lim, w)
  {
    assert Open(w.owned) == {};
    assert Charges(w.owned) == map[];
    forall t ensures OpenOn(w.owned, w.target, t) == {} { }
  }

  lemma {:induction false} RunInv(lim: Limits, run: seq<World>, actions: seq<Action>, i: nat)
    requires IsRun(lim, run, actions) && i < |run|
    ensures Inv(lim, run[i])
  {
    hide Inv, Next, Init;
    if i == 0 {
      InitInv(lim, run[0]);
    } else {
      RunInv(lim, run, actions, i - 1);
      NextInv(lim, run[i - 1], actions[i - 1], run[i]);
    }
  }

  /** In every run, while the native context may still be alive, its slot and its memory are still held. */
  lemma ReservationOutlivesContext(lim: Limits, run: seq<World>, actions: seq<Action>, i: nat, h: nat)
    requires IsRun(lim, run, actions) && i < |run| && h in run[i].owned
    requires MayBeAlive(run[i].owned[h].srv, run[i].now, lim.maxTimeout)
    ensures h in Open(run[i].owned) && Charges(run[i].owned)[h] == run[i].owned[h].c.bytes
    ensures run[i].slots == |Open(run[i].owned)| && run[i].memory == Total(Charges(run[i].owned))
  {
    hide IsRun;
    RunInv(lim, run, actions, i);
  }

  /** In every run: slots are the registered cursors, memory is the sum of their charges, and all limits hold. */
  lemma ReservationsConserved(lim: Limits, run: seq<World>, actions: seq<Action>, i: nat)
    requires IsRun(lim, run, actions) && i < |run|
    ensures Conserved(lim, run[i])
  {
    hide IsRun, AllGood, Conserved;
    RunInv(lim, run, actions, i);
  }

  /** In every run, a cursor that still holds its reservation is in a caller's hands or has its retirement timer armed or
      fired; once it has dispatched, it is the timer in any case. */
  lemma NoReservationLeaks(lim: Limits, run: seq<World>, actions: seq<Action>, i: nat, h: nat)
    requires IsRun(lim, run, actions) && i < |run| && h in Open(run[i].owned)
    ensures run[i].owned[h].pc != Free || run[i].owned[h].c.timer.Armed? || run[i].owned[h].c.timer.Fired?
    ensures run[i].owned[h].c.serverUntil.Some? ==>
              (run[i].owned[h].c.timer.Armed? || run[i].owned[h].c.timer.Fired?) && 1 <= CallbacksLeft(run[i].owned[h].c) <= 3
  {
    hide IsRun, Conserved;
    RunInv(lim, run, actions, i);
  }

  /** In every run, a reservation is granted exactly when fewer contexts are open than allowed, in the process and on the
      target, and the memory that is left suffices. */
  lemma ReservationGranted(lim: Limits, run: seq<World>, actions: seq<Action>, i: nat, h: nat, on: string, kind: Kind,
                           charge: nat, lifetime: Time)
    requires IsRun(lim, run, actions) && i < |actions| && actions[i] == Reserve(h, on, kind, charge, lifetime)
    ensures h in Open(run[i + 1].owned) <==>
              && |Open(run[i].owned)| < SLOTS && |OpenOn(run[i].owned, run[i].target, on)| < lim.maxOpen(on)
              && Total(Charges(run[i].owned)) + charge <= MEMORY
  {
    hide AllGood, Open, OpenOn, Charges;
    RunInv(lim, run, actions, i);
    assert Next(lim, run[i], actions[i], run[i + 1]);
    OpenHandles(run[i].owned);
    OpenHandles(run[i + 1].owned);
  }

  lemma OpenHandles(owned: map<nat, Owned>)
    ensures forall h :: h in Open(owned) <==> h in owned && !owned[h].c.released
  { }

  ghost predicate Disabled(w: World, h: nat) { h in w.owned && (w.owned[h].c.invalid || w.owned[h].c.released) }

  lemma DisabledStep(lim: Limits, w: World, a: Action, w': World, h: nat)
    requires Inv(lim, w) && Next(lim, w, a, w') && Disabled(w, h)
    ensures Disabled(w', h) && w'.owned[h].c.serverUntil == w.owned[h].c.serverUntil
  {
    hide Conserved, Good, Step;
    match a
    case Charge(g, _) =>
      if g == h { OpenNotDisabled(w.owned[h], w.now, lim.maxTimeout); }
    case Act(g, e) =>
      var y :| Step(w.owned[g], w.now, lim.maxTimeout, e, y) && w' == Replaced(w, g, y);
      if g == h { DisabledForGood(w.owned[h], w.now, lim.maxTimeout, e, y); }
    case _ =>
  }

  lemma OpenNotDisabled(x: Owned, now: Time, maxTimeout: Time)
    requires Good(x, now, maxTimeout)
    ensures x.pc in {Opening, Paged} ==> !x.c.invalid
    ensures x.c.invalid || x.c.released ==> !x.pc.Await?
  { }

  /** In every run, a cursor once disabled or released stays so and never dispatches again. */
  lemma {:induction false} DisabledStays(lim: Limits, run: seq<World>, actions: seq<Action>, i: nat, j: nat, h: nat)
    requires IsRun(lim, run, actions) && i <= j < |run| && Disabled(run[i], h)
    ensures Disabled(run[j], h) && run[j].owned[h].c.serverUntil == run[i].owned[h].c.serverUntil && !run[j].owned[h].pc.Await?
    decreases j - i
  {
    hide Next, Conserved, Good, Init;
    RunInv(lim, run, actions, j);
    if i < j {
      DisabledStays(lim, run, actions, i, j - 1, h);
      RunInv(lim, run, actions, j - 1);
      DisabledStep(lim, run[j - 1], actions[j - 1], run[j], h);
    }
    OpenNotDisabled(run[j].owned[h], run[j].now, lim.maxTimeout);
  }

  /** How often the retirement callback of h ran in actions i..j. */
  function CallbackRuns(actions: seq<Action>, h: nat, i: nat, j: nat): nat
    requires i <= j <= |actions|
    decreases j
  {
    if i == j then 0 else CallbackRuns(actions, h, i, j - 1) + if actions[j - 1] == Act(h, TimerRuns) then 1 else 0
  }

  ghost predicate Quiet(actions: seq<Action>, h: nat, i: nat, j: nat)
    requires i <= j <= |actions|
  {
    forall k :: i <= k < j && actions[k].Act? && actions[k].h == h ==> !actions[k].e.Dispatch? && !actions[k].e.Answer?
  }

  lemma QuietStep(lim: Limits, w: World, a: Action, w': World, h: nat)
    requires Inv(lim, w) && Next(lim, w, a, w') && h in w.owned && w.owned[h].c.serverUntil.Some? && !w.owned[h].c.released
    requires a.Act? && a.h == h ==> !a.e.Dispatch? && !a.e.Answer?
    ensures h in w'.owned
    ensures CallbacksLeft(w'.owned[h].c) + (if a == Act(h, TimerRuns) then 1 else 0) <= CallbacksLeft(w.owned[h].c)
    ensures !w'.owned[h].c.released ==> w'.owned[h].c.serverUntil.Some?
  {
    hide Conserved, Good, Step;
    match a
    case Act(g, e) =>
      var y :| Step(w.owned[g], w.now, lim.maxTimeout, e, y) && w' == Replaced(w, g, y);
      if g == h { RetirementProgress(w.owned[h], w.now, lim.maxTimeout, e, y); }
    case _ =>
  }

  /** In every run, once a cursor stops dispatching, the third callback of its retirement timer finds it released. */
  lemma {:induction false} RetirementBound(lim: Limits, run: seq<World>, actions: seq<Action>, i: nat, j: nat, h: nat)
    requires IsRun(lim, run, actions) && i <= j < |run| && Quiet(actions, h, i, j)
    requires h in Open(run[i].owned) && run[i].owned[h].c.serverUntil.Some?
    ensures h in run[j].owned
    ensures run[j].owned[h].c.released || (run[j].owned[h].c.serverUntil.Some?
            && CallbackRuns(actions, h, i, j) + CallbacksLeft(run[j].owned[h].c) <= CallbacksLeft(run[i].owned[h].c))
    ensures CallbackRuns(actions, h, i, j) >= 3 ==> run[j].owned[h].c.released
    decreases j - i
  {
    hide Next, Init, Inv, CallbacksLeft;
    NoReservationLeaks(lim, run, actions, i, h);
    if i < j {
      RetirementBound(lim, run, actions, i, j - 1, h);
      RunInv(lim, run, actions, j - 1);
      if run[j - 1].owned[h].c.released {
        ReleasedStep(lim, run[j - 1], actions[j - 1], run[j], h);
      } else {
        QuietStep(lim, run[j - 1], actions[j - 1], run[j], h);
      }
      RunInv(lim, run, actions, j);
      if !run[j].owned[h].c.released { NoReservationLeaks(lim, run, actions, j, h); }
    }
  }

  lemma ReleasedStep(lim: Limits, w: World, a: Action, w': World, h: nat)
    requires Inv(lim, w) && Next(lim, w, a, w') && h in w.owned && w.owned[h].c.released
    ensures h in w'.owned && w'.owned[h].c.released
  {
    hide Conserved, Good, Step;
    match a
    case Act(g, e) =>
      var y :| Step(w.owned[g], w.now, lim.maxTimeout, e, y) && w' == Replaced(w, g, y);
      if g == h { DisabledForGood(w.owned[h], w.now, lim.maxTimeout, e, y); }
    case _ =>
  }

  // ----- retirement in time

  ghost predicate AllTimely(lim: Limits, w: World) {
    forall h :: h in w.owned ==> Timely(w.owned[h].c, w.now, lim.maxTimeout)
  }

  lemma TimelyNext(lim: Limits, w: World, a: Action, w': World)
    requires lim.maxTimeout > 0 && Inv(lim, w) && AllTimely(lim, w) && Next(lim, w, a, w')
    ensures AllTimely(lim, w')
  {
    hide Conserved, Good, Step;
    match a
    case Act(g, e) =>
      var y :| Step(w.owned[g], w.now, lim.maxTimeout, e, y) && w' == Replaced(w, g, y);
      TimelyStep(w.owned[g], w.now, lim.maxTimeout, e, y);
    case _ =>
  }

  lemma {:induction false} RunTimely(lim: Limits, run: seq<World>, actions: seq<Action>, i: nat)
    requires IsRun(lim, run, actions) && i < |run|
    ensures AllTimely(lim, run[i])
  {
    hide Inv, Next;
    if i > 0 {
      RunTimely(lim, run, actions, i - 1);
      RunInv(lim, run, actions, i - 1);
      TimelyNext(lim, run[i - 1], actions[i - 1], run[i]);
    }
  }

  /** The scheduler runs a callback of the retirement timer within d of the time it was due. */
  ghost predicate Prompt(c: Cursor, now: Time, d: Time) { c.timer.Armed? || c.timer.Fired? ==> now <= c.timer.due + d }

  /** In every run a dispatched cursor holds its reservation for no longer than a constant after its horizon. */
  lemma RetiredInTime(lim: Limits, run: seq<World>, actions: seq<Action>, i: nat, h: nat, d: Time)
    requires IsRun(lim, run, actions) && i < |run| && h in run[i].owned && Prompt(run[i].owned[h].c, run[i].now, d)
    requires run[i].owned[h].c.serverUntil.Some?
    requires run[i].now > run[i].owned[h].c.serverUntil.value + lim.maxTimeout + MILLISECOND + d
    ensures run[i].owned[h].c.released
  {
    hide IsRun, AllTimely, AllGood, Conserved;
    RunTimely(lim, run, actions, i);
    TimelyAt(lim, run[i], h);
    if !run[i].owned[h].c.released { NoReservationLeaks(lim, run, actions, i, h); }
  }

  lemma TimelyAt(lim: Limits, w: World, h: nat)
    requires AllTimely(lim, w) && h in w.owned
    ensures Timely(w.owned[h].c, w.now, lim.maxTimeout)
  { }

  /** Once disabled its horizon stands still, so the time by which a cursor is released is known from then on. */
  lemma DisabledRetiredInTime(lim: Limits, run: seq<World>, actions: seq<Action>, i: nat, j: nat, h: nat, d: Time)
    requires IsRun(lim, run, actions) && i <= j < |run| && Disabled(run[i], h)
    requires h in run[j].owned ==> Prompt(run[j].owned[h].c, run[j].now, d)
    requires run[i].owned[h].c.serverUntil.Some?
    requires run[j].now > run[i].owned[h].c.serverUntil.value + lim.maxTimeout + MILLISECOND + d
    ensures h in run[j].owned && run[j].owned[h].c.released
  {
    hide IsRun, Prompt;
    DisabledStays(lim, run, actions, i, j, h);
    RetiredInTime(lim, run, actions, j, h, d);
  }

  // ----- service

  /** None of the actions i..j takes the handle away. */
  ghost predicate Undisturbed(run: seq<World>, actions: seq<Action>, h: nat, i: nat, j: nat)
    requires i <= j <= |actions| <= |run|
  {
    forall k :: i <= k < j && actions[k].Act? && actions[k].h == h && h in run[k].owned
                ==> !EndsService(run[k].owned[h], actions[k].e)
  }

  lemma ServiceStep(lim: Limits, w: World, a: Action, w': World, h: nat, until: Time)
    requires Inv(lim, w) && Next(lim, w, a, w') && h in w.owned && UsableUntil(w.owned[h].c, w.now, until)
    requires a.Act? && a.h == h ==> !EndsService(w.owned[h], a.e)
    ensures h in w'.owned && UsableUntil(w'.owned[h].c, w'.now, until) && w'.owned[h].c.absolute == w.owned[h].c.absolute
  {
    hide Conserved, Good, Step, EndsService;
    match a
    case Wait(later) => { }
    case Act(g, e) =>
      var y :| Step(w.owned[g], w.now, lim.maxTimeout, e, y) && w' == Replaced(w, g, y);
      if g == h {
        StaysUsable(w.owned[h], w.now, lim.maxTimeout, e, y, until);
        StepAbsolute(w.owned[h], w.now, lim.maxTimeout, e, y);
      }
    case Charge(g, charge) =>
      if g == h { SameUntil(w.owned[h].c, w'.owned[h].c, w.now, until); }
    case _ =>
  }

  lemma StepAbsolute(x: Owned, now: Time, maxTimeout: Time, e: Event, y: Owned)
    requires Step(x, now, maxTimeout, e, y)
    ensures y.c.absolute == x.c.absolute
  {
    hide Closed, MayRun, ReplyFits, SameFired, Begin, Cleanup, Recover, Callback, Release, Answered, Usable;
    if e.Answer? { AnswerAbsolute(x, now, e.reply); }
  }

  lemma AnswerAbsolute(x: Owned, now: Time, reply: Reply)
    requires x.pc.Await?
    ensures Answered(x, now, reply).c.absolute == x.c.absolute && Answered(x, now, reply).c.timer == x.c.timer
  { }

  lemma {:induction false} KeptUsable(lim: Limits, run: seq<World>, actions: seq<Action>, i: nat, j: nat, h: nat, until: Time)
    requires IsRun(lim, run, actions) && i <= j < |run| && h in run[i].owned && Undisturbed(run, actions, h, i, j)
    requires UsableUntil(run[i].owned[h].c, run[i].now, until)
    ensures h in run[j].owned && UsableUntil(run[j].owned[h].c, run[j].now, until)
    ensures run[j].owned[h].c.absolute == run[i].owned[h].c.absolute
    decreases j - i
  {
    hide Next, Inv, Init, UsableUntil, EndsService;
    if i < j {
      KeptUsable(lim, run, actions, i, j - 1, h, until);
      RunInv(lim, run, actions, j - 1);
      ServiceStep(lim, run[j - 1], actions[j - 1], run[j], h, until);
    }
  }

  /** In every run, an accepted page keeps its handle usable for the lease it was requested with, within the absolute
      lifetime, whatever other cursors, the timers and the server do meanwhile. */
  lemma PageKeepsServing(lim: Limits, run: seq<World>, actions: seq<Action>, i: nat, j: nat, h: nat, reply: Reply)
    requires IsRun(lim, run, actions) && i < j < |run| && h in run[i].owned
    requires actions[i] == Act(h, Answer(reply)) && Accepted(reply) && Undisturbed(run, actions, h, i + 1, j)
    requires run[i].owned[h].pc.Await? ==> run[j].now <= Min(run[i].now + run[i].owned[h].pc.lease, run[i].owned[h].c.absolute)
    ensures run[i].owned[h].pc.Await? && h in Open(run[j].owned) && Usable(run[j].owned[h].c, run[j].now, true)
  {
    hide Inv, Init, UsableUntil, EndsService, Step, Good, Conserved;
    RunInv(lim, run, actions, i);
    assert Next(lim, run[i], actions[i], run[i + 1]);
    var x := run[i].owned[h];
    var y :| Step(x, run[i].now, lim.maxTimeout, Answer(reply), y) && run[i + 1] == Replaced(run[i], h, y);
    GoodOf(lim, run[i], h);
    AnswerAwaited(x, run[i].now, lim.maxTimeout, reply, y);
    AnswerServes(x, run[i].now, lim.maxTimeout, reply, y);
    var until := Min(run[i].now + x.pc.lease, x.c.absolute);
    KeptUsable(lim, run, actions, i + 1, j, h, until);
    UsableNow(run[j].owned[h].c, run[j].now, until);
  }

  lemma GoodOf(lim: Limits, w: World, h: nat)
    requires Inv(lim, w) && h in w.owned
    ensures Good(w.owned[h], w.now, lim.maxTimeout)
  { }

  lemma AnswerAwaited(x: Owned, now: Time, maxTimeout: Time, reply: Reply, y: Owned)
    requires Step(x, now, maxTimeout, Answer(reply), y)
    ensures x.pc.Await?
  { }

  /** So does a dispatch, from the moment it is sent until its answer, for what was asked. */
  lemma DispatchKeepsServing(lim: Limits, run: seq<World>, actions: seq<Action>, i: nat, j: nat, h: nat, keep: Time)
    requires IsRun(lim, run, actions) && i < j < |run| && h in run[i].owned
    requires actions[i] == Act(h, Dispatch(keep, true)) && Undisturbed(run, actions, h, i + 1, j)
    requires run[i].now + MILLISECOND <= run[i].owned[h].c.absolute
    requires run[j].now <= Min(run[i].now + keep, run[i].owned[h].c.absolute)
    ensures h in Open(run[j].owned) && Usable(run[j].owned[h].c, run[j].now, true)
  {
    hide Inv, Init, UsableUntil, EndsService, Step, Good, Conserved;
    RunInv(lim, run, actions, i);
    assert Next(lim, run[i], actions[i], run[i + 1]);
    var x := run[i].owned[h];
    var y :| Step(x, run[i].now, lim.maxTimeout, Dispatch(keep, true), y) && run[i + 1] == Replaced(run[i], h, y);
    GoodOf(lim, run[i], h);
    DispatchServes(x, run[i].now, lim.maxTimeout, keep, true, y);
    var until := Min(run[i].now + keep, x.c.absolute);
    KeptUsable(lim, run, actions, i + 1, j, h, until);
    UsableNow(run[j].owned[h].c, run[j].now, until);
  }
}
