/** The lease protocol of one owned native cursor: its bookkeeping, the callers that hold its gate, and the server. */
module Cursors {
  import opened Common

  /** Times and durations are nanoseconds. */
  type Time = int

  const MILLISECOND := 1_000_000
  const CLEANUP_TIMEOUT := 5_000 * MILLISECOND

  datatype Kind = Pit | Scroll | Sql

  /** The retirement timer: never set, due at a time, its callback waiting for the gate, or stopped. */
  datatype Timer = Off | Armed(due: Time) | Fired(due: Time) | Stopped

  datatype Cursor = Cursor(
    kind: Kind, invalid: bool, released: bool, uncertain: bool, sqlDone: bool, recoveryQueued: bool,
    ids: seq<string>, bytes: nat, nativeLease: Time,
    expires: Option<Time>, absolute: Time, serverUntil: Option<Time>, retryAfter: Option<Time>, timer: Timer)

  // ----- the operations of the source on the bookkeeping

  function Reserved(kind: Kind, charge: nat, absolute: Time): Cursor {
    Cursor(kind, false, false, false, false, false, [], charge, 0, None, absolute, None, None, Off)
  }

  /** Release is for good, the absolute deadline stands, and the charge changes only through updateCursorQuery. */
  predicate SameCharge(c: Cursor, r: Cursor) { r.bytes == c.bytes && r.absolute == c.absolute && (c.released ==> r.released) }

  /** Only the passing of time makes a timer fire. */
  predicate SameFired(c: Cursor, r: Cursor) { r.timer.Fired? ==> r.timer == c.timer }

  /** Winding a cursor down leaves its horizon alone and enables nothing. */
  predicate WindsDown(c: Cursor, r: Cursor) {
    SameCharge(c, r) && SameFired(c, r) && r.serverUntil == c.serverUntil && (c.invalid ==> r.invalid)
  }

  function Release(c: Cursor): (r: Cursor)
    ensures WindsDown(c, r)
  {
    if c.released then c else c.(released := true, timer := if c.timer.Armed? then Stopped else c.timer)
  }

  /** usableCursor; `intact` says that target, authority and owner are as they were. */
  predicate Usable(c: Cursor, now: Time, intact: bool) {
    !c.released && !c.invalid && intact && c.expires.Some? && now <= c.expires.value && now <= c.absolute
  }

  /** retireCursorAtLeaseEnd. */
  function Retire(c: Cursor, now: Time): (r: Cursor)
    ensures WindsDown(c, r)
  {
    if c.serverUntil.None? || now > c.serverUntil.value then Release(c)
    else if c.timer.Off? then c.(timer := Armed(now + Max(c.serverUntil.value - now, MILLISECOND)))
    else c
  }

  /** The callback of the retirement timer, once it holds the gate. */
  function Callback(c: Cursor, now: Time): (r: Cursor)
    ensures WindsDown(c, r)
  {
    if c.released then c.(timer := Off) else Retire(c.(timer := Off), now)
  }

  predicate MayDispatch(c: Cursor, now: Time, intact: bool) { intact && !c.invalid && c.absolute - now >= MILLISECOND }

  function Keep(c: Cursor, now: Time, keep: Time): Time { Min(keep, c.absolute - now) }

  /** The lease as it is sent: whole milliseconds, at least one. */
  function SentLease(keep: Time): Time { Max(1, keep / MILLISECOND) * MILLISECOND }

  /** beginCursorDispatch past its guards. */
  function Begin(c: Cursor, now: Time, keep: Time, maxTimeout: Time): (r: Cursor)
    ensures SameCharge(c, r) && SameFired(c, r)
  {
    var k := Keep(c, now, keep);
    var lease := Max(c.nativeLease, k);
    Retire(c.(expires := Some(now + k), nativeLease := lease, serverUntil := Some(now + lease + maxTimeout), uncertain := true), now)
  }

  /** captureCursorID for an acceptable identifier: newest first, and its predecessor for the cleanup. */
  function Capture(c: Cursor, id: string): (r: Cursor)
    ensures r.ids != [] && r.ids[0] == id && (c.ids != [] ==> c.ids[0] in r.ids)
    ensures |c.ids| <= 2 ==> |r.ids| <= 2
  {
    c.(uncertain := false,
       ids := if c.ids == [] then [id] else if c.ids[0] == id then c.ids else [id, c.ids[0]])
  }

  /** A page whose response was accepted: the lease now runs from the response at the latest. */
  function Renew(c: Cursor, now: Time, lease: Time): Cursor {
    c.(serverUntil := Some(now + c.nativeLease), expires := Some(Min(now + lease, c.absolute)))
  }

  /** What came of the close request for one identifier. */
  datatype Outcome = NoAnswer | Refused | Confirmed

  /** cleanupCursor, given what would come of closing each identifier. */
  function Cleanup(c: Cursor, now: Time, outcomes: seq<Outcome>): (r: Cursor)
    requires |outcomes| == |c.ids|
    ensures WindsDown(c, r) && r.invalid
  {
    var d := c.(invalid := true);
    if c.released then d
    else if c.serverUntil.None? || now > c.serverUntil.value then Release(d)
    else if c.ids != [] && outcomes[0] == Confirmed && !c.uncertain then Release(d)
    else Retire(d.(retryAfter := Some(now + CLEANUP_TIMEOUT)), now)
  }

  /** Whether cleanupCursor got to talk to the server at all. */
  predicate Contacts(c: Cursor, now: Time) { !c.released && c.serverUntil.Some? && now <= c.serverUntil.value }

  /** recoverCursor: clean up while the request lives, else leave it to the timer and a queued attempt. */
  function Recover(c: Cursor, now: Time, attempt: Option<seq<Outcome>>): (r: Cursor)
    requires attempt.Some? ==> |attempt.value| == |c.ids|
    ensures WindsDown(c, r) && r.invalid
  {
    var d := c.(invalid := true);
    if c.released then d
    else
      var e := if attempt.Some? then Cleanup(d, now, attempt.value) else d;
      if attempt.Some? && e.released then e
      else
        var f := Retire(e, now);
        if f.released then f else f.(recoveryQueued := true)
  }

  // ----- the server's side

  /** A request of which the caller has not seen the response. */
  datatype Pending = Pending(at: Time, processed: bool)

  /** Until when the native context may live, if there is one, and its identifier; the longest lease sent so far; and the
      request in flight. */
  datatype Server = Server(native: Option<Time>, id: string, longest: Time, pending: Option<Pending>)

  const NothingSent := Server(None, "", 0, None)

  /** The caller sends a request with this lease. */
  function Sent(srv: Server, now: Time, lease: Time): Server {
    srv.(longest := Max(srv.longest, lease), pending := Some(Pending(now, false)))
  }

  /** The server carries the request out and may give the context another identifier. A shorter renewal need not shorten
      what an earlier one had asked for, so the context may live for the longest lease sent. */
  function Processed(srv: Server, now: Time, id: string): Server
    requires srv.pending.Some?
  {
    Server(Some(now + srv.longest), id, srv.longest, Some(srv.pending.value.(processed := true)))
  }

  predicate MayRun(srv: Server, now: Time, maxTimeout: Time) {
    srv.pending.Some? && !srv.pending.value.processed && now <= srv.pending.value.at + maxTimeout
  }

  /** The context exists, or a request that would create or extend it may still be carried out. */
  predicate MayBeAlive(srv: Server, now: Time, maxTimeout: Time) {
    (srv.native.Some? && now <= srv.native.value) || MayRun(srv, now, maxTimeout)
  }

  /** Where the holder of the gate stands. Failing means its deferred recovery is still to come. */
  datatype Pc = Free | Opening | Checked | Await(lease: Time) | Paged | Failing

  datatype Owned = Owned(c: Cursor, srv: Server, pc: Pc)

  /** What a response said, in the order in which the source looks at it. */
  datatype Reply =
    | Unreadable                                    // no acceptable identifier could be taken from it
    | Foreign(id: string)                           // identifier taken, but a context of the other kind showed up
    | Page(newId: Option<string>, accepted: bool)   // identifier taken (or unchanged); the rest accepted or not
    | Exhausted(accepted: bool)                     // SQL only: no cursor left

  datatype Event =
    | Dispatch(keep: Time, intact: bool)
    | Answer(reply: Reply)
    | Lost
    | Fail
    | Finish
    | Refuse
    | Recovery(attempt: Option<seq<Outcome>>)
    | Next(intact: bool)
    | Close(outcomes: seq<Outcome>)
    | Reap(intact: bool, attempt: Option<seq<Outcome>>)
    | TimerFires
    | TimerRuns
    | Background(attempt: Option<seq<Outcome>>)
    | ServerRuns(id: string)

  /** Some identifier was confirmed closed, and the context has it. */
  predicate Ended(x: Owned, outcomes: seq<Outcome>)
    requires |outcomes| == |x.c.ids|
  {
    exists i :: 0 <= i < |outcomes| && outcomes[i] == Confirmed && x.c.ids[i] == x.srv.id
  }

  /** A confirmed close ends the context only if it was for the identifier that the context has. */
  function Closed(x: Owned, now: Time, outcomes: seq<Outcome>): Server
    requires |outcomes| == |x.c.ids|
  {
    if Contacts(x.c, now) && Ended(x, outcomes) then x.srv.(native := None) else x.srv
  }

  function Answered(x: Owned, now: Time, reply: Reply): Owned
    requires x.pc.Await?
  {
    var srv := x.srv.(pending := None);
    match reply
    case Unreadable => Owned(x.c, srv, Failing)
    case Foreign(id) => Owned(Capture(x.c, id).(uncertain := true), srv, Failing)
    case Page(newId, accepted) =>
      var c := if newId.Some? then Capture(x.c, newId.value) else x.c.(uncertain := false);
      if accepted then Owned(Renew(c, now, x.pc.lease), srv, Paged) else Owned(c, srv, Failing)
    case Exhausted(accepted) =>
      var c := x.c.(sqlDone := true, uncertain := false);
      if accepted then Owned(Renew(c, now, x.pc.lease), srv.(native := None), Paged)
      else Owned(c, srv.(native := None), Failing)
  }

  /** What a response may say: an identifier in it is the one that the context has now, and only PIT pages may leave it
      out, when it did not change. */
  predicate ReplyFits(x: Owned, reply: Reply) {
    match reply
    case Page(Some(id), _) => id == x.srv.id
    case Page(None, _) => x.c.kind == Pit && x.c.ids != [] && x.c.ids[0] == x.srv.id
    case Exhausted(_) => x.c.kind == Sql
    case _ => true
  }

  predicate Attempts(c: Cursor, outcomes: Option<seq<Outcome>>) { outcomes.Some? ==> |outcomes.value| == |c.ids| }

  /** One atomic step that concerns this cursor. */
  ghost predicate Step(x: Owned, now: Time, maxTimeout: Time, e: Event, y: Owned) {
    match e
    case Dispatch(keep, intact) =>
      && x.pc in {Opening, Checked, Paged} && !x.c.sqlDone && keep >= MILLISECOND
      && y == if MayDispatch(x.c, now, intact)
              then Owned(Begin(x.c, now, keep, maxTimeout), Sent(x.srv, now, SentLease(Keep(x.c, now, keep))),
                         Await(SentLease(Keep(x.c, now, keep))))
              else x.(pc := Failing)
    case Answer(reply) =>
      x.pc.Await? && x.srv.pending.Some? && x.srv.pending.value.processed && ReplyFits(x, reply) && y == Answered(x, now, reply)
    case Lost => x.pc.Await? && y == x.(pc := Failing)
    case Fail => x.pc in {Opening, Checked, Paged} && y == x.(pc := Failing)
    case Finish => x.pc == Paged && y == Owned(if x.c.sqlDone then Release(x.c) else x.c, x.srv, Free)
    case Refuse => x.pc == Checked && y == x.(pc := Free)
    case Recovery(attempt) =>
      && x.pc in {Failing, Paged} && Attempts(x.c, attempt)
      && y == Owned(Recover(x.c, now, attempt), if attempt.Some? then Closed(x, now, attempt.value) else x.srv, Free)
    case Next(intact) => x.pc == Free && y == x.(pc := if Usable(x.c, now, intact) then Checked else Failing)
    case Close(outcomes) =>
      x.pc in {Free, Paged} && |outcomes| == |x.c.ids| && y == Owned(Cleanup(x.c, now, outcomes), Closed(x, now, outcomes), Free)
    case Reap(intact, attempt) =>
      && x.pc == Free && Attempts(x.c, attempt)
      && y == if Usable(x.c, now, intact) || (x.c.retryAfter.Some? && now < x.c.retryAfter.value) || attempt.None? then x
              else Owned(Cleanup(x.c, now, attempt.value), Closed(x, now, attempt.value), Free)
    case TimerFires => x.c.timer.Armed? && now >= x.c.timer.due && y == x.(c := x.c.(timer := Fired(x.c.timer.due)))
    case TimerRuns => x.c.timer.Fired? && x.pc == Free && y == x.(c := Callback(x.c, now))
    case Background(attempt) =>
      && x.c.recoveryQueued && x.pc == Free && Attempts(x.c, attempt)
      && y == if attempt.None? then x
              else Owned(Cleanup(x.c.(recoveryQueued := false), now, attempt.value), Closed(x, now, attempt.value), Free)
    case ServerRuns(id) => MayRun(x.srv, now, maxTimeout) && y == x.(srv := Processed(x.srv, now, id))
  }

  // ----- what every step keeps

  ghost predicate Resolved(srv: Server) { srv.pending.None? || srv.pending.value.processed }

  /** The horizon covers everything the server may still do for this cursor, and the handle expires within it. */
  ghost predicate Covered(x: Owned, now: Time, maxTimeout: Time)
    requires x.c.serverUntil.Some?
  {
    var until := x.c.serverUntil.value;
    && (x.srv.native.Some? ==> x.srv.native.value <= until && x.srv.native.value <= now + x.srv.longest)
    && (x.srv.pending.Some? ==> x.srv.pending.value.at <= now)
    && (!Resolved(x.srv) ==> x.srv.pending.value.at + maxTimeout + x.c.nativeLease <= until)
    && x.c.expires.Some? && x.c.expires.value <= until && x.c.expires.value <= x.c.absolute
  }

  ghost predicate Good(x: Owned, now: Time, maxTimeout: Time) {
    && maxTimeout > 0 && x.c.nativeLease >= 0 && x.srv.longest <= x.c.nativeLease < x.srv.longest + MILLISECOND
    && (x.c.serverUntil.None? ==> x.srv == NothingSent && x.c.timer.Off? && x.c.ids == [] && x.c.expires.None?
                                  && x.pc in {Opening, Failing, Free} && !x.c.recoveryQueued)
    && (x.c.serverUntil.Some? && !x.c.released ==> Covered(x, now, maxTimeout) && (x.c.timer.Armed? || x.c.timer.Fired?))
    && (x.c.released ==> !MayBeAlive(x.srv, now, maxTimeout) && (x.pc == Free || x.pc == Failing))
    && (!x.c.uncertain ==> Resolved(x.srv))
    && (!x.c.uncertain && x.srv.native.Some? ==> x.c.ids != [] && x.c.ids[0] == x.srv.id)
    && (x.c.recoveryQueued ==> x.c.invalid)
    && (x.pc.Await? ==> x.srv.pending.Some? && !x.c.invalid && x.pc.lease <= x.c.nativeLease)
    && (x.pc in {Opening, Checked, Paged} ==> !x.c.invalid && x.srv.pending.None?)
    && (x.pc == Free && !x.c.invalid && !x.c.released ==> x.srv.pending.None? && x.c.serverUntil.Some? && !x.c.sqlDone)
    && (x.pc == Opening || x.pc == Checked || x.pc.Await? ==> !x.c.sqlDone)
    && (x.c.sqlDone && x.pc == Paged ==> x.srv.native.None?)
    && (x.c.serverUntil.None? && x.pc == Free ==> x.c.released)
  }

  lemma GoodReserved(kind: Kind, charge: nat, absolute: Time, now: Time, maxTimeout: Time)
    requires maxTimeout > 0
    ensures Good(Owned(Reserved(kind, charge, absolute), NothingSent, Opening), now, maxTimeout)
  { }

  /** Time passing spoils nothing. */
  lemma GoodLater(x: Owned, now: Time, later: Time, maxTimeout: Time)
    requires Good(x, now, maxTimeout) && now <= later
    ensures Good(x, later, maxTimeout)
  { }

  lemma DispatchGood(x: Owned, now: Time, maxTimeout: Time, keep: Time)
    requires Good(x, now, maxTimeout) && x.pc in {Opening, Checked, Paged} && !x.c.sqlDone
    requires keep >= MILLISECOND && MayDispatch(x.c, now, true)
    ensures Good(Owned(Begin(x.c, now, keep, maxTimeout), Sent(x.srv, now, SentLease(Keep(x.c, now, keep))),
                       Await(SentLease(Keep(x.c, now, keep)))), now, maxTimeout)
  { }

  lemma AnswerGood(x: Owned, now: Time, maxTimeout: Time, reply: Reply)
    requires Good(x, now, maxTimeout) && x.pc.Await? && x.srv.pending.Some? && x.srv.pending.value.processed
    requires ReplyFits(x, reply)
    ensures Good(Answered(x, now, reply), now, maxTimeout)
  { }

  lemma CleanupGood(x: Owned, now: Time, maxTimeout: Time, outcomes: seq<Outcome>)
    requires Good(x, now, maxTimeout) && x.pc in {Free, Paged, Failing} && |outcomes| == |x.c.ids|
    ensures Good(Owned(Cleanup(x.c, now, outcomes), Closed(x, now, outcomes), Free), now, maxTimeout)
  { }

  lemma LeaveToTimer(x: Owned, now: Time, maxTimeout: Time)
    requires Good(x, now, maxTimeout) && x.pc in {Free, Paged, Failing} && !x.c.released
    ensures var f := Retire(x.c.(invalid := true), now);
            Good(Owned(if f.released then f else f.(recoveryQueued := true), x.srv, Free), now, maxTimeout)
  { }

  lemma RecoverGood(x: Owned, now: Time, maxTimeout: Time, attempt: Option<seq<Outcome>>)
    requires Good(x, now, maxTimeout) && x.pc in {Paged, Failing} && Attempts(x.c, attempt)
    ensures Good(Owned(Recover(x.c, now, attempt), if attempt.Some? then Closed(x, now, attempt.value) else x.srv, Free), now, maxTimeout)
  {
    hide Good, Closed, Retire;
    var d := x.c.(invalid := true);
    if x.c.released {
      StaysDisabled(x, now, maxTimeout, attempt);
    } else if attempt.None? {
      LeaveToTimer(x, now, maxTimeout);
    } else {
      assert Cleanup(d, now, attempt.value) == Cleanup(x.c, now, attempt.value);
      CleanupGood(x, now, maxTimeout, attempt.value);
      hide Cleanup;
      var y := Owned(Cleanup(x.c, now, attempt.value), Closed(x, now, attempt.value), Free);
      if !y.c.released {
        LeaveToTimer(y, now, maxTimeout);
        assert y.c.(invalid := true) == y.c by { CleanupInvalid(x.c, now, attempt.value); }
      }
    }
  }

  lemma CleanupInvalid(c: Cursor, now: Time, outcomes: seq<Outcome>)
    requires |outcomes| == |c.ids|
    ensures Cleanup(c, now, outcomes).invalid
  { }

  lemma StaysDisabled(x: Owned, now: Time, maxTimeout: Time, attempt: Option<seq<Outcome>>)
    requires Good(x, now, maxTimeout) && x.pc in {Paged, Failing} && x.c.released && Attempts(x.c, attempt)
    ensures Good(Owned(x.c.(invalid := true), if attempt.Some? then Closed(x, now, attempt.value) else x.srv, Free), now, maxTimeout)
  { }

  /** Every step of every caller, of the timer and of the server keeps the protocol's invariant. */
  lemma StepGood(x: Owned, now: Time, maxTimeout: Time, e: Event, y: Owned)
    requires Good(x, now, maxTimeout) && Step(x, now, maxTimeout, e, y)
    ensures Good(y, now, maxTimeout)
  {
    match e
    case Dispatch(keep, intact) =>
      hide Good, Begin;
      if MayDispatch(x.c, now, intact) { DispatchGood(x, now, maxTimeout, keep); } else { MovesGood(x, now, maxTimeout, e, y); }
    case Answer(reply) =>
      hide Good, Answered;
      AnswerGood(x, now, maxTimeout, reply);
    case Recovery(attempt) =>
      hide Good, Recover, Closed;
      RecoverGood(x, now, maxTimeout, attempt);
    case Close(outcomes) =>
      hide Good, Cleanup, Closed;
      CleanupGood(x, now, maxTimeout, outcomes);
    case Reap(intact, attempt) =>
      hide Good, Cleanup, Closed;
      if attempt.Some? { CleanupGood(x, now, maxTimeout, attempt.value); }
    case Background(attempt) =>
      BackgroundGood(x, now, maxTimeout, attempt, y);
    case _ =>
      MovesGood(x, now, maxTimeout, e, y);
  }

  lemma BackgroundGood(x: Owned, now: Time, maxTimeout: Time, attempt: Option<seq<Outcome>>, y: Owned)
    requires Good(x, now, maxTimeout) && Step(x, now, maxTimeout, Background(attempt), y)
    ensures Good(y, now, maxTimeout)
  {
    if attempt.Some? {
      var d := x.(c := x.c.(recoveryQueued := false));
      assert Good(d, now, maxTimeout);
      CleanupGood(d, now, maxTimeout, attempt.value);
    }
  }

  lemma MovesGood(x: Owned, now: Time, maxTimeout: Time, e: Event, y: Owned)
    requires Good(x, now, maxTimeout) && Step(x, now, maxTimeout, e, y)
    requires match e
             case Answer(_) => false case Recovery(_) => false case Close(_) => false
             case Reap(_, _) => false case Background(_) => false
             case Dispatch(_, intact) => !MayDispatch(x.c, now, intact)
             case _ => true
    ensures Good(y, now, maxTimeout)
  {
    hide Cleanup, Recover, Closed, Answered, Begin, ReplyFits;
  }

  // ----- the three promises about one cursor

  /** Why a step may give up the slot and memory of a cursor. */
  ghost predicate Justified(x: Owned, now: Time, e: Event) {
    || x.c.serverUntil.None?                                     // nothing was ever dispatched
    || now > x.c.serverUntil.value                               // past the horizon
    || (x.c.sqlDone && e == Finish)                              // SQL reported exhaustion
    || (!x.c.uncertain && x.c.ids != [] && match e               // the newest identifier was confirmed closed
        case Close(outcomes) => outcomes != [] && outcomes[0] == Confirmed
        case Recovery(attempt) => attempt.Some? && attempt.value != [] && attempt.value[0] == Confirmed
        case Reap(_, attempt) => attempt.Some? && attempt.value != [] && attempt.value[0] == Confirmed
        case Background(attempt) => attempt.Some? && attempt.value != [] && attempt.value[0] == Confirmed
        case _ => false)
  }

  lemma ReleaseJustified(x: Owned, now: Time, maxTimeout: Time, e: Event, y: Owned)
    requires Good(x, now, maxTimeout) && Step(x, now, maxTimeout, e, y) && !x.c.released && y.c.released
    ensures Justified(x, now, e)
  { }

  /** The steps that wind a cursor down, as far as they get to do so. */
  predicate WindsUp(x: Owned, now: Time, e: Event) {
    match e
    case Close(_) => true
    case Recovery(_) => true
    case Background(attempt) => attempt.Some?
    case Reap(intact, attempt) =>
      attempt.Some? && !Usable(x.c, now, intact) && !(x.c.retryAfter.Some? && now < x.c.retryAfter.value)
    case TimerRuns => true
    case Finish => x.c.sqlDone
    case _ => false
  }

  /** Whenever one of them has a reason to release, it does: nothing is held longer than the reasons demand. */
  lemma ReleasedWhenJustified(x: Owned, now: Time, maxTimeout: Time, e: Event, y: Owned)
    requires Good(x, now, maxTimeout) && Step(x, now, maxTimeout, e, y) && WindsUp(x, now, e) && Justified(x, now, e)
    ensures y.c.released
  {
    hide Good, Covered, Closed, MayRun, MayBeAlive;
  }

  /** A recovery that could not release leaves a disabled cursor with a cleanup queued; so does a failed close, for its
      owner or the reaper to try again after the time a cleanup may take. */
  lemma CleanupIsTriedAgain(x: Owned, now: Time, maxTimeout: Time, e: Event, y: Owned)
    requires Good(x, now, maxTimeout) && Step(x, now, maxTimeout, e, y) && !y.c.released
    ensures e.Recovery? ==> y.c.invalid && y.c.recoveryQueued
    ensures e.Close? ==> y.c.invalid && y.c.retryAfter == Some(now + CLEANUP_TIMEOUT)
  {
    hide Good, Covered, Closed, MayRun, MayBeAlive;
  }

  /** Once disabled or released, a cursor stays so and sends nothing more. */
  lemma DisabledForGood(x: Owned, now: Time, maxTimeout: Time, e: Event, y: Owned)
    requires Good(x, now, maxTimeout) && Step(x, now, maxTimeout, e, y) && (x.c.invalid || x.c.released)
    ensures (x.c.invalid ==> y.c.invalid) && (x.c.released ==> y.c.released)
    ensures MayRun(y.srv, now, maxTimeout) ==> MayRun(x.srv, now, maxTimeout)
    ensures y.c.serverUntil == x.c.serverUntil && !y.pc.Await?
  {
    hide Cleanup, Recover, Callback, Covered, MayBeAlive;
  }

  /** The horizon never frees a handle that would still be accepted. */
  lemma HorizonSparesUsable(x: Owned, now: Time, maxTimeout: Time, intact: bool)
    requires Good(x, now, maxTimeout) && Usable(x.c, now, intact)
    ensures !Callback(x.c, now).released && !Retire(x.c, now).released
  { }

  // ----- service

  /** From now until then the handle is accepted, as long as owner and authority stay as they are. */
  ghost predicate UsableUntil(c: Cursor, now: Time, until: Time) {
    forall later :: now <= later <= until ==> Usable(c, later, true)
  }

  predicate Accepted(reply: Reply) { (reply.Page? || reply.Exhausted?) && reply.accepted }

  /** A dispatch asks for whole milliseconds of what was wanted and never for more than the absolute lifetime has left;
      until then the handle is usable. */
  lemma DispatchServes(x: Owned, now: Time, maxTimeout: Time, keep: Time, intact: bool, y: Owned)
    requires Good(x, now, maxTimeout) && Step(x, now, maxTimeout, Dispatch(keep, intact), y)
    ensures y.pc.Await? <==> intact && now + MILLISECOND <= x.c.absolute
    ensures y.pc.Await? ==> UsableUntil(y.c, now, Min(now + keep, x.c.absolute))
    ensures y.pc.Await? ==> y.pc.lease % MILLISECOND == 0 && y.pc.lease > 0
    ensures y.pc.Await? ==> y.pc.lease <= Min(keep, x.c.absolute - now) < y.pc.lease + MILLISECOND
  {
    hide Covered, MayBeAlive, Resolved;
  }

  /** An accepted page gives the handle its whole lease again, within the absolute lifetime. Every answer that names the
      context, accepted or not, ends the uncertainty about it: a close of the newest identifier will do. */
  lemma AnswerServes(x: Owned, now: Time, maxTimeout: Time, reply: Reply, y: Owned)
    requires Good(x, now, maxTimeout) && Step(x, now, maxTimeout, Answer(reply), y)
    ensures Accepted(reply) ==> y.pc == Paged && UsableUntil(y.c, now, Min(now + x.pc.lease, x.c.absolute))
    ensures reply.Page? ==> !y.c.uncertain && y.c.ids != [] && y.c.ids[0] == y.srv.id
    ensures reply.Exhausted? ==> !y.c.uncertain && y.srv.native.None?
  {
    hide Covered, MayBeAlive, Resolved;
  }

  /** What takes a usable handle away: another dispatch, its answer, closing, giving up, the reaper when owner or authority
      changed, and the end of an SQL result. */
  predicate EndsService(x: Owned, e: Event) {
    match e
    case Dispatch(_, _) => true
    case Answer(_) => true
    case Close(_) => true
    case Recovery(_) => true
    case Reap(intact, _) => !intact
    case Finish => x.c.sqlDone
    case _ => false
  }

  predicate SameUse(c: Cursor, r: Cursor) {
    r.released == c.released && r.invalid == c.invalid && r.expires == c.expires && r.absolute == c.absolute
  }

  /** No other step does, the timer included. */
  lemma StaysUsable(x: Owned, now: Time, maxTimeout: Time, e: Event, y: Owned, until: Time)
    requires Good(x, now, maxTimeout) && Step(x, now, maxTimeout, e, y) && !EndsService(x, e)
    requires UsableUntil(x.c, now, until)
    ensures UsableUntil(y.c, now, until)
  {
    hide UsableUntil;
    if now <= until {
      assert Usable(x.c, now, true) by { UsableNow(x.c, now, until); }
      SameService(x, now, maxTimeout, e, y);
      SameUntil(x.c, y.c, now, until);
    } else {
      assert UsableUntil(y.c, now, until) by { NothingUntil(y.c, now, until); }
    }
  }

  lemma UsableNow(c: Cursor, now: Time, until: Time)
    requires UsableUntil(c, now, until) && now <= until
    ensures Usable(c, now, true)
  { }

  lemma NothingUntil(c: Cursor, now: Time, until: Time)
    requires until < now
    ensures UsableUntil(c, now, until)
  { }

  lemma SameUntil(c: Cursor, r: Cursor, now: Time, until: Time)
    requires UsableUntil(c, now, until) && SameUse(c, r)
    ensures UsableUntil(r, now, until)
  {
    forall later | now <= later <= until ensures Usable(r, later, true) { assert Usable(c, later, true); }
  }

  lemma SameService(x: Owned, now: Time, maxTimeout: Time, e: Event, y: Owned)
    requires Good(x, now, maxTimeout) && Step(x, now, maxTimeout, e, y) && !EndsService(x, e)
    requires Usable(x.c, now, true)
    ensures SameUse(x.c, y.c)
  {
    hide Cleanup, Recover, Closed, MayBeAlive, Resolved, ReplyFits;
  }

  // ----- retirement

  /** How many more callbacks of the retirement timer it takes at most. */
  function CallbacksLeft(c: Cursor): nat {
    if c.released || c.serverUntil.None? then 0
    else match c.timer
      case Armed(due) => if due > c.serverUntil.value then 1 else if due == c.serverUntil.value then 2 else 3
      case Fired(due) => if due > c.serverUntil.value then 1 else if due == c.serverUntil.value then 2 else 3
      case _ => 4
  }

  /** A fired callback is never ahead of its due time. */
  ghost predicate OnTime(c: Cursor, now: Time) { c.timer.Fired? ==> c.timer.due <= now }

  /** Cleaning up and recovering either release or leave a running timer as it is. */
  lemma TimerUntouched(c: Cursor, now: Time, outcomes: seq<Outcome>, attempt: Option<seq<Outcome>>)
    requires (c.timer.Armed? || c.timer.Fired?) && |outcomes| == |c.ids| && Attempts(c, attempt)
    ensures Cleanup(c, now, outcomes).timer == c.timer || (Cleanup(c, now, outcomes).released && Cleanup(c, now, outcomes).timer == Stopped)
    ensures Recover(c, now, attempt).timer == c.timer || (Recover(c, now, attempt).released && Recover(c, now, attempt).timer == Stopped)
  { }

  lemma CallbackProgress(c: Cursor, now: Time)
    requires c.timer.Fired? && c.timer.due <= now && c.serverUntil.Some? && !c.released
    ensures !Callback(c, now).timer.Fired?
    ensures Callback(c, now).released || Callback(c, now).timer == Armed(Max(c.serverUntil.value, now + MILLISECOND))
    ensures CallbacksLeft(Callback(c, now)) < CallbacksLeft(c)
    ensures CallbacksLeft(Callback(c, now)) == 0 <==> Callback(c, now).released
  { }

  /** Apart from dispatches and their answers, steps only bring retirement closer; each callback by at least one. */
  lemma RetirementProgress(x: Owned, now: Time, maxTimeout: Time, e: Event, y: Owned)
    requires Good(x, now, maxTimeout) && OnTime(x.c, now) && Step(x, now, maxTimeout, e, y)
    requires !e.Dispatch? && !e.Answer? && x.c.serverUntil.Some? && !x.c.released
    ensures OnTime(y.c, now) && CallbacksLeft(y.c) <= CallbacksLeft(x.c) <= 3
    ensures e == TimerRuns ==> CallbacksLeft(y.c) < CallbacksLeft(x.c)
    ensures e == TimerRuns && !y.c.released ==> y.c.timer == Armed(Max(x.c.serverUntil.value, now + MILLISECOND))
    ensures CallbacksLeft(y.c) == 0 <==> y.c.released
  {
    hide Cleanup, Recover, Callback, Closed, Covered, MayBeAlive, Resolved;
    match e
    case TimerRuns => CallbackProgress(x.c, now);
    case Recovery(attempt) => TimerUntouched(x.c, now, seq(|x.c.ids|, i => NoAnswer), attempt);
    case Close(outcomes) => TimerUntouched(x.c, now, outcomes, None);
    case Reap(_, attempt) => if attempt.Some? { TimerUntouched(x.c, now, attempt.value, None); }
    case Background(attempt) => if attempt.Some? { TimerUntouched(x.c.(recoveryQueued := false), now, attempt.value, None); }
    case _ =>
  }

  // ----- retirement in time

  /** The timer is never due later than the longest timeout, and the millisecond it waits at least, after the horizon. */
  ghost predicate Timely(c: Cursor, now: Time, maxTimeout: Time) {
    c.serverUntil.Some? ==>
      var until := c.serverUntil.value;
      && until <= now + c.nativeLease + maxTimeout
      && (c.timer.Armed? || c.timer.Fired? ==>
            c.timer.due <= now + c.nativeLease + maxTimeout + MILLISECOND && c.timer.due <= until + maxTimeout + MILLISECOND)
  }

  lemma RetireTimely(c: Cursor, now: Time, maxTimeout: Time)
    requires Timely(c, now, maxTimeout) && maxTimeout > 0 && c.nativeLease >= 0
    ensures Timely(Retire(c, now), now, maxTimeout)
  { }

  lemma BeginTimely(c: Cursor, now: Time, keep: Time, maxTimeout: Time)
    requires Timely(c, now, maxTimeout) && maxTimeout > 0 && c.nativeLease >= 0 && (c.serverUntil.None? ==> c.timer.Off?)
    ensures Timely(Begin(c, now, keep, maxTimeout), now, maxTimeout)
  {
    var k := Keep(c, now, keep);
    var lease := Max(c.nativeLease, k);
    RetireTimely(c.(expires := Some(now + k), nativeLease := lease, serverUntil := Some(now + lease + maxTimeout), uncertain := true),
                 now, maxTimeout);
  }

  lemma RenewTimely(c: Cursor, now: Time, lease: Time, maxTimeout: Time)
    requires Timely(c, now, maxTimeout) && maxTimeout > 0 && c.serverUntil.Some?
    ensures Timely(Renew(c, now, lease), now, maxTimeout)
  { }

  lemma SameTimes(c: Cursor, r: Cursor, now: Time, maxTimeout: Time)
    requires Timely(c, now, maxTimeout) && r.serverUntil == c.serverUntil && r.nativeLease == c.nativeLease && r.timer == c.timer
    ensures Timely(r, now, maxTimeout)
  { }

  lemma AnswerTimely(x: Owned, now: Time, maxTimeout: Time, reply: Reply)
    requires Good(x, now, maxTimeout) && Timely(x.c, now, maxTimeout) && x.pc.Await?
    ensures Timely(Answered(x, now, reply).c, now, maxTimeout)
  {
    hide Good, Timely, Renew;
    GoodTimes(x, now, maxTimeout);
    match reply
    case Unreadable => { }
    case Foreign(id) => SameTimes(x.c, Capture(x.c, id).(uncertain := true), now, maxTimeout);
    case Page(newId, _) =>
      var c := if newId.Some? then Capture(x.c, newId.value) else x.c.(uncertain := false);
      SameTimes(x.c, c, now, maxTimeout);
      RenewTimely(c, now, x.pc.lease, maxTimeout);
    case Exhausted(_) =>
      var c := x.c.(sqlDone := true, uncertain := false);
      SameTimes(x.c, c, now, maxTimeout);
      RenewTimely(c, now, x.pc.lease, maxTimeout);
  }

  lemma GoodTimes(x: Owned, now: Time, maxTimeout: Time)
    requires Good(x, now, maxTimeout)
    ensures maxTimeout > 0 && x.c.nativeLease >= 0 && (x.c.serverUntil.None? ==> x.c.timer.Off? && !x.pc.Await?)
  { }

  lemma CleanupTimely(c: Cursor, now: Time, maxTimeout: Time, outcomes: seq<Outcome>)
    requires Timely(c, now, maxTimeout) && maxTimeout > 0 && c.nativeLease >= 0 && |outcomes| == |c.ids|
    ensures Timely(Cleanup(c, now, outcomes), now, maxTimeout) && Cleanup(c, now, outcomes).nativeLease == c.nativeLease
  {
    RetireTimely(c.(invalid := true, retryAfter := Some(now + CLEANUP_TIMEOUT)), now, maxTimeout);
  }

  lemma RecoverTimely(c: Cursor, now: Time, maxTimeout: Time, attempt: Option<seq<Outcome>>)
    requires Timely(c, now, maxTimeout) && maxTimeout > 0 && c.nativeLease >= 0 && Attempts(c, attempt)
    ensures Timely(Recover(c, now, attempt), now, maxTimeout)
  {
    hide Cleanup, Retire;
    var d := c.(invalid := true);
    if attempt.Some? {
      CleanupTimely(d, now, maxTimeout, attempt.value);
      RetireTimely(Cleanup(d, now, attempt.value), now, maxTimeout);
    } else {
      RetireTimely(d, now, maxTimeout);
    }
  }

  lemma TimelyStep(x: Owned, now: Time, maxTimeout: Time, e: Event, y: Owned)
    requires Good(x, now, maxTimeout) && Timely(x.c, now, maxTimeout) && Step(x, now, maxTimeout, e, y)
    ensures Timely(y.c, now, maxTimeout)
  {
    hide Good, Begin, Cleanup, Recover, Retire, Answered, Closed;
    GoodTimes(x, now, maxTimeout);
    match e
    case Dispatch(keep, intact) => BeginTimely(x.c, now, keep, maxTimeout);
    case Answer(reply) => AnswerTimely(x, now, maxTimeout, reply);
    case Recovery(attempt) => RecoverTimely(x.c, now, maxTimeout, attempt);
    case Close(outcomes) => CleanupTimely(x.c, now, maxTimeout, outcomes);
    case Reap(_, attempt) => if attempt.Some? { CleanupTimely(x.c, now, maxTimeout, attempt.value); }
    case Background(attempt) =>
      if attempt.Some? { CleanupTimely(x.c.(recoveryQueued := false), now, maxTimeout, attempt.value); }
    case TimerRuns => RetireTimely(x.c.(timer := Off), now, maxTimeout);
    case _ =>
  }

  // ----- one cursor's life

  const SECOND := 1_000 * MILLISECOND

  /** The steps from a reservation to a page that was accepted. */
  lemma OpenedContext() returns (reserved: Owned, sent: Owned, run: Owned, paged: Owned, open: Owned)
    ensures reserved == Owned(Reserved(Pit, 1, 3_600 * SECOND), NothingSent, Opening)
    ensures Step(reserved, 0, 10 * SECOND, Dispatch(60 * SECOND, true), sent)
    ensures Step(sent, 0, 10 * SECOND, ServerRuns("p"), run)
    ensures Step(run, SECOND, 10 * SECOND, Answer(Page(Some("p"), true)), paged)
    ensures Step(paged, SECOND, 10 * SECOND, Finish, open)
    ensures open.pc == Free && !open.c.invalid && !open.c.released && open.c.timer == Armed(70 * SECOND)
    ensures open.c.serverUntil == Some(61 * SECOND) && open.srv == Server(Some(60 * SECOND), "p", 60 * SECOND, None)
  {
    var lease := 60 * SECOND;
    reserved := Owned(Reserved(Pit, 1, 3_600 * SECOND), NothingSent, Opening);
    sent := Owned(Begin(reserved.c, 0, lease, 10 * SECOND), Sent(NothingSent, 0, lease), Await(lease));
    run := sent.(srv := Processed(sent.srv, 0, "p"));
    paged := Answered(run, SECOND, Page(Some("p"), true));
    open := paged.(pc := Free);
  }

  /** The horizon at work: the owner of the opened context goes away and the handle is disabled after a second, when
      the context may live for another minute; the reservation stays until the timer has fired and its callback ran. */
  lemma AbandonedContext() returns (open: Owned, failing: Owned, disabled: Owned, fired: Owned, gone: Owned)
    ensures Step(open, SECOND, 10 * SECOND, Next(false), failing)
    ensures Step(failing, SECOND, 10 * SECOND, Recovery(None), disabled)
    ensures Step(disabled, 70 * SECOND, 10 * SECOND, TimerFires, fired)
    ensures Step(fired, 70 * SECOND, 10 * SECOND, TimerRuns, gone)
    ensures disabled.c.invalid && !disabled.c.released && MayBeAlive(disabled.srv, 60 * SECOND, 10 * SECOND)
    ensures !fired.c.released && gone.c.released && !MayBeAlive(gone.srv, 70 * SECOND, 10 * SECOND)
  {
    var reserved, sent, run, paged;
    reserved, sent, run, paged, open := OpenedContext();
    failing := open.(pc := Failing);
    disabled := Owned(Recover(failing.c, SECOND, None), failing.srv, Free);
    fired := disabled.(c := disabled.c.(timer := Fired(70 * SECOND)));
    gone := fired.(c := Callback(fired.c, 70 * SECOND));
  }
}
