/** The cursor registry as the source writes it: cursor fields, the handle map and two semaphores updated in place. */
module CursorObjects {
  import opened Common
  import opened Cursors
  import opened CursorRuns

  /** golang.org/x/sync/semaphore.Weighted as used here: nobody ever waits. */
  class Semaphore {
    const size: int
    var held: int

    constructor (size: int)
      ensures this.size == size && held == 0
    {
      this.size, held := size, 0;
    }

    method TryAcquire(n: nat) returns (ok: bool)
      modifies this
      ensures ok <==> old(held) + n <= size
      ensures held == old(held) + if ok then n else 0
    {
      ok := held + n <= size;
      if ok { held := held + n; }
    }

    /** Releasing more than is held would be a fault of the caller. */
    method Release(n: nat)
      requires n <= held
      modifies this
      ensures held == old(held) - n
    {
      held := held - n;
    }
  }

  class OwnedCursor {
    const handle: nat
    const kind: Kind
    const absolute: Time
    var invalid: bool
    var released: bool
    var uncertain: bool
    var sqlDone: bool
    var recoveryQueued: bool
    var ids: seq<string>
    var bytes: nat
    var nativeLease: Time
    var expires: Option<Time>
    var serverUntil: Option<Time>
    var retryAfter: Option<Time>
    var timer: Timer

    ghost function View(): Cursor
      reads this
    {
      Cursor(kind, invalid, released, uncertain, sqlDone, recoveryQueued, ids, bytes, nativeLease, expires, absolute,
             serverUntil, retryAfter, timer)
    }

    constructor (handle: nat, kind: Kind, charge: nat, absolute: Time)
      ensures View() == Reserved(kind, charge, absolute) && this.handle == handle
    {
      this.handle, this.kind, this.absolute, bytes := handle, kind, absolute, charge;
      invalid, released, uncertain, sqlDone, recoveryQueued := false, false, false, false, false;
      ids, nativeLease, expires, serverUntil, retryAfter, timer := [], 0, None, None, None, Off;
    }

    /** captureCursorID after the identifier passed its checks. */
    method Capture(id: string)
      modifies this
      ensures View() == Cursors.Capture(old(View()), id)
    {
      if |ids| == 0 || ids[0] != id {
        if |ids| == 0 { ids := [id]; } else { ids := [id, ids[0]]; }
      }
      uncertain := false;
    }

    /** The tail of a page request whose response was accepted. */
    method Renew(now: Time, lease: Time)
      modifies this
      ensures View() == Cursors.Renew(old(View()), now, lease)
    {
      serverUntil := Some(now + nativeLease);
      expires := Some(Min(now + lease, absolute));
    }
  }

  predicate AcceptableId(id: string, maxBytes: nat) {
    && id != "" && id != "_all" && |id| <= maxBytes
    && forall i :: 0 <= i < |id| ==> 'a' <= id[i] <= 'z' || 'A' <= id[i] <= 'Z' || '0' <= id[i] <= '9' || id[i] in "+/=_-"
  }

  lemma Recharge(m: map<nat, int>, h: nat, charge: int)
    requires h in m
    ensures Total(m[h := charge]) == Total(m) - m[h] + charge
  {
    TotalRemove(m, h);
    TotalRemove(m[h := charge], h);
    assert m[h := charge] - {h} == m - {h};
  }

  lemma SizeAdd(m: map<nat, OwnedCursor>, h: nat, c: OwnedCursor)
    requires h !in m
    ensures |m[h := c]| == |m| + 1
  {
    assert m[h := c].Keys == m.Keys + {h};
  }

  lemma SizeRemove(m: map<nat, OwnedCursor>, h: nat)
    requires h in m
    ensures |m - {h}| == |m| - 1
  {
    assert m.Keys == (m - {h}).Keys + {h};
  }

  /** One target's handles together with the process-wide semaphores. */
  class Registry {
    const slots: Semaphore
    const memory: Semaphore
    const maxOpen: nat
    const maxTimeout: Time
    const maxIdBytes: nat
    var closed: bool
    var cursors: map<nat, OwnedCursor>

    constructor (slots: Semaphore, memory: Semaphore, maxOpen: nat, maxTimeout: Time, maxIdBytes: nat)
      ensures this.slots == slots && this.memory == memory && cursors == map[] && !closed
      ensures this.maxOpen == maxOpen && this.maxTimeout == maxTimeout && this.maxIdBytes == maxIdBytes
    {
      this.slots, this.memory, this.maxOpen := slots, memory, maxOpen;
      this.maxTimeout, this.maxIdBytes, cursors, closed := maxTimeout, maxIdBytes, map[], false;
    }

    ghost function Charges(): map<nat, int>
      reads this, cursors.Values
    {
      map h | h in cursors :: cursors[h].bytes
    }

    /** What the semaphores hold beside this registry's cursors: the reservations of other targets. */
    ghost function Others(): (int, int)
      reads this, slots, memory, cursors.Values
    {
      (slots.held - |cursors|, memory.held - Total(Charges()))
    }

    /** Every registered cursor is open, under its own handle, and backed by the semaphores with its slot and charge. */
    ghost predicate Valid()
      reads this, slots, memory, cursors.Values
    {
      && slots != memory
      && (forall h :: h in cursors ==> cursors[h].handle == h && !cursors[h].released)
      && Others().0 >= 0 && Others().1 >= 0
    }

    /** A cursor of this registry: released, or still registered. */
    ghost predicate Known(c: OwnedCursor)
      reads this, c
    {
      !c.released ==> c.handle in cursors && cursors[c.handle] == c
    }

    /** What is given back for a registered cursor is held. */
    lemma Backed(c: OwnedCursor)
      requires Valid() && Known(c) && !c.released
      ensures slots.held >= 1 && memory.held >= c.bytes
    {
      TotalRemove(Charges(), c.handle);
      TotalNatural(Charges() - {c.handle});
    }

    lemma HeldNatural()
      requires Valid()
      ensures slots.held >= 0 && memory.held >= 0
    {
      TotalNatural(Charges());
    }

    /** Changes that touch no charge and release nobody keep the accounts. */
    twostate lemma Untouched()
      requires old(Valid()) && cursors == old(cursors) && slots.held == old(slots.held) && memory.held == old(memory.held)
      requires forall h :: h in cursors ==> cursors[h].released == old(cursors[h].released) && cursors[h].bytes == old(cursors[h].bytes)
      ensures Valid() && Others() == old(Others())
    {
      assert Charges() == old(Charges());
    }

    /** Registering a new cursor together with its slot and charge keeps the accounts. */
    twostate lemma Joins(new c: OwnedCursor)
      requires old(Valid()) && c.handle !in old(cursors) && cursors == old(cursors)[c.handle := c] && !c.released
      requires slots.held == old(slots.held) + 1 && memory.held == old(memory.held) + c.bytes
      requires forall h :: h in old(cursors) ==> cursors[h].released == old(cursors[h].released) && cursors[h].bytes == old(cursors[h].bytes)
      ensures Valid() && Others() == old(Others())
    {
      hide Total;
      assert Charges() == old(Charges())[c.handle := c.bytes] && c.handle !in old(Charges());
      hide Charges;
      TotalAdd(old(Charges()), c.handle, c.bytes);
      SizeAdd(old(cursors), c.handle, c);
    }

    /** Unregistering a cursor together with its slot and charge keeps the accounts. */
    twostate lemma Leaves(c: OwnedCursor)
      requires old(Valid()) && old(Known(c)) && !old(c.released) && cursors == old(cursors) - {c.handle}
      requires slots.held == old(slots.held) - 1 && memory.held == old(memory.held) - old(c.bytes)
      requires forall h :: h in cursors ==> cursors[h].released == old(cursors[h].released) && cursors[h].bytes == old(cursors[h].bytes)
      ensures Valid() && Others() == old(Others())
    {
      hide Total;
      assert Charges() == old(Charges()) - {c.handle};
      assert c.handle in old(Charges()) && old(Charges())[c.handle] == old(c.bytes);
      hide Charges;
      TotalRemove(old(Charges()), c.handle);
      SizeRemove(old(cursors), c.handle);
    }

    /** A changed charge together with the same change of the semaphore keeps the accounts. */
    twostate lemma Recharges(c: OwnedCursor)
      requires old(Valid()) && old(Known(c)) && !old(c.released) && !c.released && cursors == old(cursors)
      requires slots.held == old(slots.held) && memory.held == old(memory.held) - old(c.bytes) + c.bytes
      requires forall h :: h in cursors && h != c.handle
                 ==> cursors[h].released == old(cursors[h].released) && cursors[h].bytes == old(cursors[h].bytes)
      ensures Valid() && Others() == old(Others())
    {
      hide Total;
      assert Charges() == old(Charges())[c.handle := c.bytes];
      Recharge(old(Charges()), c.handle, c.bytes);
    }

    method ReserveCursor(handle: nat, kind: Kind, charge: nat, now: Time, lifetime: Time) returns (c: OwnedCursor?)
      requires Valid() && handle !in cursors
      modifies this, slots, memory
      ensures Valid() && Others() == old(Others())
      ensures c == null <==> old(memory.held) + charge > memory.size || old(slots.held) + 1 > slots.size
                             || old(closed) || |old(cursors)| >= maxOpen
      ensures c == null ==> cursors == old(cursors) && slots.held == old(slots.held) && memory.held == old(memory.held)
      ensures c != null ==> fresh(c) && c.View() == Reserved(kind, charge, now + lifetime) && Known(c)
      ensures c != null ==> c.handle == handle && cursors == old(cursors)[handle := c]
                            && slots.held == old(slots.held) + 1 && memory.held == old(memory.held) + charge
      ensures closed == old(closed)
    {
      HeldNatural();
      hide Valid, Others, Charges;
      var ok := memory.TryAcquire(charge);
      if !ok {
        Untouched();
        return null;
      }
      ok := slots.TryAcquire(1);
      if !ok {
        memory.Release(charge);
        Untouched();
        return null;
      }
      c := new OwnedCursor(handle, kind, charge, now + lifetime);
      if closed || |cursors| >= maxOpen {
        memory.Release(charge);
        slots.Release(1);
        Untouched();
        return null;
      }
      cursors := cursors[handle := c];
      Joins(c);
    }

    method ReleaseCursor(c: OwnedCursor)
      requires Valid() && Known(c)
      modifies this, slots, memory, c
      ensures Valid() && Known(c) && Others() == old(Others())
      ensures c.View() == Release(old(c.View()))
      ensures Settled(old(c.released), c, old(cursors), old(slots.held), old(memory.held)) && closed == old(closed)
    {
      if c.released { return; }
      Backed(c);
      hide Valid, Others, Charges;
      c.released := true;
      if c.timer.Armed? { c.timer := Stopped; }
      cursors := cursors - {c.handle};
      memory.Release(c.bytes);
      slots.Release(1);
      Leaves(c);
    }

    /** Handle, slot and memory go back exactly when this call released the cursor. */
    ghost predicate Settled(before: bool, c: OwnedCursor, handles: map<nat, OwnedCursor>, slotsHeld: int, memoryHeld: int)
      reads this, slots, memory, c
    {
      if !before && c.released
      then cursors == handles - {c.handle} && slots.held == slotsHeld - 1 && memory.held == memoryHeld - c.bytes
      else cursors == handles && slots.held == slotsHeld && memory.held == memoryHeld
    }

    method UsableCursor(c: OwnedCursor, now: Time, intact: bool) returns (ok: bool)
      ensures ok == Usable(c.View(), now, intact)
    {
      if c.released || c.invalid || !intact || c.expires.None? || now > c.expires.value || now > c.absolute { return false; }
      return true;
    }

    method CaptureCursorID(c: OwnedCursor, id: string) returns (ok: bool)
      requires Valid()
      modifies c
      ensures Valid() && Others() == old(Others())
      ensures ok <==> AcceptableId(id, maxIdBytes)
      ensures c.View() == if ok then Capture(old(c.View()), id) else old(c.View())
    {
      hide Valid, Others, Charges;
      if id == "" || id == "_all" || |id| > maxIdBytes { return false; }
      for i := 0 to |id|
        invariant forall k :: 0 <= k < i ==>
                    'a' <= id[k] <= 'z' || 'A' <= id[k] <= 'Z' || '0' <= id[k] <= '9' || id[k] in "+/=_-"
      {
        if !('a' <= id[i] <= 'z' || 'A' <= id[i] <= 'Z' || '0' <= id[i] <= '9' || id[i] in "+/=_-") { return false; }
      }
      c.Capture(id);
      Untouched();
      return true;
    }

    method RetireCursorAtLeaseEnd(c: OwnedCursor, now: Time)
      requires Valid() && Known(c)
      modifies this, slots, memory, c
      ensures Valid() && Known(c) && Others() == old(Others())
      ensures c.View() == Retire(old(c.View()), now)
      ensures Settled(old(c.released), c, old(cursors), old(slots.held), old(memory.held)) && closed == old(closed)
    {
      hide Valid, Others, Charges;
      if c.serverUntil.None? || now > c.serverUntil.value {
        ReleaseCursor(c);
        return;
      }
      if c.timer.Off? {
        c.timer := Armed(now + Max(c.serverUntil.value - now, MILLISECOND));
      }
      Untouched();
    }

    /** The callback of the timer, holding the gate. */
    method RetireCallback(c: OwnedCursor, now: Time)
      requires Valid() && Known(c)
      modifies this, slots, memory, c
      ensures Valid() && Known(c) && Others() == old(Others())
      ensures c.View() == Callback(old(c.View()), now)
      ensures Settled(old(c.released), c, old(cursors), old(slots.held), old(memory.held)) && closed == old(closed)
    {
      hide Valid, Others, Charges;
      c.timer := Off;
      Untouched();
      if !c.released { RetireCursorAtLeaseEnd(c, now); }
    }

    method CleanupCursor(c: OwnedCursor, now: Time, outcomes: seq<Outcome>) returns (done: bool)
      requires Valid() && Known(c) && |outcomes| == |c.ids|
      modifies this, slots, memory, c
      ensures Valid() && Known(c) && Others() == old(Others())
      ensures c.View() == Cleanup(old(c.View()), now, outcomes)
      ensures done <==> c.released
      ensures Settled(old(c.released), c, old(cursors), old(slots.held), old(memory.held)) && closed == old(closed)
    {
      hide Valid, Others, Charges, WindsDown;
      c.invalid := true;
      Untouched();
      if c.released { return true; }
      if c.serverUntil.Some? && now > c.serverUntil.value {
        ReleaseCursor(c);
        return true;
      }
      if c.serverUntil.None? {
        ReleaseCursor(c);
        return true;
      }
      var cleanupErr := false;
      for i := 0 to |c.ids|
        invariant unchanged(this) && unchanged(slots) && unchanged(memory)
        invariant Valid() && Known(c) && Others() == old(Others())
        invariant c.View() == old(c.View()).(invalid := true) && c.ids == old(c.ids)
        invariant i == 0 ==> !cleanupErr
        invariant i > 0 ==> cleanupErr || (outcomes[0] == Confirmed && c.uncertain)
        invariant i > 0 ==> outcomes[0] != Confirmed || c.uncertain
      {
        if outcomes[i] == NoAnswer {
          cleanupErr := true;
          continue;
        }
        if outcomes[i] == Refused {
          cleanupErr := true;
        }
        if i == 0 && !cleanupErr && !c.uncertain {
          ReleaseCursor(c);
          return true;
        }
      }
      if !cleanupErr && !c.uncertain && |c.ids| > 0 {
        assert false;  // the loop has returned already whenever this holds
      }
      c.retryAfter := Some(now + CLEANUP_TIMEOUT);
      Untouched();
      RetireCursorAtLeaseEnd(c, now);
      return false;
    }

    /** recoverCursor; `attempt` is present when the parent request is still alive. */
    method RecoverCursor(c: OwnedCursor, now: Time, attempt: Option<seq<Outcome>>)
      requires Valid() && Known(c) && Attempts(c.View(), attempt)
      modifies this, slots, memory, c
      ensures Valid() && Known(c) && Others() == old(Others())
      ensures c.View() == Recover(old(c.View()), now, attempt)
      ensures Settled(old(c.released), c, old(cursors), old(slots.held), old(memory.held)) && closed == old(closed)
    {
      hide Valid, Others, Charges;
      c.invalid := true;
      Untouched();
      if c.released { return; }
      if attempt.Some? {
        var done := CleanupCursor(c, now, attempt.value);
        if done { return; }
      }
      RetireCursorAtLeaseEnd(c, now);
      if c.released || c.recoveryQueued { return; }
      label Queued:
      c.recoveryQueued := true;
      Untouched@Queued();
    }

    /** beginCursorDispatch: the lease as it is sent, or nothing when a guard refuses. */
    method BeginCursorDispatch(c: OwnedCursor, now: Time, keep: Time, intact: bool) returns (lease: Option<Time>)
      requires Valid() && Known(c) && !c.released && keep >= MILLISECOND && c.nativeLease >= 0 && maxTimeout > 0
      modifies this, slots, memory, c
      ensures Valid() && Known(c) && Others() == old(Others())
      ensures lease.Some? <==> MayDispatch(old(c.View()), now, intact)
      ensures lease.None? ==> c.View() == old(c.View())
      ensures lease.Some? ==> c.View() == Begin(old(c.View()), now, keep, maxTimeout)
                              && lease.value == SentLease(Keep(old(c.View()), now, keep)) && !c.released
      ensures cursors == old(cursors) && slots.held == old(slots.held) && memory.held == old(memory.held) && closed == old(closed)
    {
      hide Valid, Others, Charges;
      if !intact || c.invalid { return None; }
      var remaining := c.absolute - now;
      if remaining < MILLISECOND { return None; }
      var k := Min(keep, remaining);
      c.expires := Some(now + k);
      c.nativeLease := Max(c.nativeLease, k);
      c.serverUntil := Some(now + c.nativeLease + maxTimeout);
      c.uncertain := true;
      Untouched();
      RetireCursorAtLeaseEnd(c, now);
      return Some(Max(1, k / MILLISECOND) * MILLISECOND);
    }

    /** The tail of openPIT, cursorPage and sqlPage: identifier first, then the other checks, then the lease. */
    method TakeAnswer(c: OwnedCursor, now: Time, lease: Time, reply: Reply) returns (ok: bool)
      requires Valid()
      modifies c
      ensures Valid() && Others() == old(Others())
      ensures c.View() == Answered(Owned(old(c.View()), NothingSent, Await(lease)), now, reply).c
      ensures ok <==> Answered(Owned(old(c.View()), NothingSent, Await(lease)), now, reply).pc == Paged
    {
      hide Valid, Others, Charges;
      match reply {
        case Unreadable =>
          Untouched();
          return false;
        case Foreign(id) =>
          c.Capture(id);
          c.uncertain := true;
          Untouched();
          return false;
        case Page(newId, accepted) =>
          if newId.Some? { c.Capture(newId.value); } else { c.uncertain := false; }
          Untouched();
          if !accepted { return false; }
        case Exhausted(accepted) =>
          c.sqlDone := true;
          c.uncertain := false;
          Untouched();
          if !accepted { return false; }
      }
      c.Renew(now, lease);
      Untouched();
      return true;
    }

    /** updateCursorQuery's account: grow only with the semaphore's consent, shrink at once. */
    method UpdateCursorQuery(c: OwnedCursor, charge: nat) returns (ok: bool)
      requires Valid() && Known(c) && !c.released
      modifies memory, c
      ensures Valid() && Known(c) && Others() == old(Others())
      ensures ok <==> charge <= old(c.bytes) || old(memory.held) + (charge - old(c.bytes)) <= memory.size
      ensures c.View() == if ok then old(c.View()).(bytes := charge) else old(c.View())
      ensures memory.held == old(memory.held) + if ok then charge - old(c.bytes) else 0
    {
      Backed(c);
      hide Valid, Others, Charges;
      if charge > c.bytes {
        ok := memory.TryAcquire(charge - c.bytes);
        if !ok {
          Untouched();
          return;
        }
      } else {
        memory.Release(c.bytes - charge);
      }
      c.bytes := charge;
      Recharges(c);
      ok := true;
    }
  }
}
