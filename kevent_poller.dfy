/**
 * The change list of the kqueue backend (`kevents0` in src/kevent_poller.c,
 * with the same routines in src/mrkthr.c): a growable array of
 * `struct kevent` slots in which an unused slot has ident -1 and every
 * (ident, filter) pair occupies at most one used slot.  Also the pure parts
 * of the event loop: how many slots are handed to kevent(2), and the
 * timeout it waits for.
 */
module KeventPoller {
  import opened Wrappers
  import opened Machine
  import opened KeventUtil
  import opened Api

  /** The slot is in use and registers `fd` for `filter`. */
  predicate Match(k: Kevent, fd: i32, filter: int)
  {
    !IsEmpty(k) && k.ident == IdentOf(fd) && k.filter == filter
  }

  /** The test of clear_event, which does not look at emptiness. */
  predicate Hit(k: Kevent, fd: i32, filter: int)
  {
    k.ident == IdentOf(fd) && k.filter == filter
  }

  /** No two used slots register the same (ident, filter). */
  ghost predicate Unique(s: seq<Kevent>)
  {
    forall i, j :: 0 <= i < j < |s| && !IsEmpty(s[i]) && !IsEmpty(s[j]) ==>
      s[i].ident != s[j].ident || s[i].filter != s[j].filter
  }

  /** Every ident was made from an `int` descriptor (or is the empty sentinel). */
  ghost predicate Idents(s: seq<Kevent>)
  {
    forall i :: 0 <= i < |s| ==> FromFd(s[i].ident)
  }

  /**
   * The slot new_event settles on: the first used slot registering
   * (fd, filter) if there is one, even past an empty slot; otherwise the
   * first empty slot; otherwise a new slot at the end.
   */
  ghost predicate Chosen(s: seq<Kevent>, fd: i32, filter: int, idx: nat)
  {
    && idx <= |s|
    && ((exists i :: 0 <= i < |s| && Match(s[i], fd, filter)) ==>
        idx < |s| && Match(s[idx], fd, filter) && forall j :: 0 <= j < idx ==> !Match(s[j], fd, filter))
    && (!(exists i :: 0 <= i < |s| && Match(s[i], fd, filter)) && (exists i :: 0 <= i < |s| && IsEmpty(s[i])) ==>
        idx < |s| && IsEmpty(s[idx]) && forall j :: 0 <= j < idx ==> !IsEmpty(s[j]))
    && (!(exists i :: 0 <= i < |s| && Match(s[i], fd, filter)) && !(exists i :: 0 <= i < |s| && IsEmpty(s[i])) ==>
        idx == |s|)
  }

  /** The table after new_event wrote ident and filter into slot `idx` (appended by kevent_init if new). */
  function Placed(s: seq<Kevent>, idx: nat, fd: i32, filter: int): (r: seq<Kevent>)
    requires idx <= |s|
    ensures |r| == if idx < |s| then |s| else |s| + 1
    ensures r[idx].ident == IdentOf(fd) && r[idx].filter == filter
    ensures forall j :: 0 <= j < |s| && j != idx ==> r[j] == s[j]
  {
    var t := if idx < |s| then s else s + [INITIAL];
    t[idx := t[idx].(ident := IdentOf(fd), filter := filter)]
  }

  /** new_event keeps the table unique and finds the slot again: it now registers (fd, filter). */
  lemma PlacedUnique(s: seq<Kevent>, fd: i32, filter: int, idx: nat)
    requires Unique(s) && Idents(s) && Chosen(s, fd, filter, idx)
    ensures Unique(Placed(s, idx, fd, filter)) && Idents(Placed(s, idx, fd, filter))
    ensures IdentOf(fd) != EMPTY_IDENT ==> Match(Placed(s, idx, fd, filter)[idx], fd, filter)
    ensures forall j :: 0 <= j < |s| && j != idx ==> Placed(s, idx, fd, filter)[j] == s[j]
  {
    var r := Placed(s, idx, fd, filter);
    FdRoundTrip(fd, 0);
    InitIsEmpty();
    forall i, j | 0 <= i < j < |r| && !IsEmpty(r[i]) && !IsEmpty(r[j])
      ensures r[i].ident != r[j].ident || r[i].filter != r[j].filter
    {
      if i == idx || j == idx {
        var o := if i == idx then j else i;
        assert r[o] == s[o];
        assert !Match(s[o], fd, filter);
      }
    }
  }

  /** The first slot clear_event's scan stops at, or |s| when none matches. */
  function FirstHit(s: seq<Kevent>, fd: i32, filter: int): (r: nat)
    ensures r <= |s|
    ensures r < |s| ==> Hit(s[r], fd, filter)
    ensures forall j :: 0 <= j < r ==> !Hit(s[j], fd, filter)
  {
    if s == [] then 0
    else if Hit(s[0], fd, filter) then 0
    else 1 + FirstHit(s[1..], fd, filter)
  }

  /** clear_event's fast path applies: `idx` is not -1 and names a slot registering (fd, filter). */
  predicate FastHit(s: seq<Kevent>, fd: i32, filter: int, idx: int)
  {
    0 <= idx < |s| && Hit(s[idx], fd, filter)
  }

  /** The table after clear_event: the fast slot, else the first hit, re-initialised; else unchanged. */
  function Cleared(s: seq<Kevent>, fd: i32, filter: int, idx: int): (r: seq<Kevent>)
    ensures |r| == |s|
  {
    if FastHit(s, fd, filter, idx) then s[idx := INITIAL]
    else var k := FirstHit(s, fd, filter); if k < |s| then s[k := INITIAL] else s
  }

  /**
   * In a unique table clear_event leaves no used slot registering
   * (fd, filter), changes at most one slot, and keeps the table unique.
   */
  lemma ClearedRemoves(s: seq<Kevent>, fd: i32, filter: int, idx: int)
    requires Unique(s) && Idents(s)
    ensures Unique(Cleared(s, fd, filter, idx)) && Idents(Cleared(s, fd, filter, idx))
    ensures forall i :: 0 <= i < |s| ==> !Match(Cleared(s, fd, filter, idx)[i], fd, filter)
    ensures forall i :: 0 <= i < |s| && !Hit(s[i], fd, filter) ==> Cleared(s, fd, filter, idx)[i] == s[i]
  {
    InitIsEmpty();
    var r := Cleared(s, fd, filter, idx);
    var k := if FastHit(s, fd, filter, idx) then idx else FirstHit(s, fd, filter);
    forall i | 0 <= i < |s|
      ensures !Match(r[i], fd, filter)
    {
      if i != k {
        assert r[i] == s[i];
        assert Hit(s[i], fd, filter) ==> k < |s|;
        assert k < |s| ==> Hit(s[k], fd, filter);
        assert !Match(s[i], fd, filter);
      }
    }
  }

  /** The number of trailing empty slots is `|s| - nkev`. */
  ghost predicate TrailingSplit(s: seq<Kevent>, nkev: nat)
  {
    && nkev <= |s|
    && (forall i :: nkev <= i < |s| ==> IsEmpty(s[i]))
    && (nkev > 0 ==> !IsEmpty(s[nkev - 1]))
  }

  /** kevent(2) is handed every used slot: none lies at or beyond `nkev`. */
  lemma TrailingCoversUsed(s: seq<Kevent>, nkev: nat, m: nat)
    requires TrailingSplit(s, nkev) && TrailingSplit(s, m)
    ensures nkev == m
    ensures forall i :: 0 <= i < |s| && !IsEmpty(s[i]) ==> i < nkev
  {
  }

  /** `kevents0`. */
  class KeventTable {
    var slots: seq<Kevent>

    ghost predicate Valid()
      reads this
    {
      Unique(slots) && Idents(slots)
    }

    /** poller_init: an empty array. */
    constructor ()
      ensures slots == [] && Valid()
    {
      slots := [];
    }

    /** The scan of new_event: the first used slot that registers (fd, filter), else the first empty slot. */
    method Scan(fd: i32, filter: int) returns (kev1: Option<nat>)
      ensures kev1.None? ==> Chosen(slots, fd, filter, |slots|)
      ensures kev1.Some? ==> kev1.value < |slots| && Chosen(slots, fd, filter, kev1.value)
    {
      kev1 := None;
      var matched := false;
      var i := 0;
      while i < |slots| && !matched
        invariant 0 <= i <= |slots|
        decreases |slots| - i, if matched then 0 else 1
        invariant !matched ==> forall j :: 0 <= j < i ==> !Match(slots[j], fd, filter)
        invariant matched ==> (kev1.Some? && kev1.value < |slots| && Match(slots[kev1.value], fd, filter)
          && forall j :: 0 <= j < kev1.value ==> !Match(slots[j], fd, filter))
        invariant !matched && kev1.None? ==> forall j :: 0 <= j < i ==> !IsEmpty(slots[j])
        invariant !matched && kev1.Some? ==> (kev1.value < i && IsEmpty(slots[kev1.value])
          && forall j :: 0 <= j < kev1.value ==> !IsEmpty(slots[j]))
      {
        if IsEmpty(slots[i]) {
          if kev1.None? {
            kev1 := Some(i);
          }
        } else if slots[i].ident == IdentOf(fd) && slots[i].filter == filter {
          kev1 := Some(i);
          matched := true;
        }
        if !matched {
          i := i + 1;
        }
      }
    }

    /**
     * new_event: the slot for (fd, filter), an existing one, the first
     * empty one or a new one at the end, now carrying ident fd and the
     * filter; `idx` is its index (`*idx` in the source).
     */
    method NewEvent(fd: i32, filter: int) returns (idx: nat)
      modifies this
      ensures Chosen(old(slots), fd, filter, idx)
      ensures slots == Placed(old(slots), idx, fd, filter)
      ensures old(Valid()) ==> Valid()
    {
      var kev1 := Scan(fd, filter);
      if kev1.None? {
        slots := slots + [INITIAL];
        idx := |slots| - 1;
      } else {
        idx := kev1.value;
      }
      slots := slots[idx := slots[idx].(ident := IdentOf(fd), filter := filter)];
      if old(Valid()) {
        PlacedUnique(old(slots), fd, filter, idx);
      }
    }

    /**
     * discard_event: the slot for (fd, filter) is set to an EV_DELETE
     * change with no waiter.
     */
    method DiscardEvent(fd: i32, filter: int)
      modifies this
      ensures exists idx: nat :: (Chosen(old(slots), fd, filter, idx)
        && slots == Placed(old(slots), idx, fd, filter)[idx := Kevent(IdentOf(fd), filter, EV_DELETE, 0, 0, None)])
      ensures old(Valid()) ==> Valid()
    {
      var idx := NewEvent(fd, filter);
      slots := slots[idx := Kevent(IdentOf(fd), filter, EV_DELETE, 0, 0, None)];
    }

    /** The scan of clear_event: the first slot whose ident and filter are (fd, filter). */
    method FindHit(fd: i32, filter: int) returns (k: nat)
      ensures k == FirstHit(slots, fd, filter)
    {
      k := 0;
      while k < |slots| && !(slots[k].ident == IdentOf(fd) && slots[k].filter == filter)
        invariant k <= |slots| && forall j :: 0 <= j < k ==> !Hit(slots[j], fd, filter)
      {
        k := k + 1;
      }
      FirstHitUnique(slots, fd, filter, k);
    }

    /**
     * clear_event: re-initialise the slot at `idx` when it registers
     * (fd, filter); otherwise the first slot that does; otherwise nothing.
     */
    method ClearEvent(fd: i32, filter: int, idx: int)
      modifies this
      ensures slots == Cleared(old(slots), fd, filter, idx)
      ensures old(Valid()) ==> Valid()
    {
      if old(Valid()) {
        ClearedRemoves(slots, fd, filter, idx);
      }
      if idx != -1 && 0 <= idx < |slots| && slots[idx].ident == IdentOf(fd) && slots[idx].filter == filter {
        slots := slots[idx := INITIAL];
      } else {
        var k := FindHit(fd, filter);
        if k < |slots| {
          slots := slots[k := INITIAL];
        }
      }
    }

    /**
     * poller_clear_event: the context's saved index, when not -1, names a
     * slot (the source asserts it), and clearing by that slot's own ident
     * and filter re-initialises exactly that slot.
     */
    method PollerClearEvent(kidx: int)
      requires Valid() && (kidx == -1 || 0 <= kidx < |slots|)
      modifies this
      ensures Valid()
      ensures kidx == -1 ==> slots == old(slots)
      ensures kidx != -1 ==> slots == old(slots)[kidx := INITIAL]
    {
      if kidx != -1 {
        var kev := slots[kidx];
        FdRoundTrip(0, kev.ident);
        ClearEvent(FdOf(kev.ident), kev.filter, kidx);
      }
    }

    /**
     * The scan of mrkthr_loop that counts the empty slots at the end of
     * `kevents0`, from the last one backwards; `nkev` slots go to kevent(2).
     */
    method CountTrailing() returns (nempty: nat, nkev: nat)
      ensures nkev == |slots| - nempty && TrailingSplit(slots, nkev)
    {
      nempty := 0;
      while nempty < |slots| && IsEmpty(slots[|slots| - 1 - nempty])
        invariant nempty <= |slots|
        invariant forall i :: |slots| - nempty <= i < |slots| ==> IsEmpty(slots[i])
      {
        nempty := nempty + 1;
      }
      nkev := |slots| - nempty;
    }

    /**
     * The registration step of mrkthr_get_rbuflen and mrkthr_get_wbuflen:
     * the slot for (fd, filter) is found; if another thread already waits
     * on it (its udata is set) the caller gets CO_RC_SIMULTANEOUS and -1;
     * otherwise the slot becomes an EV_ADD|EV_ONESHOT change owned by `me`.
     */
    method Arm(fd: i32, filter: int, me: nat) returns (kidx: nat, rc: Option<Rc>)
      modifies this
      ensures Chosen(old(slots), fd, filter, kidx)
      ensures var p := Placed(old(slots), kidx, fd, filter);
        && (p[kidx].udata.Some? ==> rc == Some(CO_RC_SIMULTANEOUS) && slots == p)
        && (p[kidx].udata.None? ==>
            rc == None && slots == p[kidx := Kevent(IdentOf(fd), filter, EV_ADD | EV_ONESHOT, 0, 0, Some(me))])
      ensures old(Valid()) ==> Valid()
    {
      kidx := NewEvent(fd, filter);
      if slots[kidx].udata.Some? {
        return kidx, Some(CO_RC_SIMULTANEOUS);
      }
      slots := slots[kidx := Kevent(IdentOf(fd), filter, EV_ADD | EV_ONESHOT, 0, 0, Some(me))];
      rc := None;
    }
  }

  /** FirstHit is the first index the scan stops at. */
  lemma FirstHitUnique(s: seq<Kevent>, fd: i32, filter: int, k: nat)
    requires k <= |s| && (k < |s| ==> Hit(s[k], fd, filter))
    requires forall j :: 0 <= j < k ==> !Hit(s[j], fd, filter)
    ensures k == FirstHit(s, fd, filter)
  {
    var r := FirstHit(s, fd, filter);
  }

  /** The write-space report of mrkthr_get_wbuflen: `data`, or 1 MiB when the event reports 0. */
  function WbufLen(data: int): (r: int)
    ensures data != 0 ==> r == data
    ensures data == 0 ==> r == 1024 * 1024
  {
    if data != 0 then data else 1024 * 1024
  }

  /** A write event never reports no space: 0 is turned into 1 MiB, and the space is never below what was reported. */
  lemma WbufLenPositive(data: int)
    requires data >= 0
    ensures WbufLen(data) > 0 && WbufLen(data) >= data
  {
  }

  // ---------------------------------------------------------------------
  // The timeout of kevent(2)

  datatype Timespec = Timespec(sec: int, nsec: int)

  const NSEC: nat := 1_000_000_000

  /**
   * The timeout of mrkthr_loop as written, for the least key of the sleep
   * queue (None when it is empty): no timeout, zero when the key is not in
   * the future, else `int64_t diff = expire - now` split by C's `/` and `%`.
   */
  function TimeoutAsWritten(least: Option<u64>, now: u64): (r: Option<Timespec>)
    ensures least.None? <==> r.None?
  {
    match least
    case None => None
    case Some(k) =>
      if k > now then
        var diff := ToInt64(k - now);
        Some(Timespec(DivT(diff, NSEC), RemT(diff, NSEC)))
      else Some(Timespec(0, 0))
  }

  /**
   * The split as written is right while the distance fits in an
   * `int64_t`: whole seconds and nanoseconds below 10^9 that add up to it.
   */
  lemma TimeoutAsWrittenSmall(k: u64, now: u64)
    requires now < k && k - now < TWO63
    ensures var t := TimeoutAsWritten(Some(k), now).value;
      t.sec >= 0 && 0 <= t.nsec < NSEC && t.sec * NSEC + t.nsec == k - now
  {
  }

  /**
   * A thread sleeping forever (key ULONG_MAX) as the least key, at
   * now = 1: the `int64_t` distance is -2, so the timeout is negative.
   */
  lemma TimeoutForeverNegative()
    ensures TimeoutAsWritten(Some(TWO64 - 1), 1) == Some(Timespec(0, -2))
  {
    assert ToInt64(TWO64 - 2) == -2;
  }

  /** The timeout with the distance kept unsigned. */
  function Timeout(least: Option<u64>, now: u64): (r: Option<Timespec>)
    ensures least.None? <==> r.None?
  {
    match least
    case None => None
    case Some(k) =>
      if k > now then Some(Timespec((k - now) / NSEC, (k - now) % NSEC))
      else Some(Timespec(0, 0))
  }

  /**
   * With an unsigned distance the timeout is never negative, fits a
   * 64-bit `time_t`, and is exactly the distance to the least key, or zero
   * when that key is not in the future.
   */
  lemma TimeoutSplits(least: Option<u64>, now: u64)
    requires least.Some?
    ensures var t := Timeout(least, now).value;
      && 0 <= t.sec < TWO63 && 0 <= t.nsec < NSEC
      && (least.value > now ==> t.sec * NSEC + t.nsec == least.value - now)
      && (least.value <= now ==> t == Timespec(0, 0))
  {
  }
}
