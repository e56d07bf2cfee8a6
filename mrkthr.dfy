/**
 * The thread bookkeeping of mrkthr (src/mrkthr.c) around its sleep queue:
 * each context's co fields, its `waitq` of joiners, the `free_ctxes` stack,
 * the `ctxes` list and the running context `me`.
 *
 * As in mnthr, switching machine contexts is not modelled.  Resume stops
 * where swapcontext would run the thread, with `me` set to it; `me`
 * stays set while that thread runs, and ResumeReturn is what resume()
 * does once control is back: it clears `me` and retires a thread that
 * has returned.
 */
module Mrkthr {
  import opened Wrappers
  import opened SleepQueue
  import opened MrkSleepq

  /**
   * The co.state values that src/mrkthr.c uses.  Their bit values are not
   * part of the headers that come with it, so they are kept symbolic.
   */
  datatype MrkState = Dormant | Resumed | EventRead | EventWrite | EventSleep | EventAcquire
                    | EventJoinWaitq | EventResume | EventInterrupt

  /** CO_STATE_RESUMABLE: a thread that waits for an event, that is any state but DORMANT and RESUMED. */
  predicate Resumable(st: MrkState)
  {
    st != Dormant && st != Resumed
  }

  /** co.rc: 0, CO_RC_USER_INTERRUPTED, or whatever the thread stored. */
  datatype CoRc = RcZero | UserInterrupted | RcUser(v: int)

  /** The co fields the bookkeeping reads: state, rc, and whether `f` is set. */
  datatype Co = Co(state: MrkState, rc: CoRc, hasFunc: bool)

  /** What co_init and co_fini leave: DORMANT, rc 0, no function. */
  const Idle: Co := Co(Dormant, RcZero, false)

  /** A waitq slot: MAP_FAILED, or a joined thread. */
  datatype Slot = Vacant | Waiter(c: CtxId)

  /** mrkthr_join: CO_RC_JOIN_INVALID, or the caller now waits in the target's waitq. */
  datatype JoinResult = JoinInvalid | Waiting

  /** resume() up to the switch: refused with TRRET(RESUME + 1), or switched to. */
  datatype Switch = Refused | Switched

  /** resume() after the switch: the thread waits again (0), or it has exited (RESUME + 2). */
  datatype ResumeRc = Returned | Exited

  // ---------------------------------------------------------------------
  // The wait queue array

  /** Every joiner in the slots is one of `cs`. */
  predicate WaitersIn(ws: seq<Slot>, cs: set<CtxId>)
  {
    forall i :: 0 <= i < |ws| && ws[i].Waiter? ==> ws[i].c in cs
  }

  /** `n` MAP_FAILED slots. */
  function Vacants(n: nat): (r: seq<Slot>)
    ensures |r| == n && forall i :: 0 <= i < n ==> r[i] == Vacant
  {
    seq(n, _ => Vacant)
  }

  /** The index of the first MAP_FAILED slot, or |w| when there is none. */
  function FirstVacantIndex(w: seq<Slot>): (i: nat)
    ensures i <= |w| && (i < |w| ==> w[i] == Vacant)
    ensures forall j :: 0 <= j < i ==> w[j] != Vacant
  {
    if w == [] || w[0] == Vacant then 0
    else
      var i := FirstVacantIndex(w[1..]);
      assert forall j :: 1 <= j <= i ==> w[j] == w[1..][j - 1];
      1 + i
  }

  /**
   * The waitq after join_waitq stores `c`: the first MAP_FAILED slot takes
   * it, every other slot keeps its entry, and only an array without a
   * MAP_FAILED slot grows, by one slot at the end.
   */
  function Joined(w: seq<Slot>, c: CtxId): (r: seq<Slot>)
    ensures Vacant in w ==> |r| == |w|
    ensures Vacant !in w ==> r == w + [Waiter(c)]
    ensures forall j :: 0 <= j < |w| ==> r[j] == if j == FirstVacantIndex(w) then Waiter(c) else w[j]
  {
    var i := FirstVacantIndex(w);
    if i < |w| then w[i := Waiter(c)] else w + [Waiter(c)]
  }

  /** The scan of join_waitq: the index of the first MAP_FAILED slot, or |w| when there is none. */
  method FirstVacant(w: seq<Slot>) returns (i: nat)
    ensures i <= |w|
    ensures i < |w| ==> w[i] == Vacant
    ensures forall j :: 0 <= j < i ==> w[j] != Vacant
  {
    i := 0;
    while i < |w|
      invariant i <= |w|
      invariant forall j :: 0 <= j < i ==> w[j] != Vacant
    {
      if w[i] == Vacant {
        return;
      }
      i := i + 1;
    }
  }

  /** Only one index has the properties FirstVacant ensures, so storing there is Joined. */
  lemma JoinedAt(w: seq<Slot>, i: nat, c: CtxId)
    requires i <= |w| && (i < |w| ==> w[i] == Vacant)
    requires forall j :: 0 <= j < i ==> w[j] != Vacant
    ensures i == FirstVacantIndex(w)
    ensures Joined(w, c) == if i < |w| then w[i := Waiter(c)] else w + [Waiter(c)]
  {
    var f := FirstVacantIndex(w);
    assert !(i < f) by {
      if i < |w| {
        assert w[i] == Vacant;
      }
    }
  }

  /** Clearing slot `i` in the walk of resume_waitq_all. */
  lemma VacantStep(w: seq<Slot>, i: nat)
    requires i < |w|
    ensures (Vacants(i) + w[i..])[i] == w[i]
    ensures (Vacants(i) + w[i..])[i := Vacant] == Vacants(i + 1) + w[i + 1..]
    ensures w[i] == Vacant ==> Vacants(i) + w[i..] == Vacants(i + 1) + w[i + 1..]
  {
  }

  // ---------------------------------------------------------------------
  // set_resume and resume_waitq_all on values

  /** What mrkthr_set_resume acts on: each context's co, its expire_ticks, and the sleep queue. */
  datatype Sched = Sched(co: map<CtxId, Co>, expire: map<CtxId, nat>, q: Queue)

  /** The sleep queue holds each context at most once, and at its own expire_ticks. */
  ghost predicate Sane(s: Sched)
  {
    && s.co.Keys == s.expire.Keys && WellFormed(s.q) && NoDup(s.q)
    && forall k, c :: k in s.q && c in s.q[k] ==> c in s.expire && s.expire[c] == k
  }

  /** The context leaves the sleep queue and comes back at key 0, which the next drain takes. */
  function Requeued(s: Sched, c: CtxId): (r: Sched)
    requires c in s.expire && WellFormed(s.q)
    ensures r.co == s.co && r.expire.Keys == s.expire.Keys && WellFormed(r.q)
  {
    Sched(s.co, s.expire[c := 0], AppendQ(RemoveAtQ(s.q, s.expire[c], c), 0, c))
  }

  /**
   * mrkthr_set_resume with the removal that the source leaves out (see
   * WokenAsWritten): a context without a function is left alone; any other
   * takes state EVENT_RESUME and is requeued at key 0.
   */
  function Woken(s: Sched, c: CtxId): (r: Sched)
    requires c in s.co && c in s.expire && WellFormed(s.q)
    ensures r.co.Keys == s.co.Keys && r.expire.Keys == s.expire.Keys && WellFormed(r.q)
  {
    if !s.co[c].hasFunc then s
    else Requeued(s.(co := s.co[c := s.co[c].(state := EventResume)]), c)
  }

  /** mrkthr_set_interrupt, likewise corrected: rc becomes CO_RC_USER_INTERRUPTED, the state stays. */
  function Interrupted(s: Sched, c: CtxId): (r: Sched)
    requires c in s.co && c in s.expire && WellFormed(s.q)
    ensures r.co.Keys == s.co.Keys && r.expire.Keys == s.expire.Keys && WellFormed(r.q)
  {
    if !s.co[c].hasFunc then s
    else Requeued(s.(co := s.co[c := s.co[c].(rc := UserInterrupted)]), c)
  }

  /**
   * mrkthr_set_resume as written: expire_ticks 0 and sleepq_enqueue, with
   * no sleepq_remove first, so a context that already sleeps is queued a
   * second time.
   */
  function WokenAsWritten(s: Sched, c: CtxId): (r: Sched)
    requires c in s.co && c in s.expire && WellFormed(s.q)
    ensures r.co.Keys == s.co.Keys && r.expire.Keys == s.expire.Keys && WellFormed(r.q)
    ensures s.co[c].hasFunc ==> r.expire[c] == 0 && 0 in r.q && c in r.q[0]
  {
    if !s.co[c].hasFunc then s
    else Sched(s.co[c := s.co[c].(state := EventResume)], s.expire[c := 0], AppendQ(s.q, 0, c))
  }

  /** Context 1, with a function, asleep until tick 7. */
  const Sleeper: Sched := Sched(map[1 := Co(EventSleep, RcZero, true)], map[1 := 7], map[7 := [1]])

  /**
   * Another thread wakes the sleeper.  As written the sleeper is then in the
   * queue twice, at its old key and at 0, and the drain at tick 8 resumes it
   * twice.
   */
  lemma WokenAsWrittenResumesTwice()
    ensures WokenAsWritten(Sleeper, 1).q == map[7 := [1], 0 := [1]]
    ensures !NoDup(WokenAsWritten(Sleeper, 1).q)
    ensures DrainOrder(WokenAsWritten(Sleeper, 1).q, 8, true) == [1, 1]
  {
    assert WokenAsWritten(Sleeper, 1).q == map[7 := [1], 0 := [1]];
    QueuedTwiceDrainsTwice();
  }

  /** With the removal the sleeper leaves its old key and the drain at tick 8 resumes it once. */
  lemma WokenResumesOnce()
    ensures Woken(Sleeper, 1).q == map[0 := [1]]
    ensures DrainOrder(Woken(Sleeper, 1).q, 8, true) == [1]
  {
    var q0 := map[7 := [1]];
    assert RemoveAtQ(q0, 7, 1) == q0 - {7};
    assert q0 - {7} == map[];
    var good := AppendQ(map[], 0, 1);
    assert good == map[0 := [1]];
    assert Woken(Sleeper, 1).q == good;
    DrainOne(good, 0, 8);
  }

  /**
   * mrkthr_set_interrupt as written: rc CO_RC_USER_INTERRUPTED, expire_ticks
   * 0 and sleepq_enqueue, again with no sleepq_remove first.
   */
  function InterruptedAsWritten(s: Sched, c: CtxId): (r: Sched)
    requires c in s.co && c in s.expire && WellFormed(s.q)
    ensures r.co.Keys == s.co.Keys && r.expire.Keys == s.expire.Keys && WellFormed(r.q)
    ensures s.co[c].hasFunc ==> r.expire[c] == 0 && 0 in r.q && c in r.q[0] && r.co[c].rc == UserInterrupted
  {
    if !s.co[c].hasFunc then s
    else Sched(s.co[c := s.co[c].(rc := UserInterrupted)], s.expire[c := 0], AppendQ(s.q, 0, c))
  }

  /**
   * Another thread interrupts the sleeper.  As written it is then queued at
   * its old key 7 and at 0, and the drain at tick 8 resumes it twice.
   */
  lemma InterruptedAsWrittenResumesTwice()
    ensures InterruptedAsWritten(Sleeper, 1).q == map[7 := [1], 0 := [1]]
    ensures !NoDup(InterruptedAsWritten(Sleeper, 1).q)
    ensures DrainOrder(InterruptedAsWritten(Sleeper, 1).q, 8, true) == [1, 1]
  {
    assert InterruptedAsWritten(Sleeper, 1).q == map[7 := [1], 0 := [1]];
    QueuedTwiceDrainsTwice();
  }

  /** With the removal the interrupted sleeper leaves key 7 and the drain at tick 8 resumes it once. */
  lemma InterruptedResumesOnce()
    ensures Interrupted(Sleeper, 1).q == map[0 := [1]]
    ensures DrainOrder(Interrupted(Sleeper, 1).q, 8, true) == [1]
  {
    var q0 := map[7 := [1]];
    assert RemoveAtQ(q0, 7, 1) == q0 - {7};
    assert q0 - {7} == map[];
    var good := AppendQ(map[], 0, 1);
    assert good == map[0 := [1]];
    assert Interrupted(Sleeper, 1).q == good;
    DrainOne(good, 0, 8);
  }

  /** Context 1 queued at keys 7 and 0: a duplicate, and the drain at tick 8 resumes it twice. */
  lemma QueuedTwiceDrainsTwice()
    ensures !NoDup(map[7 := [1], 0 := [1]])
    ensures DrainOrder(map[7 := [1], 0 := [1]], 8, true) == [1, 1]
  {
    var bad := map[7 := [1], 0 := [1]];
    assert 1 in bad[0] && 1 in bad[7];
    DrainStep(bad, 8, true, 0);
    assert bad - {0} == map[7 := [1]];
    DrainOne(map[7 := [1]], 7, 8);
  }

  /** A queue with just context 1 at key `k` drains to exactly [1] once the clock is past `k`. */
  lemma DrainOne(q: Queue, k: nat, now: nat)
    requires q == map[k := [1]] && k < now
    ensures DrainOrder(q, now, true) == [1]
  {
    DrainStep(q, now, true, k);
    assert q - {k} == map[];
    DrainNone(map[], now, true);
  }

  /** Requeueing keeps the queue sane, puts `c` at key 0 and leaves every other context where it was. */
  lemma RequeuedOk(s: Sched, c: CtxId)
    requires Sane(s) && c in s.expire
    ensures Sane(Requeued(s, c))
    ensures Requeued(s, c).expire[c] == 0 && Queued(Requeued(s, c).q, c)
    ensures forall x :: x in s.expire && x != c ==>
      Requeued(s, c).expire[x] == s.expire[x] && (Queued(Requeued(s, c).q, x) <==> Queued(s.q, x))
  {
    var q1 := RemoveAtQ(s.q, s.expire[c], c);
    var r := Requeued(s, c);
    if Queued(s.q, c) {
      var k :| k in s.q && c in s.q[k];
    }
    RemoveAtKeepsNoDup(s.q, s.expire[c], c);
    RemoveAtSubset(s.q, s.expire[c], c);
    EnqueueKeepsNoDup(q1, 0, c, false);
    EnqueueSubset(q1, 0, c, false);
    forall k, x | k in r.q && x in r.q[k]
      ensures x in r.expire && r.expire[x] == k
    {
      if !(k == 0 && x == c) {
        assert k in q1 && x in q1[k];
        assert x != c;
      }
    }
  }

  /** set_resume wakes exactly the context it is given, when that context has a function. */
  lemma WokenOk(s: Sched, c: CtxId)
    requires Sane(s) && c in s.co
    ensures Sane(Woken(s, c))
    ensures s.co[c].hasFunc ==>
      Woken(s, c).co[c].state == EventResume && Woken(s, c).expire[c] == 0 && Queued(Woken(s, c).q, c)
    ensures !s.co[c].hasFunc ==> Woken(s, c) == s
    ensures forall x :: x in s.co && x != c ==>
      && Woken(s, c).co[x] == s.co[x] && Woken(s, c).expire[x] == s.expire[x]
      && (Queued(Woken(s, c).q, x) <==> Queued(s.q, x))
    ensures forall x :: x in s.co ==> Woken(s, c).co[x].hasFunc == s.co[x].hasFunc
  {
    if s.co[c].hasFunc {
      RequeuedOk(s.(co := s.co[c := s.co[c].(state := EventResume)]), c);
    }
  }

  /** set_interrupt sets the return code of exactly the context it is given, and requeues it. */
  lemma InterruptedOk(s: Sched, c: CtxId)
    requires Sane(s) && c in s.co
    ensures Sane(Interrupted(s, c))
    ensures s.co[c].hasFunc ==>
      && Interrupted(s, c).co[c] == s.co[c].(rc := UserInterrupted)
      && Interrupted(s, c).expire[c] == 0 && Queued(Interrupted(s, c).q, c)
    ensures !s.co[c].hasFunc ==> Interrupted(s, c) == s
    ensures forall x :: x in s.co && x != c ==>
      && Interrupted(s, c).co[x] == s.co[x] && Interrupted(s, c).expire[x] == s.expire[x]
      && (Queued(Interrupted(s, c).q, x) <==> Queued(s.q, x))
  {
    if s.co[c].hasFunc {
      RequeuedOk(s.(co := s.co[c := s.co[c].(rc := UserInterrupted)]), c);
    }
  }

  /** resume_waitq_all on values: set_resume for each joiner, in array order. */
  function WakeAll(s: Sched, ws: seq<Slot>): (r: Sched)
    requires WellFormed(s.q) && s.co.Keys == s.expire.Keys && WaitersIn(ws, s.co.Keys)
    ensures r.co.Keys == s.co.Keys && r.expire.Keys == s.expire.Keys && WellFormed(r.q)
    decreases |ws|
  {
    if ws == [] then s
    else
      var s1 := if ws[0].Waiter? then Woken(s, ws[0].c) else s;
      assert WaitersIn(ws[1..], s1.co.Keys) by {
        forall i | 0 <= i < |ws[1..]| && ws[1..][i].Waiter?
          ensures ws[1..][i].c in s1.co.Keys
        {
          assert ws[1..][i] == ws[i + 1];
        }
      }
      WakeAll(s1, ws[1..])
  }

  /**
   * What resume_waitq_all does to the threads: every joiner with a function
   * is in state EVENT_RESUME at key 0 of the queue, and every other context
   * keeps its co, its expire_ticks and its place in the queue.
   */
  lemma {:induction false} WakeAllOk(s: Sched, ws: seq<Slot>)
    requires Sane(s) && WaitersIn(ws, s.co.Keys)
    ensures Sane(WakeAll(s, ws))
    ensures forall i :: 0 <= i < |ws| && ws[i].Waiter? && s.co[ws[i].c].hasFunc ==>
      && WakeAll(s, ws).co[ws[i].c].state == EventResume
      && WakeAll(s, ws).expire[ws[i].c] == 0 && Queued(WakeAll(s, ws).q, ws[i].c)
    ensures forall x :: x in s.co && (Waiter(x) !in ws || !s.co[x].hasFunc) ==>
      && WakeAll(s, ws).co[x] == s.co[x] && WakeAll(s, ws).expire[x] == s.expire[x]
      && (Queued(WakeAll(s, ws).q, x) <==> Queued(s.q, x))
    ensures forall x :: x in s.co ==> WakeAll(s, ws).co[x].hasFunc == s.co[x].hasFunc
    decreases |ws|
  {
    if ws != [] {
      var s1 := if ws[0].Waiter? then Woken(s, ws[0].c) else s;
      if ws[0].Waiter? {
        WokenOk(s, ws[0].c);
      }
      var rest := ws[1..];
      assert WaitersIn(rest, s1.co.Keys) by {
        forall i | 0 <= i < |rest| && rest[i].Waiter?
          ensures rest[i].c in s1.co.Keys
        {
          assert rest[i] == ws[i + 1];
        }
      }
      WakeAllOk(s1, rest);
      var r := WakeAll(s, ws);
      assert r == WakeAll(s1, rest);
      forall i | 0 <= i < |ws| && ws[i].Waiter? && s.co[ws[i].c].hasFunc
        ensures r.co[ws[i].c].state == EventResume && r.expire[ws[i].c] == 0 && Queued(r.q, ws[i].c)
      {
        var c := ws[i].c;
        if i > 0 {
          assert rest[i - 1] == ws[i];
        } else if Waiter(c) in rest {
          var j :| 0 <= j < |rest| && rest[j] == Waiter(c);
          assert rest[j].Waiter? && s1.co[rest[j].c].hasFunc;
        }
      }
      forall x | x in s.co && (Waiter(x) !in ws || !s.co[x].hasFunc)
        ensures r.co[x] == s.co[x] && r.expire[x] == s.expire[x] && (Queued(r.q, x) <==> Queued(s.q, x))
      {
        assert Waiter(x) !in ws ==> Waiter(x) !in rest && ws[0] != Waiter(x);
      }
    }
  }


  /** One step of the walk: the suffix from slot `i` wakes slot i's joiner, then the rest. */
  lemma WakeAllStep(s: Sched, ws: seq<Slot>, i: nat)
    requires i < |ws| && WellFormed(s.q) && s.co.Keys == s.expire.Keys && WaitersIn(ws[i..], s.co.Keys)
    ensures ws[i].Waiter? ==> ws[i].c in s.co
    ensures WaitersIn(ws[i + 1..], s.co.Keys)
    ensures WakeAll(s, ws[i..]) == WakeAll(if ws[i].Waiter? then Woken(s, ws[i].c) else s, ws[i + 1..])
  {
    var rest := ws[i + 1..];
    assert ws[i..][0] == ws[i] && ws[i..][1..] == rest;
    forall j | 0 <= j < |rest| && rest[j].Waiter?
      ensures rest[j].c in s.co.Keys
    {
      assert rest[j] == ws[i..][j + 1];
    }
  }

  // ---------------------------------------------------------------------
  // The bookkeeping invariant on values

  /**
   * The same contexts (`keys`) in `co`, `waitq` and the sleep queue, each
   * one from the `ctxes` list; the free stack, the waitqs and `me` hold
   * contexts.
   */
  ghost predicate BookOk(co: map<CtxId, Co>, waitq: map<CtxId, seq<Slot>>, free: seq<CtxId>, nctx: nat,
                         me: Option<CtxId>, keys: set<CtxId>)
  {
    && co.Keys == keys && waitq.Keys == keys
    && (forall c :: c in co ==> c < nctx)
    && (forall i :: 0 <= i < |free| ==> free[i] in co)
    && (forall c :: c in waitq ==> WaitersIn(waitq[c], keys))
    && (me.Some? ==> me.value in co)
  }

  lemma PushBook(co: map<CtxId, Co>, waitq: map<CtxId, seq<Slot>>, free: seq<CtxId>, nctx: nat,
                 me: Option<CtxId>, keys: set<CtxId>, c: CtxId)
    requires BookOk(co, waitq, free, nctx, me, keys) && c in co
    ensures BookOk(co, waitq, free + [c], nctx, me, keys)
  {
    assert forall i :: 0 <= i < |free| ==> (free + [c])[i] == free[i];
  }

  lemma FreshBook(co: map<CtxId, Co>, waitq: map<CtxId, seq<Slot>>, free: seq<CtxId>, nctx: nat,
                  me: Option<CtxId>, keys: set<CtxId>)
    requires BookOk(co, waitq, free, nctx, me, keys)
    ensures nctx !in co
    ensures BookOk(co[nctx := Idle], waitq[nctx := []], free, nctx + 1, me, keys + {nctx})
  {
    forall c | c in waitq
      ensures WaitersIn(waitq[c], keys + {nctx})
    {
      assert WaitersIn(waitq[c], keys);
    }
  }

  lemma CoBook(co: map<CtxId, Co>, waitq: map<CtxId, seq<Slot>>, free: seq<CtxId>, nctx: nat,
               me: Option<CtxId>, keys: set<CtxId>, c: CtxId, v: Co, m: Option<CtxId>)
    requires BookOk(co, waitq, free, nctx, me, keys) && c in co && (m.Some? ==> m.value in co)
    ensures BookOk(co[c := v], waitq, free, nctx, m, keys)
  {
  }

  lemma ClearBook(co: map<CtxId, Co>, waitq: map<CtxId, seq<Slot>>, free: seq<CtxId>, nctx: nat,
                  me: Option<CtxId>, keys: set<CtxId>, t: CtxId, i: nat)
    requires BookOk(co, waitq, free, nctx, me, keys) && t in waitq && i < |waitq[t]|
    ensures BookOk(co, waitq[t := waitq[t][i := Vacant]], free, nctx, me, keys)
  {
    assert WaitersIn(waitq[t], keys);
  }

  /** A waitq after Joined holds the old joiners and `m`. */
  lemma JoinedWaiters(w: seq<Slot>, m: CtxId, keys: set<CtxId>)
    requires WaitersIn(w, keys) && m in keys
    ensures WaitersIn(Joined(w, m), keys)
  {
    var r := Joined(w, m);
    forall j | 0 <= j < |r| && r[j].Waiter?
      ensures r[j].c in keys
    {
      if j < |w| && j != FirstVacantIndex(w) {
        assert r[j] == w[j];
      }
    }
  }

  lemma JoinBook(co: map<CtxId, Co>, waitq: map<CtxId, seq<Slot>>, free: seq<CtxId>, nctx: nat,
                 me: Option<CtxId>, keys: set<CtxId>, t: CtxId, m: CtxId)
    requires BookOk(co, waitq, free, nctx, me, keys) && t in waitq && m in co
    ensures BookOk(co, waitq[t := Joined(waitq[t], m)], free, nctx, me, keys)
  {
    JoinedWaiters(waitq[t], m, keys);
  }

  /** set_resume and set_interrupt keep the contexts and their expire_ticks keys. */
  lemma SchedBook(s: Sched, r: Sched, waitq: map<CtxId, seq<Slot>>, free: seq<CtxId>, nctx: nat, me: Option<CtxId>)
    requires BookOk(s.co, waitq, free, nctx, me, s.expire.Keys)
    requires r.co.Keys == s.co.Keys && r.expire.Keys == s.expire.Keys
    ensures BookOk(r.co, waitq, free, nctx, me, r.expire.Keys)
  {
  }

  lemma CoUpdateTwice(co: map<CtxId, Co>, c: CtxId, a: Co, b: Co)
    ensures co[c := a][c := b] == co[c := b]
  {
  }

  lemma WaitqUpdateTwice(waitq: map<CtxId, seq<Slot>>, t: CtxId, a: seq<Slot>, b: seq<Slot>)
    ensures waitq[t := a][t := b] == waitq[t := b]
  {
  }

  /** Before the walk of resume_waitq_all no slot is cleared yet. */
  lemma WalkStart(waitq: map<CtxId, seq<Slot>>, t: CtxId)
    requires t in waitq
    ensures waitq == waitq[t := Vacants(0) + waitq[t][0..]]
  {
    assert Vacants(0) + waitq[t][0..] == waitq[t];
  }

  /** After the walk every slot is cleared and nothing is left to wake. */
  lemma WalkDone(w: seq<Slot>, i: nat)
    requires i == |w|
    ensures Vacants(i) + w[i..] == Vacants(|w|) && w[i..] == []
  {
  }

  /** co_fini on the value: the context is DORMANT again, with rc 0 and no function. */
  function Finalized(s: Sched, c: CtxId): (r: Sched)
    requires c in s.co
    ensures r.co.Keys == s.co.Keys && r.co[c] == Idle && r.expire == s.expire && r.q == s.q
  {
    s.(co := s.co[c := Idle])
  }

  // ---------------------------------------------------------------------
  // The threads

  class Threads {
    /** Each context's co fields. */
    var co: map<CtxId, Co>
    /** Each context's waitq array. */
    var waitq: map<CtxId, seq<Slot>>
    /** free_ctxes, bottom first: the last element is the top of the stack. */
    var freeCtxes: seq<CtxId>
    /** The length of the `ctxes` list; its contexts are 0 .. nctx - 1. */
    var nctx: nat
    /** `me`: the context that runs, or none while the loop itself runs. */
    var me: Option<CtxId>
    /** the_sleepq with the sleep-queue fields of every context. */
    const sq: LinkedSleepQueue

    /** The part of the state that set_resume and resume_waitq_all act on. */
    ghost function World(): Sched
      reads this, sq
    {
      Sched(co, sq.expire, sq.Contents())
    }

    /** The bookkeeping for the contexts `keys`. */
    ghost predicate Book(keys: set<CtxId>)
      reads this
    {
      BookOk(co, waitq, freeCtxes, nctx, me, keys)
    }

    ghost predicate Valid()
      reads this, sq
    {
      sq.Valid() && Book(sq.expire.Keys)
    }

    /** The sleep queue of a valid state holds each context once, at its expire_ticks. */
    lemma WorldSane()
      requires Valid()
      ensures Sane(World())
    {
      var l := sq.View();
      AbsNoDup(l);
      forall k, c | k in sq.Contents() && c in sq.Contents()[k]
        ensures c in sq.expire && sq.expire[c] == k
      {
        QueuedKey(l, k, c);
      }
    }

    /** mrkthr_init: no contexts, an empty sleep queue and no running thread. */
    constructor ()
      ensures Valid() && fresh(sq)
      ensures co == map[] && waitq == map[] && freeCtxes == [] && nctx == 0 && me == None
      ensures sq.Contents() == map[]
    {
      co, waitq, freeCtxes, nctx, me := map[], map[], [], 0, None;
      sq := new LinkedSleepQueue();
    }

    // -------------------------------------------------------------------
    // free_ctxes and mrkthr_new

    /** push_free_ctx: the context goes on top of the stack. */
    method PushFree(ghost keys: set<CtxId>, c: CtxId)
      requires Book(keys) && c in co
      modifies this
      ensures Book(keys) && freeCtxes == old(freeCtxes) + [c]
      ensures co == old(co) && waitq == old(waitq) && nctx == old(nctx) && me == old(me)
    {
      PushBook(co, waitq, freeCtxes, nctx, me, keys, c);
      freeCtxes := freeCtxes + [c];
    }

    /** The stack half of pop_free_ctx: the most recently pushed context comes off. */
    method PopTop(ghost keys: set<CtxId>) returns (c: CtxId)
      requires Book(keys) && freeCtxes != []
      modifies this
      ensures Book(keys) && c in co
      ensures c == old(freeCtxes)[|old(freeCtxes)| - 1] && freeCtxes == old(freeCtxes)[..|old(freeCtxes)| - 1]
      ensures co == old(co) && waitq == old(waitq) && nctx == old(nctx) && me == old(me)
    {
      c := freeCtxes[|freeCtxes| - 1];
      freeCtxes := freeCtxes[..|freeCtxes| - 1];
    }

    /** The co and waitq that mrkthr_ctx_init gives a new context at the end of `ctxes`. */
    method AddCtx(ghost keys: set<CtxId>) returns (c: CtxId)
      requires Book(keys)
      modifies this
      ensures Book(keys + {c}) && c == old(nctx) && c !in old(co) && nctx == old(nctx) + 1
      ensures co == old(co)[c := Idle] && waitq == old(waitq)[c := []]
      ensures freeCtxes == old(freeCtxes) && me == old(me)
    {
      c := nctx;
      FreshBook(co, waitq, freeCtxes, nctx, me, keys);
      nctx := nctx + 1;
      co := co[c := Idle];
      waitq := waitq[c := []];
    }

    /**
     * The list half of pop_free_ctx: list_incr makes a new context at the
     * end of `ctxes`, set up by mrkthr_ctx_init (DORMANT, expire_ticks 0,
     * no links, an empty waitq).
     */
    method Fresh() returns (c: CtxId)
      requires Valid()
      modifies this, sq
      ensures Valid() && c in co
      ensures c == old(nctx) && c !in old(co) && nctx == old(nctx) + 1
      ensures co == old(co)[c := Idle] && waitq == old(waitq)[c := []]
      ensures sq.expire == old(sq.expire)[c := 0] && sq.Contents() == old(sq.Contents())
      ensures freeCtxes == old(freeCtxes) && me == old(me)
    {
      ghost var keys := sq.expire.Keys;
      c := AddCtx(keys);
      sq.Track(c);
    }

    /**
     * pop_free_ctx: the top of the stack when there is one, otherwise a new
     * context from the list.
     */
    method PopFree() returns (c: CtxId)
      requires Valid()
      modifies this, sq
      ensures Valid() && c in co && me == old(me)
      ensures old(freeCtxes) != [] ==>
        && c == old(freeCtxes)[|old(freeCtxes)| - 1] && freeCtxes == old(freeCtxes)[..|old(freeCtxes)| - 1]
        && co == old(co) && waitq == old(waitq) && nctx == old(nctx) && unchanged(sq)
      ensures old(freeCtxes) == [] ==>
        && c == old(nctx) && c !in old(co) && freeCtxes == [] && nctx == old(nctx) + 1
        && co == old(co)[c := Idle] && waitq == old(waitq)[c := []]
        && sq.expire == old(sq.expire)[c := 0] && sq.Contents() == old(sq.Contents())
    {
      if freeCtxes != [] {
        c := PopTop(sq.expire.Keys);
      } else {
        c := Fresh();
      }
    }

    /** Stores a new co value for context `c`. */
    method SetCo(ghost keys: set<CtxId>, c: CtxId, v: Co)
      requires Book(keys) && c in co
      modifies this
      ensures Book(keys) && co == old(co)[c := v]
      ensures waitq == old(waitq) && freeCtxes == old(freeCtxes) && nctx == old(nctx) && me == old(me)
    {
      CoBook(co, waitq, freeCtxes, nctx, me, keys, c, v, me);
      co := co[c := v];
    }

    /**
     * mrkthr_new: a context from pop_free_ctx gets its function.  The source
     * asserts that the context it gets is finalized (co.id == -1); the id,
     * the name, the arguments, the stack and the machine context are not
     * modelled.
     */
    method New() returns (c: CtxId)
      requires Valid()
      requires freeCtxes != [] ==> co[freeCtxes[|freeCtxes| - 1]] == Idle
      modifies this, sq
      ensures Valid() && me == old(me) && c in co && co[c] == Co(Dormant, RcZero, true)
      ensures old(freeCtxes) != [] ==>
        && c == old(freeCtxes)[|old(freeCtxes)| - 1] && freeCtxes == old(freeCtxes)[..|old(freeCtxes)| - 1]
        && co == old(co)[c := Co(Dormant, RcZero, true)] && waitq == old(waitq) && nctx == old(nctx) && unchanged(sq)
      ensures old(freeCtxes) == [] ==>
        && c == old(nctx) && c !in old(co) && freeCtxes == [] && nctx == old(nctx) + 1
        && co == old(co)[c := Co(Dormant, RcZero, true)] && waitq == old(waitq)[c := []]
        && sq.expire == old(sq.expire)[c := 0] && sq.Contents() == old(sq.Contents())
    {
      ghost var co0 := co;
      c := PopFree();
      assert co[c] == Idle;
      SetCo(sq.expire.Keys, c, co[c].(hasFunc := true));
      CoUpdateTwice(co0, c, Idle, Co(Dormant, RcZero, true));
    }

    // -------------------------------------------------------------------
    // join_waitq and mrkthr_join

    /** The store of join_waitq: the first MAP_FAILED slot of t's waitq, or a new one, takes `m`. */
    method Enlist(ghost keys: set<CtxId>, t: CtxId, m: CtxId)
      requires Book(keys) && t in waitq && m in co
      modifies this
      ensures Book(keys) && waitq == old(waitq)[t := Joined(old(waitq)[t], m)]
      ensures co == old(co) && freeCtxes == old(freeCtxes) && nctx == old(nctx) && me == old(me)
    {
      var w := waitq[t];
      var i := FirstVacant(w);
      JoinedAt(w, i, m);
      JoinBook(co, waitq, freeCtxes, nctx, me, keys, t, m);
      if i < |w| {
        waitq := waitq[t := w[i := Waiter(m)]];
      } else {
        waitq := waitq[t := w + [Waiter(m)]];
      }
    }

    /**
     * join_waitq: the running thread waits in t's waitq with state
     * EVENT_JOINWAITQ; the yield that follows is where the model stops.
     */
    method JoinWaitq(t: CtxId)
      requires Valid() && me.Some? && t in waitq
      modifies this
      ensures Valid() && me == old(me)
      ensures waitq == old(waitq)[t := Joined(old(waitq)[t], me.value)]
      ensures co == old(co)[me.value := old(co)[me.value].(state := EventJoinWaitq)]
      ensures freeCtxes == old(freeCtxes) && nctx == old(nctx)
    {
      var m := me.value;
      Enlist(sq.expire.Keys, t, m);
      SetCo(sq.expire.Keys, m, co[m].(state := EventJoinWaitq));
    }

    /**
     * mrkthr_join: CO_RC_JOIN_INVALID for a target that is not waiting on
     * an event (a dormant one, or the caller itself, which is RESUMED);
     * otherwise the caller joins the target's waitq.
     */
    method Join(t: CtxId) returns (r: JoinResult)
      requires Valid() && me.Some? && t in co
      modifies this
      ensures Valid() && me == old(me)
      ensures !Resumable(old(co)[t].state) ==> r == JoinInvalid && unchanged(this)
      ensures Resumable(old(co)[t].state) ==>
        && r == Waiting && waitq == old(waitq)[t := Joined(old(waitq)[t], me.value)]
        && co == old(co)[me.value := old(co)[me.value].(state := EventJoinWaitq)]
        && freeCtxes == old(freeCtxes) && nctx == old(nctx)
    {
      if !Resumable(co[t].state) {
        return JoinInvalid;
      }
      JoinWaitq(t);
      r := Waiting;
    }

    // -------------------------------------------------------------------
    // mrkthr_set_resume and mrkthr_set_interrupt

    /** sleepq_remove, expire_ticks = 0 and sleepq_enqueue: the context moves to key 0. */
    method Requeue(c: CtxId)
      requires sq.Valid() && c in sq.expire
      modifies sq
      ensures sq.Valid() && sq.expire == old(sq.expire)[c := 0]
      ensures sq.Contents() == AppendQ(RemoveAtQ(old(sq.Contents()), old(sq.expire)[c], c), 0, c)
    {
      sq.Remove(c);
      sq.SetExpire(c, 0);
      sq.Enqueue(c);
    }

    /**
     * mrkthr_set_resume, with the sleepq_remove that the source leaves out
     * (see WokenAsWritten): Woken on the state.
     */
    method SetResume(c: CtxId)
      requires Valid() && c in co && me != Some(c)
      modifies this, sq
      ensures Valid() && World() == Woken(old(World()), c)
      ensures waitq == old(waitq) && freeCtxes == old(freeCtxes) && nctx == old(nctx) && me == old(me)
    {
      if !co[c].hasFunc {
        return;
      }
      ghost var s0 := World();
      SetCo(sq.expire.Keys, c, co[c].(state := EventResume));
      Requeue(c);
      assert World() == Woken(s0, c);
      SchedBook(s0, World(), waitq, freeCtxes, nctx, me);
    }

    /** mrkthr_set_interrupt, likewise corrected: Interrupted on the state. */
    method SetInterrupt(c: CtxId)
      requires Valid() && c in co && me != Some(c)
      modifies this, sq
      ensures Valid() && World() == Interrupted(old(World()), c)
      ensures waitq == old(waitq) && freeCtxes == old(freeCtxes) && nctx == old(nctx) && me == old(me)
    {
      if !co[c].hasFunc {
        return;
      }
      ghost var s0 := World();
      SetCo(sq.expire.Keys, c, co[c].(rc := UserInterrupted));
      Requeue(c);
      assert World() == Interrupted(s0, c);
      SchedBook(s0, World(), waitq, freeCtxes, nctx, me);
    }

    // -------------------------------------------------------------------
    // resume_waitq_all, resume and the exit of a thread

    /** `*t = MAP_FAILED` for slot `i` of t's waitq. */
    method ClearSlot(ghost keys: set<CtxId>, t: CtxId, i: nat)
      requires Book(keys) && t in waitq && i < |waitq[t]|
      modifies this
      ensures Book(keys) && waitq == old(waitq)[t := old(waitq)[t][i := Vacant]]
      ensures co == old(co) && freeCtxes == old(freeCtxes) && nctx == old(nctx) && me == old(me)
    {
      ClearBook(co, waitq, freeCtxes, nctx, me, keys, t, i);
      waitq := waitq[t := waitq[t][i := Vacant]];
    }

    /** One step of resume_waitq_all: a joiner in slot `i` is set to resume and the slot cleared. */
    method ResumeSlot(t: CtxId, i: nat)
      requires Valid() && t in waitq && i < |waitq[t]| && me == None
      modifies this, sq
      ensures Valid() && me == None
      ensures old(waitq)[t][i].Waiter? ==>
        old(waitq)[t][i].c in old(co) && World() == Woken(old(World()), old(waitq)[t][i].c)
      ensures !old(waitq)[t][i].Waiter? ==> World() == old(World())
      ensures waitq == old(waitq)[t := old(waitq)[t][i := Vacant]]
      ensures freeCtxes == old(freeCtxes) && nctx == old(nctx)
    {
      var s := waitq[t][i];
      if s.Waiter? {
        assert WaitersIn(waitq[t], co.Keys);
        SetResume(s.c);
        ClearSlot(sq.expire.Keys, t, i);
      } else {
        assert waitq[t][i := Vacant] == waitq[t];
      }
    }

    /**
     * resume_waitq_all on t's waitq: set_resume for each joiner in array
     * order, and every slot MAP_FAILED after it; the array keeps its length.
     */
    method ResumeWaitqAll(t: CtxId)
      requires Valid() && t in waitq && me == None
      modifies this, sq
      ensures Valid() && me == None
      ensures World() == WakeAll(old(World()), old(waitq)[t])
      ensures waitq == old(waitq)[t := Vacants(|old(waitq)[t]|)]
      ensures freeCtxes == old(freeCtxes) && nctx == old(nctx)
    {
      ghost var s0 := World();
      var w := waitq[t];
      WalkStart(waitq, t);
      var i := 0;
      while i < |w|
        invariant Valid() && me == None && i <= |w|
        invariant waitq == old(waitq)[t := Vacants(i) + w[i..]]
        invariant WaitersIn(w[i..], co.Keys)
        invariant WakeAll(World(), w[i..]) == WakeAll(s0, w)
        invariant freeCtxes == old(freeCtxes) && nctx == old(nctx)
      {
        WakeAllStep(World(), w, i);
        VacantStep(w, i);
        WaitqUpdateTwice(old(waitq), t, Vacants(i) + w[i..], (Vacants(i) + w[i..])[i := Vacant]);
        ResumeSlot(t, i);
        i := i + 1;
      }
      WalkDone(w, i);
    }

    /**
     * What resume does with a thread that has exited, or that it refuses:
     * resume_waitq_all on its waitq, co_fini, and push_free_ctx.
     */
    method Retire(c: CtxId)
      requires Valid() && c in co && me == None
      modifies this, sq
      ensures Valid() && me == None
      ensures World() == Finalized(WakeAll(old(World()), old(waitq)[c]), c)
      ensures waitq == old(waitq)[c := Vacants(|old(waitq)[c]|)]
      ensures freeCtxes == old(freeCtxes) + [c] && nctx == old(nctx)
    {
      ResumeWaitqAll(c);
      SetCo(sq.expire.Keys, c, Idle);
      PushFree(sq.expire.Keys, c);
    }

    /** `ctx->co.state = CO_STATE_RESUMED; me = ctx`. */
    method SwitchTo(ghost keys: set<CtxId>, c: CtxId)
      requires Book(keys) && c in co
      modifies this
      ensures Book(keys) && me == Some(c) && co == old(co)[c := old(co)[c].(state := Resumed)]
      ensures waitq == old(waitq) && freeCtxes == old(freeCtxes) && nctx == old(nctx)
    {
      CoBook(co, waitq, freeCtxes, nctx, me, keys, c, co[c].(state := Resumed), Some(c));
      co := co[c := co[c].(state := Resumed)];
      me := Some(c);
    }

    /** `me = NULL` once control is back in the loop. */
    method SwitchOut(ghost keys: set<CtxId>)
      requires Book(keys)
      modifies this
      ensures Book(keys) && me == None
      ensures co == old(co) && waitq == old(waitq) && freeCtxes == old(freeCtxes) && nctx == old(nctx)
    {
      me := None;
    }

    /**
     * resume up to the switch: a thread that is not waiting on an event is
     * retired with TRRET(RESUME + 1); any other takes state RESUMED and
     * becomes `me`.
     */
    method Resume(c: CtxId) returns (r: Switch)
      requires Valid() && c in co && me == None
      modifies this, sq
      ensures Valid()
      ensures !Resumable(old(co)[c].state) ==>
        && r == Refused && me == None
        && World() == Finalized(WakeAll(old(World()), old(waitq)[c]), c)
        && waitq == old(waitq)[c := Vacants(|old(waitq)[c]|)]
        && freeCtxes == old(freeCtxes) + [c] && nctx == old(nctx)
      ensures Resumable(old(co)[c].state) ==>
        && r == Switched && me == Some(c) && co == old(co)[c := old(co)[c].(state := Resumed)]
        && waitq == old(waitq) && freeCtxes == old(freeCtxes) && nctx == old(nctx) && unchanged(sq)
    {
      if !Resumable(co[c].state) {
        Retire(c);
        return Refused;
      }
      SwitchTo(sq.expire.Keys, c);
      r := Switched;
    }

    /**
     * resume once control is back: `me` is cleared; a thread that waits
     * again reports 0, and one still RESUMED has returned from its
     * function, so it is retired and RESUME + 2 is reported.  Any other
     * state is a fatal error in the source.
     */
    method ResumeReturn(c: CtxId) returns (rc: ResumeRc)
      requires Valid() && me == Some(c)
      requires Resumable(co[c].state) || co[c].state == Resumed
      modifies this, sq
      ensures Valid() && me == None
      ensures Resumable(old(co)[c].state) ==>
        && rc == Returned && co == old(co) && waitq == old(waitq)
        && freeCtxes == old(freeCtxes) && nctx == old(nctx) && unchanged(sq)
      ensures old(co)[c].state == Resumed ==>
        && rc == Exited
        && World() == Finalized(WakeAll(old(World()), old(waitq)[c]), c)
        && waitq == old(waitq)[c := Vacants(|old(waitq)[c]|)]
        && freeCtxes == old(freeCtxes) + [c] && nctx == old(nctx)
    {
      SwitchOut(sq.expire.Keys);
      if Resumable(co[c].state) {
        return Returned;
      }
      Retire(c);
      rc := Exited;
    }
  }
}
