/**
 * The scheduler bookkeeping of mnthr (src/mnthr.c): the contexts, the sleep
 * queue, the wait queues, the free list with its `abac` gate, the `ctxes`
 * array and its garbage collection, and the stack size.
 *
 * Switching machine contexts is not modelled.  A method that ends in
 * `yield()` in the source stops where the switch would happen and hands
 * control back to the poller by clearing `me`; what the thread sees when it
 * is switched back to is decided by whoever resumes it (module Poller).
 */
module Mnthr {
  import opened Wrappers
  import opened CoStates
  import opened Api
  import opened SleepQueue
  import opened MnthrModel
  import opened CtxPool
  import EvTicks
  import opened Machine

  /** The outcome of a call that may block: it returned, or it yielded waiting. */
  datatype Outcome = Done(rc: Rc) | Blocked

  class Scheduler {
    /** The static `stacksize` used for new stacks. */
    var stacksize: nat
    /** The running context (`me`), or none while the scheduler itself runs. */
    var me: Option<CtxId>
    /** Every live mnthr_ctx_t, by identity. */
    var ctxs: map<CtxId, Ctx>
    /** Each context's expire_ticks. */
    var expire: Expire
    /** Each context's hosting_waitq. */
    var hosting: Hosting
    /** the_sleepq. */
    var sleepq: Queue
    /** The wait queues: each context's own `waitq`, and those of condition variables. */
    var waitqs: Waitqs
    /** free_list, head first. */
    var freeList: seq<CtxId>
    /** The `ctxes` array; a slot cleared by mnthr_gc is None until compaction. */
    var ctxes: seq<Option<CtxId>>
    /** The static `co_id` counter that numbers new threads. */
    var coId: nat
    /** Identities handed out so far (stands for malloc returning a fresh structure). */
    var nextCtx: nat

    /** The bookkeeping invariant, whoever runs. */
    ghost predicate Core()
      reads this
    {
      && CoreOf(stacksize, ctxs, expire, hosting, sleepq, waitqs, freeList, ctxes, nextCtx)
      && (me.Some? ==> me.value in ctxs && me.value !in freeList)
    }

    /** The invariant between calls: a running thread is in state RESUMED. */
    ghost predicate Valid()
      reads this
    {
      Core() && (me.Some? ==> ctxs[me.value].state == RESUMED)
    }

    /** The fields no bookkeeping call but the context pool touches. */
    twostate predicate SamePool()
      reads this
    {
      && freeList == old(freeList) && ctxes == old(ctxes) && coId == old(coId)
      && nextCtx == old(nextCtx) && stacksize == old(stacksize)
    }

    /** The library as mnthr_init leaves it: nothing allocated, the default stack size. */
    constructor ()
      ensures Valid()
      ensures stacksize == STACKSIZE && me == None && ctxs == map[] && expire == map[] && hosting == map[]
      ensures sleepq == map[] && waitqs == map[] && freeList == [] && ctxes == [] && coId == 0
    {
      stacksize := STACKSIZE;
      me := None;
      ctxs := map[];
      expire := map[];
      hosting := map[];
      sleepq := map[];
      waitqs := map[];
      freeList := [];
      ctxes := [];
      coId := 0;
      nextCtx := 0;
    }

    /** mnthr_set_stacksize: store the adjusted size and return the previous one. */
    method SetStacksize(v: nat) returns (res: nat)
      requires Valid()
      modifies this
      ensures Valid()
      ensures res == old(stacksize) && stacksize == ClampRound(v)
      ensures StackSizeOk(stacksize)
      ensures ctxs == old(ctxs) && expire == old(expire) && hosting == old(hosting) && sleepq == old(sleepq)
      ensures waitqs == old(waitqs) && me == old(me) && freeList == old(freeList) && ctxes == old(ctxes)
      ensures coId == old(coId) && nextCtx == old(nextCtx)
    {
      res := stacksize;
      var w := v;
      if w < PAGE_SIZE * 2 {
        w := PAGE_SIZE * 2;
      } else if w > PAGE_SIZE * 2048 {
        w := PAGE_SIZE * 2048;
      }
      if w % PAGE_SIZE != 0 {
        w := w + (PAGE_SIZE - w % PAGE_SIZE);
      }
      stacksize := w;
    }

    // -------------------------------------------------------------------
    // Sleep queue primitives.  Each keys on the context's expire_ticks and
    // touches nothing but the_sleepq.

    /** sleepq_insert: become host, or go to the front of the host's bucket. */
    method SleepqInsert(c: CtxId)
      requires c in expire && WellFormed(sleepq)
      modifies this
      ensures sleepq == InsertQ(old(sleepq), old(expire)[c], c)
      ensures ctxs == old(ctxs) && expire == old(expire) && hosting == old(hosting)
      ensures waitqs == old(waitqs) && me == old(me) && SamePool()
    {
      var key := expire[c];
      if key in sleepq {
        var host := sleepq[key][0];
        var bucket := sleepq[key][1..];
        assert [host, c] + bucket == [host] + ([c] + bucket);
        if bucket == [] {
          assert [host] + [c] == [host, c] + bucket;
          sleepq := sleepq[key := [host] + [c]];
        } else {
          sleepq := sleepq[key := [host] + ([c] + bucket)];
        }
      } else {
        sleepq := sleepq[key := [c]];
      }
    }

    /** sleepq_append: become host, or go to the back of the host's bucket. */
    method SleepqAppend(c: CtxId)
      requires c in expire && WellFormed(sleepq)
      modifies this
      ensures sleepq == AppendQ(old(sleepq), old(expire)[c], c)
      ensures ctxs == old(ctxs) && expire == old(expire) && hosting == old(hosting)
      ensures waitqs == old(waitqs) && me == old(me) && SamePool()
    {
      var key := expire[c];
      if key in sleepq {
        sleepq := sleepq[key := sleepq[key] + [c]];
      } else {
        sleepq := sleepq[key := [c]];
      }
    }

    /** sleepq_insert_once: nothing when already host, otherwise as sleepq_insert. */
    method SleepqInsertOnce(c: CtxId)
      requires c in expire && WellFormed(sleepq)
      modifies this
      ensures sleepq == InsertOnceQ(old(sleepq), old(expire)[c], c)
      ensures ctxs == old(ctxs) && expire == old(expire) && hosting == old(hosting)
      ensures waitqs == old(waitqs) && me == old(me) && SamePool()
    {
      var key := expire[c];
      if key in sleepq {
        if sleepq[key][0] != c {
          SleepqInsert(c);
        }
      } else {
        SleepqInsert(c);
      }
    }

    /** The context's own enqueue discipline, as selected by mnthr_set_prio. */
    method SleepqEnqueue(c: CtxId)
      requires c in ctxs && c in expire && WellFormed(sleepq)
      modifies this
      ensures sleepq == EnqueueQ(old(sleepq), old(expire)[c], c, old(ctxs)[c].prio)
      ensures ctxs == old(ctxs) && expire == old(expire) && hosting == old(hosting)
      ensures waitqs == old(waitqs) && me == old(me) && SamePool()
    {
      if ctxs[c].prio {
        SleepqInsert(c);
      } else {
        SleepqAppend(c);
      }
    }

    /**
     * sleepq_remove: nothing when expire_ticks is UNDEFINED or has no node;
     * with a non-empty bucket, a removed host hands the bucket to its first
     * member and a member is unlinked; a lone host takes its key with it.
     */
    method SleepqRemove(c: CtxId)
      requires c in expire && WellFormed(sleepq)
      modifies this
      ensures sleepq == RemoveQ(old(sleepq), old(expire)[c], c)
      ensures ctxs == old(ctxs) && expire == old(expire) && hosting == old(hosting)
      ensures waitqs == old(waitqs) && me == old(me) && SamePool()
    {
      var key := expire[c];
      if key == SLEEP_UNDEFINED {
        return;
      }
      if key in sleepq {
        var sle := sleepq[key][0];
        var bucket := sleepq[key][1..];
        assert sleepq[key] == [sle] + bucket;
        if bucket != [] {
          if sle == c {
            sleepq := sleepq[key := bucket];
          } else if c in bucket {
            sleepq := sleepq[key := [sle] + RemoveFirst(bucket, c)];
          }
        } else if sle == c {
          sleepq := sleepq - {key};
        }
      }
    }

    /** mnthr_set_prio: choose front (flag set) or back insertion for `c`. */
    method SetPrio(c: CtxId, flag: bool)
      requires Valid() && c in ctxs
      modifies this
      ensures Valid()
      ensures ctxs == old(ctxs)[c := old(ctxs)[c].(prio := flag)]
      ensures expire == old(expire) && hosting == old(hosting) && sleepq == old(sleepq)
      ensures waitqs == old(waitqs) && me == old(me) && SamePool()
    {
      ctxs := ctxs[c := ctxs[c].(prio := flag)];
    }

    // -------------------------------------------------------------------
    // Setting threads for resume

    /**
     * set_resume: a context without a function is left alone; otherwise it
     * leaves the sleep queue, takes state SET_RESUME and key RESUME_NOW,
     * and is enqueued by its own discipline.
     */
    method SetResume(c: CtxId)
      requires Valid() && c in ctxs && me != Some(c)
      modifies this
      ensures Valid()
      ensures ctxs == ResumeCtxs(old(ctxs), c) && expire == ResumeExpire(old(ctxs), old(expire), c)
      ensures sleepq == ResumeQ(old(ctxs), old(expire), old(sleepq), c)
      ensures hosting == old(hosting) && waitqs == old(waitqs) && me == old(me) && SamePool()
    {
      if !ctxs[c].hasF {
        return;
      }
      var nc := ctxs[c].(state := SET_RESUME);
      ResumeCoherent(ctxs, expire, sleepq, c);
      LiveNotFree(freeList, ctxs, expire, hosting, c);
      FreeCtxsPoint(freeList, ctxs, expire, hosting, c, nc);
      FreeExpirePoint(freeList, ctxs[c := nc], expire, hosting, c, SLEEP_RESUME_NOW);
      SleepqRemove(c);
      ctxs := ctxs[c := nc];
      expire := expire[c := SLEEP_RESUME_NOW];
      SleepqEnqueue(c);
    }

    /**
     * mnthr_set_interrupt: as set_resume, but the context takes state
     * SET_INTERRUPT and return code USER_INTERRUPTED.
     */
    method SetInterrupt(c: CtxId)
      requires Valid() && c in ctxs && me != Some(c)
      modifies this
      ensures Valid()
      ensures ctxs == InterruptCtxs(old(ctxs), c) && expire == ResumeExpire(old(ctxs), old(expire), c)
      ensures sleepq == ResumeQ(old(ctxs), old(expire), old(sleepq), c)
      ensures hosting == old(hosting) && waitqs == old(waitqs) && me == old(me) && SamePool()
    {
      if !ctxs[c].hasF {
        return;
      }
      var nc := ctxs[c].(rc := CO_RC_USER_INTERRUPTED, state := SET_INTERRUPT);
      ResumeCoherent(ctxs, expire, sleepq, c);
      LiveNotFree(freeList, ctxs, expire, hosting, c);
      FreeCtxsPoint(freeList, ctxs, expire, hosting, c, nc);
      FreeExpirePoint(freeList, ctxs[c := nc], expire, hosting, c, SLEEP_RESUME_NOW);
      SleepqRemove(c);
      ctxs := ctxs[c := nc];
      expire := expire[c := SLEEP_RESUME_NOW];
      SleepqEnqueue(c);
    }

    // -------------------------------------------------------------------
    // Sleeping

    /**
     * yield: control goes back to the poller (swapcontext to main_uc).  The
     * running context may be in any state; nothing else changes.
     */
    method SwitchOut()
      requires Core() && me.Some?
      modifies this
      ensures Valid() && me == None
      ensures ctxs == old(ctxs) && expire == old(expire) && hosting == old(hosting) && sleepq == old(sleepq)
      ensures waitqs == old(waitqs) && SamePool()
    {
      me := None;
    }

    /**
     * The common part of the sleep paths once the state is set: drop the
     * old reference, take `key` as expire_ticks, enqueue by the context's
     * own discipline, then yield to the poller.
     */
    method SleepAt(st: bv32, key: nat)
      requires Valid() && me.Some? && key != SLEEP_UNDEFINED
      modifies this
      ensures Valid() && me == None
      ensures var m := old(me).value;
        && ctxs == old(ctxs)[m := old(ctxs)[m].(state := st)]
        && expire == old(expire)[m := key]
        && sleepq == EnqueueQ(RemoveQ(old(sleepq), old(expire)[m], m), key, m, old(ctxs)[m].prio)
        && Queued(sleepq, m) && (forall x :: x != m ==> (Queued(sleepq, x) <==> Queued(old(sleepq), x)))
      ensures hosting == old(hosting) && waitqs == old(waitqs) && SamePool()
    {
      var m := me.value;
      ghost var c0, e0, q0 := ctxs, expire, sleepq;
      ctxs := ctxs[m := ctxs[m].(state := st)];
      SleepqRemove(m);
      expire := expire[m := key];
      SleepqEnqueue(m);
      SleepCore(stacksize, c0, e0, hosting, q0, waitqs, freeList, ctxes, nextCtx, m, st, key);
      SwitchOut();
    }

    /** mnthr_sleep(msec): state SLEEP, key from MNTHR_SET_EXPIRE_TICKS, then yield. */
    method Sleep(msec: u64, now: u64)
      requires Valid() && me.Some?
      requires ExpireTicksFor(msec, EvTicks.Msec2TicksAbsolute(now, msec)) != SLEEP_UNDEFINED
      modifies this
      ensures Valid() && me == None
      ensures var m := old(me).value;
        var key := ExpireTicksFor(msec, EvTicks.Msec2TicksAbsolute(now, msec));
        && ctxs == old(ctxs)[m := old(ctxs)[m].(state := SLEEP)]
        && expire == old(expire)[m := key]
        && sleepq == EnqueueQ(RemoveQ(old(sleepq), old(expire)[m], m), key, m, old(ctxs)[m].prio)
      ensures hosting == old(hosting) && waitqs == old(waitqs) && SamePool()
    {
      SleepAt(SLEEP, ExpireTicksFor(msec, EvTicks.Msec2TicksAbsolute(now, msec)));
    }

    /** mnthr_sleep_usec(usec), then yield. */
    method SleepUsec(usec: u64, now: u64)
      requires Valid() && me.Some?
      requires ExpireTicksFor(usec, EvTicks.Usec2TicksAbsolute(now, usec)) != SLEEP_UNDEFINED
      modifies this
      ensures Valid() && me == None
      ensures var m := old(me).value;
        var key := ExpireTicksFor(usec, EvTicks.Usec2TicksAbsolute(now, usec));
        && ctxs == old(ctxs)[m := old(ctxs)[m].(state := SLEEP)]
        && expire == old(expire)[m := key]
        && sleepq == EnqueueQ(RemoveQ(old(sleepq), old(expire)[m], m), key, m, old(ctxs)[m].prio)
      ensures hosting == old(hosting) && waitqs == old(waitqs) && SamePool()
    {
      SleepAt(SLEEP, ExpireTicksFor(usec, EvTicks.Usec2TicksAbsolute(now, usec)));
    }

    /** mnthr_sleep_ticks(ticks), then yield. */
    method SleepTicks(ticks: u64, now: u64)
      requires Valid() && me.Some?
      requires ExpireTicksFor(ticks, EvTicks.TicksAbsolute(now, ticks)) != SLEEP_UNDEFINED
      modifies this
      ensures Valid() && me == None
      ensures var m := old(me).value;
        var key := ExpireTicksFor(ticks, EvTicks.TicksAbsolute(now, ticks));
        && ctxs == old(ctxs)[m := old(ctxs)[m].(state := SLEEP)]
        && expire == old(expire)[m := key]
        && sleepq == EnqueueQ(RemoveQ(old(sleepq), old(expire)[m], m), key, m, old(ctxs)[m].prio)
      ensures hosting == old(hosting) && waitqs == old(waitqs) && SamePool()
    {
      SleepAt(SLEEP, ExpireTicksFor(ticks, EvTicks.TicksAbsolute(now, ticks)));
    }

    /** mnthr_yield: state SLEEP at the absolute key 1, then yield. */
    method Yield()
      requires Valid() && me.Some?
      modifies this
      ensures Valid() && me == None
      ensures var m := old(me).value;
        && ctxs == old(ctxs)[m := old(ctxs)[m].(state := SLEEP)]
        && expire == old(expire)[m := SLEEP_RESUME_NOW]
        && sleepq == EnqueueQ(RemoveQ(old(sleepq), old(expire)[m], m), SLEEP_RESUME_NOW, m, old(ctxs)[m].prio)
      ensures hosting == old(hosting) && waitqs == old(waitqs) && SamePool()
    {
      SleepAt(SLEEP, 1);
    }

    /** mnthr_giveup: state SLEEP at key FOREVER, then yield. */
    method Giveup()
      requires Valid() && me.Some?
      modifies this
      ensures Valid() && me == None
      ensures var m := old(me).value;
        && ctxs == old(ctxs)[m := old(ctxs)[m].(state := SLEEP)]
        && expire == old(expire)[m := SLEEP_FOREVER]
        && sleepq == EnqueueQ(RemoveQ(old(sleepq), old(expire)[m], m), SLEEP_FOREVER, m, old(ctxs)[m].prio)
      ensures hosting == old(hosting) && waitqs == old(waitqs) && SamePool()
    {
      SleepAt(SLEEP, SLEEP_FOREVER);
    }

    // -------------------------------------------------------------------
    // Wait queues

    /**
     * append_me_to_waitq: the running context leaves the wait queue it was
     * in, if any, and goes to the back of `w`.
     */
    method AppendMeToWaitq(w: WaitqId)
      requires Core() && me.Some? && w in waitqs && w != Own(me.value)
      requires forall i :: 0 <= i < |freeList| ==> w != Own(freeList[i])
      modifies this
      ensures Core()
      ensures ctxs == old(ctxs) && expire == old(expire) && sleepq == old(sleepq) && me == old(me) && SamePool()
      ensures var m := me.value;
        && hosting == old(hosting)[m := Some(w)]
        && waitqs == MovedWaitqs(old(waitqs), old(hosting)[m], m, w)
        && waitqs[w] == Without(old(waitqs)[w], m) + [m]
    {
      var m := me.value;
      ghost var h0, w0 := hosting, waitqs;
      if hosting[m].Some? {
        RemoveMeFromWaitq(hosting[m].value);
      }
      JoinBack(w);
      RehostTwice(h0, m, Some(w));
      MovedToBack(w0, h0[m], m, w);
    }

    /** The running context, in no wait queue, joins the back of `w`. */
    method JoinBack(w: WaitqId)
      requires Core() && me.Some? && w in waitqs && w != Own(me.value) && hosting[me.value] == None
      requires forall i :: 0 <= i < |freeList| ==> w != Own(freeList[i])
      modifies this
      ensures Core()
      ensures ctxs == old(ctxs) && expire == old(expire) && sleepq == old(sleepq) && me == old(me) && SamePool()
      ensures var m := me.value;
        && m !in old(waitqs)[w]
        && hosting == old(hosting)[m := Some(w)]
        && waitqs == old(waitqs)[w := old(waitqs)[w] + [m]]
    {
      var m := me.value;
      JoinBackCoherent(waitqs, hosting, m, w);
      FreeHostingPoint(freeList, ctxs, expire, hosting, m, Some(w));
      waitqs := waitqs[w := waitqs[w] + [m]];
      hosting := hosting[m := Some(w)];
    }

    /** remove_me_from_waitq: the running context, which waits in `w`, leaves it. */
    method RemoveMeFromWaitq(w: WaitqId)
      requires Core() && me.Some? && hosting[me.value] == Some(w)
      modifies this
      ensures Core()
      ensures ctxs == old(ctxs) && expire == old(expire) && sleepq == old(sleepq) && me == old(me) && SamePool()
      ensures var m := me.value;
        && hosting == old(hosting)[m := None]
        && w in old(waitqs) && m in old(waitqs)[w]
        && waitqs == old(waitqs)[w := Without(old(waitqs)[w], m)]
        && |waitqs[w]| == |old(waitqs)[w]| - 1
    {
      LeaveWaitq(me.value, w);
    }

    /** Context `c`, which waits in `w`, leaves it and its hosting_waitq is cleared. */
    method LeaveWaitq(c: CtxId, w: WaitqId)
      requires Core() && c in hosting && c !in freeList && hosting[c] == Some(w)
      modifies this
      ensures Core()
      ensures ctxs == old(ctxs) && expire == old(expire) && sleepq == old(sleepq) && me == old(me) && SamePool()
      ensures && hosting == old(hosting)[c := None]
        && w in old(waitqs) && c in old(waitqs)[w]
        && waitqs == old(waitqs)[w := Without(old(waitqs)[w], c)]
        && |waitqs[w]| == |old(waitqs)[w]| - 1
    {
      LeaveCoherent(waitqs, hosting, c, w);
      FreeHostingPoint(freeList, ctxs, expire, hosting, c, None);
      PopFreeIdle(freeList, waitqs, w, Without(waitqs[w], c));
      waitqs := waitqs[w := Without(waitqs[w], c)];
      hosting := hosting[c := None];
    }

    /** The book a wake-up works on. */
    ghost function Book0(): Book
      reads this
    {
      Book(ctxs, expire, hosting, sleepq)
    }

    /** A context waiting in a queue is not on the free list. */
    lemma WaitqMemberNotFree(t: CtxId, w: WaitqId)
      requires Core() && w in waitqs && t in waitqs[w]
      ensures t in hosting && hosting[t] == Some(w) && t !in freeList
    {
      forall i | 0 <= i < |freeList|
        ensures freeList[i] != t
      {
      }
    }

    /**
     * resume_waitq_one: the head member, if any, leaves the queue, its
     * hosting_waitq is cleared and it is set for resume.
     */
    method ResumeWaitqOne(w: WaitqId)
      requires Valid() && w in waitqs
      requires me.Some? ==> me.value !in waitqs[w]
      modifies this
      ensures Valid()
      ensures old(waitqs)[w] == [] ==> waitqs == old(waitqs) && Book0() == old(Book0())
      ensures old(waitqs)[w] != [] ==>
        && waitqs == old(waitqs)[w := old(waitqs)[w][1..]]
        && Tracks(old(Book0()), old(waitqs)[w][0])
        && Book0() == WakeStep(old(Book0()), old(waitqs)[w][0])
      ensures me == old(me) && SamePool()
    {
      if waitqs[w] != [] {
        WakeHead(w);
      }
    }

    /** The loop body of resume_waitq_all and the branch of resume_waitq_one. */
    method WakeHead(w: WaitqId)
      requires Valid() && w in waitqs && waitqs[w] != []
      requires me.Some? ==> me.value !in waitqs[w]
      modifies this
      ensures Valid()
      ensures waitqs == old(waitqs)[w := old(waitqs)[w][1..]]
      ensures Tracks(old(Book0()), old(waitqs)[w][0])
      ensures Book0() == WakeStep(old(Book0()), old(waitqs)[w][0])
      ensures me == old(me) && SamePool()
    {
      var t := PopWaiter(w);
      SetResume(t);
    }

    /** The head member of a non-empty `w` leaves it and its hosting_waitq is cleared. */
    method PopWaiter(w: WaitqId) returns (t: CtxId)
      requires Valid() && w in waitqs && waitqs[w] != []
      requires me.Some? ==> me.value !in waitqs[w]
      modifies this
      ensures Valid()
      ensures ctxs == old(ctxs) && expire == old(expire) && sleepq == old(sleepq) && me == old(me) && SamePool()
      ensures t == old(waitqs)[w][0] && old(hosting)[t] == Some(w) && t in ctxs
      ensures waitqs == old(waitqs)[w := old(waitqs)[w][1..]] && hosting == old(hosting)[t := None]
      ensures me.Some? ==> me.value != t
    {
      t := waitqs[w][0];
      var rest := waitqs[w][1..];
      PopCoherent(waitqs, hosting, w);
      PopFreeIdle(freeList, waitqs, w, rest);
      WaitqMemberNotFree(t, w);
      FreeHostingPoint(freeList, ctxs, expire, hosting, t, None);
      waitqs := waitqs[w := rest];
      hosting := hosting[t := None];
    }

    /** Every member of a queue has a record. */
    lemma MembersTracked(w: WaitqId)
      requires Core() && w in waitqs
      ensures Holds(Book0(), waitqs[w])
    {
      forall i | 0 <= i < |waitqs[w]|
        ensures Tracks(Book0(), waitqs[w][i])
      {
      }
    }

    /**
     * resume_waitq_all: take members off the head until the queue is
     * empty, clearing each one's hosting_waitq and calling set_resume on it.
     */
    method ResumeWaitqAll(w: WaitqId)
      requires Valid() && w in waitqs
      requires me.Some? ==> me.value !in waitqs[w]
      modifies this
      ensures Valid()
      ensures waitqs == old(waitqs)[w := []]
      ensures Holds(old(Book0()), old(waitqs)[w])
      ensures Book0() == WakeAll(old(Book0()), old(waitqs)[w])
      ensures me == old(me) && SamePool()
    {
      MembersTracked(w);
      ghost var b0 := Book0();
      ghost var s0 := waitqs[w];
      ReplaceSame(waitqs, w);
      while waitqs[w] != []
        invariant Valid() && w in waitqs && waitqs == old(waitqs)[w := waitqs[w]]
        invariant Holds(Book0(), waitqs[w]) && WakeAll(Book0(), waitqs[w]) == WakeAll(b0, s0)
        invariant me.Some? ==> me.value !in waitqs[w]
        invariant me == old(me) && SamePool()
        decreases |waitqs[w]|
      {
        WakeAllCons(Book0(), waitqs[w]);
        ghost var before := waitqs[w];
        WakeHead(w);
        ReplaceTwice(old(waitqs), w, before, waitqs[w]);
      }
    }

    /**
     * The running context takes state `st`, joins the back of `w` and
     * yields: the shared end of mnthr_join, mnthr_set_interrupt_and_join
     * and mnthr_cond_wait.  A join queue belongs to a context that can
     * still be resumed, so it is neither the caller's nor a free one's.
     */
    method WaitIn(w: WaitqId, st: bv32)
      requires Valid() && me.Some? && w in waitqs
      requires w.Own? ==> w.owner in ctxs && IsResumable(ctxs[w.owner].state)
      modifies this
      ensures Valid() && me == None
      ensures var m := old(me).value;
        && w != Own(m)
        && ctxs == old(ctxs)[m := old(ctxs)[m].(state := st)]
        && hosting == old(hosting)[m := Some(w)]
        && waitqs == MovedWaitqs(old(waitqs), old(hosting)[m], m, w)
        && waitqs[w] == Without(old(waitqs)[w], m) + [m]
      ensures expire == old(expire) && sleepq == old(sleepq) && SamePool()
    {
      var m := me.value;
      if w.Own? {
        ResumableIsRunnable(ctxs[w.owner].state);
        ResumableNotFree(freeList, ctxs, expire, hosting, w.owner);
      }
      FreeCtxsPoint(freeList, ctxs, expire, hosting, m, ctxs[m].(state := st));
      ctxs := ctxs[m := ctxs[m].(state := st)];
      AppendMeToWaitq(w);
      SwitchOut();
    }

    /**
     * mnthr_join: a target whose state is not resumable (dormant, or the
     * caller itself, which is RESUMED) fails with JOIN_FAILURE; otherwise
     * the caller takes state JOIN, waits in the target's own queue and
     * yields.
     */
    method Join(target: CtxId) returns (out: Outcome)
      requires Valid() && me.Some? && target in ctxs
      modifies this
      ensures Valid()
      ensures !IsResumable(old(ctxs)[target].state) ==>
        && out == Done(JOIN_FAILURE) && me == old(me) && ctxs == old(ctxs)
        && hosting == old(hosting) && waitqs == old(waitqs)
      ensures IsResumable(old(ctxs)[target].state) ==>
        var m := old(me).value;
        && out == Blocked && me == None && target != m
        && ctxs == old(ctxs)[m := old(ctxs)[m].(state := JOIN)]
        && hosting == old(hosting)[m := Some(Own(target))]
        && waitqs == MovedWaitqs(old(waitqs), old(hosting)[m], m, Own(target))
        && waitqs[Own(target)] == Without(old(waitqs)[Own(target)], m) + [m]
      ensures expire == old(expire) && sleepq == old(sleepq) && SamePool()
    {
      if !IsResumable(ctxs[target].state) {
        return Done(JOIN_FAILURE);
      }
      assert target in hosting;
      WaitIn(Own(target), JOIN);
      out := Blocked;
    }

    /**
     * mnthr_set_interrupt_and_join: the same failure check, then interrupt
     * the target and wait for it with state JOIN_INTERRUPTED.
     */
    method SetInterruptAndJoin(target: CtxId) returns (out: Outcome)
      requires Valid() && me.Some? && target in ctxs
      modifies this
      ensures Valid()
      ensures !IsResumable(old(ctxs)[target].state) ==>
        && out == Done(JOIN_FAILURE) && me == old(me) && ctxs == old(ctxs)
        && hosting == old(hosting) && waitqs == old(waitqs) && sleepq == old(sleepq) && expire == old(expire)
      ensures IsResumable(old(ctxs)[target].state) ==>
        var m := old(me).value;
        && out == Blocked && me == None && target != m
        && ctxs == InterruptCtxs(old(ctxs), target)[m := old(ctxs)[m].(state := JOIN_INTERRUPTED)]
        && expire == ResumeExpire(old(ctxs), old(expire), target)
        && sleepq == ResumeQ(old(ctxs), old(expire), old(sleepq), target)
        && hosting == old(hosting)[m := Some(Own(target))]
        && waitqs == MovedWaitqs(old(waitqs), old(hosting)[m], m, Own(target))
        && waitqs[Own(target)] == Without(old(waitqs)[Own(target)], m) + [m]
      ensures SamePool()
    {
      if !IsResumable(ctxs[target].state) {
        return Done(JOIN_FAILURE);
      }
      assert target in hosting;
      ResumableIsRunnable(ctxs[target].state);
      SetInterrupt(target);
      InterruptKeepsResumable(old(ctxs), target);
      WaitIn(Own(target), JOIN_INTERRUPTED);
      out := Blocked;
    }

    /** mnthr_run: a DORMANT context is set for resume. */
    method Run(c: CtxId)
      requires Valid() && c in ctxs && ctxs[c].state == DORMANT
      modifies this
      ensures Valid()
      ensures ctxs == ResumeCtxs(old(ctxs), c) && expire == ResumeExpire(old(ctxs), old(expire), c)
      ensures sleepq == ResumeQ(old(ctxs), old(expire), old(sleepq), c)
      ensures hosting == old(hosting) && waitqs == old(waitqs) && me == old(me) && SamePool()
    {
      SetResume(c);
    }

    // -------------------------------------------------------------------
    // Condition variables

    /** The effect of mnthr_cond_init on queue `w`: it is empty, nothing else changes. */
    twostate predicate Emptied(w: WaitqId)
      reads this
    {
      && Valid() && waitqs == old(waitqs)[w := []]
      && ctxs == old(ctxs) && expire == old(expire) && hosting == old(hosting) && sleepq == old(sleepq)
      && me == old(me) && SamePool()
    }

    /** The running context took state `st`, went to the back of `w` and yielded (as WaitIn). */
    twostate predicate WaitedIn(w: WaitqId, st: bv32)
      reads this
    {
      && old(Valid()) && old(me).Some? && old(me).value in old(ctxs) && old(me).value in old(hosting)
      && w in old(waitqs) && Valid() && me == None && w in waitqs
      && var m := old(me).value;
        && ctxs == old(ctxs)[m := old(ctxs)[m].(state := st)]
        && hosting == old(hosting)[m := Some(w)]
        && waitqs == MovedWaitqs(old(waitqs), old(hosting)[m], m, w)
        && waitqs[w] == Without(old(waitqs)[w], m) + [m]
        && expire == old(expire) && sleepq == old(sleepq) && SamePool()
    }

    /** The effect of resume_waitq_one on `w`: its head, if any, leaves it and is set for resume. */
    twostate predicate WokeOne(w: WaitqId)
      reads this
    {
      && old(Valid()) && w in old(waitqs) && Valid() && me == old(me) && SamePool()
      && (old(waitqs)[w] == [] ==> waitqs == old(waitqs) && Book0() == old(Book0()))
      && (old(waitqs)[w] != [] ==>
        && waitqs == old(waitqs)[w := old(waitqs)[w][1..]]
        && Tracks(old(Book0()), old(waitqs)[w][0])
        && Book0() == WakeStep(old(Book0()), old(waitqs)[w][0]))
    }

    /** The effect of resume_waitq_all on `w`: it is emptied and every member set for resume in order. */
    twostate predicate WokeAll(w: WaitqId)
      reads this
    {
      && w in old(waitqs) && Valid() && me == old(me) && SamePool()
      && waitqs == old(waitqs)[w := []]
      && Holds(old(Book0()), old(waitqs)[w])
      && Book0() == WakeAll(old(Book0()), old(waitqs)[w])
    }

    /** The effect of mnthr_cond_fini on `w`: as WokeAll, and the queue goes away. */
    twostate predicate Retired(w: WaitqId)
      reads this
    {
      && w in old(waitqs) && Valid() && me == old(me) && SamePool()
      && waitqs == old(waitqs) - {w}
      && Holds(old(Book0()), old(waitqs)[w])
      && Book0() == WakeAll(old(Book0()), old(waitqs)[w])
    }

    /** mnthr_cond_init: the condition variable's queue is empty. */
    method CondInit(cond: nat)
      requires Valid() && (Cond(cond) in waitqs ==> waitqs[Cond(cond)] == [])
      modifies this
      ensures Emptied(Cond(cond))
    {
      AddEmptyCoherent(waitqs, hosting, Cond(cond));
      waitqs := waitqs[Cond(cond) := []];
    }

    /** mnthr_cond_wait: state CONDWAIT, wait at the back of the queue, yield. */
    method CondWait(cond: nat)
      requires Valid() && me.Some? && Cond(cond) in waitqs
      modifies this
      ensures WaitedIn(Cond(cond), CONDWAIT)
    {
      WaitIn(Cond(cond), CONDWAIT);
    }

    /** mnthr_cond_signal_all. */
    method CondSignalAll(cond: nat)
      requires Valid() && Cond(cond) in waitqs
      requires me.Some? ==> me.value !in waitqs[Cond(cond)]
      modifies this
      ensures WokeAll(Cond(cond))
    {
      ResumeWaitqAll(Cond(cond));
    }

    /** mnthr_cond_signal_one. */
    method CondSignalOne(cond: nat)
      requires Valid() && Cond(cond) in waitqs
      requires me.Some? ==> me.value !in waitqs[Cond(cond)]
      modifies this
      ensures WokeOne(Cond(cond))
    {
      ResumeWaitqOne(Cond(cond));
    }

    /** mnthr_cond_fini: wake everybody, then the queue goes away. */
    method CondFini(cond: nat)
      requires Valid() && Cond(cond) in waitqs
      requires me.Some? ==> me.value !in waitqs[Cond(cond)]
      modifies this
      ensures Retired(Cond(cond))
    {
      CondSignalAll(cond);
      DropCondQueue(cond);
    }

    /** An empty condition-variable queue goes away. */
    method DropCondQueue(cond: nat)
      requires Valid() && Cond(cond) in waitqs && waitqs[Cond(cond)] == []
      modifies this
      ensures Valid() && waitqs == old(waitqs) - {Cond(cond)}
      ensures ctxs == old(ctxs) && expire == old(expire) && hosting == old(hosting) && sleepq == old(sleepq)
      ensures me == old(me) && SamePool()
    {
      DropCondCore(stacksize, ctxs, expire, hosting, sleepq, waitqs, freeList, ctxes, nextCtx, Cond(cond));
      waitqs := waitqs - {Cond(cond)};
    }

    // -------------------------------------------------------------------
    // Return values and the abac gate

    /** mnthr_set_retval: store the running thread's return code, give back the previous one. */
    method SetRetval(rv: Rc) returns (prev: Rc)
      requires Valid() && me.Some?
      modifies this
      ensures Valid()
      ensures prev == old(ctxs)[old(me).value].rc
      ensures ctxs == old(ctxs)[old(me).value := old(ctxs)[old(me).value].(rc := rv)]
      ensures expire == old(expire) && hosting == old(hosting) && sleepq == old(sleepq)
      ensures waitqs == old(waitqs) && me == old(me) && SamePool()
    {
      var m := me.value;
      prev := ctxs[m].rc;
      FreeCtxsPoint(freeList, ctxs, expire, hosting, m, ctxs[m].(rc := rv));
      ctxs := ctxs[m := ctxs[m].(rc := rv)];
    }

    /** MNTHRET(rv): store rv as the thread's return code, then return rv itself. */
    method Ret(rv: Rc) returns (r: Rc)
      requires Valid() && me.Some?
      modifies this
      ensures Valid()
      ensures r == rv && old(me).value in ctxs && ctxs[old(me).value].rc == rv
      ensures ctxs == old(ctxs)[old(me).value := old(ctxs)[old(me).value].(rc := rv)]
      ensures expire == old(expire) && hosting == old(hosting) && sleepq == old(sleepq)
      ensures waitqs == old(waitqs) && me == old(me) && SamePool()
    {
      var _ := SetRetval(rv);
      r := rv;
    }

    /** The thread function returns: control goes back to the poller, state still RESUMED. */
    method Exit()
      requires Valid() && me.Some?
      modifies this
      ensures Valid() && me == None
      ensures ctxs == old(ctxs) && expire == old(expire) && hosting == old(hosting) && sleepq == old(sleepq)
      ensures waitqs == old(waitqs) && SamePool()
    {
      me := None;
    }

    /** mnthr_incabac: one more holder keeps the context out of reuse. */
    method Incabac(c: CtxId)
      requires Valid() && c in ctxs
      modifies this
      ensures Valid()
      ensures ctxs == old(ctxs)[c := old(ctxs)[c].(abac := old(ctxs)[c].abac + 1)]
      ensures expire == old(expire) && hosting == old(hosting) && sleepq == old(sleepq)
      ensures waitqs == old(waitqs) && me == old(me) && SamePool()
    {
      ctxs := ctxs[c := ctxs[c].(abac := ctxs[c].abac + 1)];
    }

    /** mnthr_decabac: one holder fewer; the source asserts the count is positive. */
    method Decabac(c: CtxId)
      requires Valid() && c in ctxs && ctxs[c].abac > 0
      modifies this
      ensures Valid()
      ensures ctxs == old(ctxs)[c := old(ctxs)[c].(abac := old(ctxs)[c].abac - 1)]
      ensures expire == old(expire) && hosting == old(hosting) && sleepq == old(sleepq)
      ensures waitqs == old(waitqs) && me == old(me) && SamePool()
    {
      ctxs := ctxs[c := ctxs[c].(abac := ctxs[c].abac - 1)];
    }
  
    // -------------------------------------------------------------------
    // The context pool

    /** The first steps of mnthr_ctx_finalize: expire_ticks UNDEFINED, the record finalized. */
    method FinalizeCtx(c: CtxId)
      requires Valid() && me == None && c in ctxs && c !in freeList && !Queued(sleepq, c)
      modifies this
      ensures Valid() && me == None
      ensures ctxs == old(ctxs)[c := Finalized(old(ctxs)[c])] && expire == old(expire)[c := SLEEP_UNDEFINED]
      ensures hosting == old(hosting) && sleepq == old(sleepq) && waitqs == old(waitqs) && SamePool()
    {
      UnqueuedRekey(sleepq, expire, c, SLEEP_UNDEFINED);
      FreeCtxsPoint(freeList, ctxs, expire, hosting, c, Finalized(ctxs[c]));
      FreeExpirePoint(freeList, ctxs[c := Finalized(ctxs[c])], expire, hosting, c, SLEEP_UNDEFINED);
      ctxs := ctxs[c := Finalized(ctxs[c])];
      expire := expire[c := SLEEP_UNDEFINED];
    }

    /**
     * The first half of push_free_ctx: finalize the context, then wake
     * everybody joined on it (resume_waitq_all on its own queue).
     */
    method FinalizeAndWake(c: CtxId)
      requires Valid() && me == None && c in ctxs && c !in freeList && !Queued(sleepq, c)
      modifies this
      ensures Valid() && me == None
      ensures Own(c) in old(waitqs) && c !in old(waitqs)[Own(c)]
      ensures Holds(FinalBook(old(Book0()), c), old(waitqs)[Own(c)])
      ensures Book0() == WakeAll(FinalBook(old(Book0()), c), old(waitqs)[Own(c)])
      ensures waitqs == old(waitqs)[Own(c) := []]
      ensures c in ctxs && ctxs[c] == Finalized(old(ctxs)[c]) && expire[c] == SLEEP_UNDEFINED
      ensures hosting[c] == old(hosting)[c]
      ensures SamePool()
    {
      NotInOwnQueue(waitqs, hosting, c);
      FinalizeCtx(c);
      ghost var b := Book0();
      ghost var s := waitqs[Own(c)];
      ResumeWaitqAll(Own(c));
      WakeAllClears(b, s);
    }

    /**
     * The second half of push_free_ctx: a finalized context leaves the wait
     * queue it is in, if any, and goes to the back of the free list.
     */
    method DetachAndPush(c: CtxId)
      requires Valid() && me == None && c in ctxs && c !in freeList
      requires ctxs[c].id == -1 && !ctxs[c].hasF && ctxs[c].state == DORMANT && expire[c] == SLEEP_UNDEFINED
      requires Own(c) in waitqs && waitqs[Own(c)] == []
      modifies this
      ensures Valid() && me == None
      ensures freeList == old(freeList) + [c] && hosting == old(hosting)[c := None]
      ensures old(hosting)[c].None? ==> waitqs == old(waitqs)
      ensures old(hosting)[c].Some? ==> var h := old(hosting)[c].value;
        h in old(waitqs) && waitqs == old(waitqs)[h := Without(old(waitqs)[h], c)]
      ensures ctxs == old(ctxs) && expire == old(expire) && sleepq == old(sleepq)
      ensures ctxes == old(ctxes) && coId == old(coId) && nextCtx == old(nextCtx) && stacksize == old(stacksize)
    {
      if hosting[c].Some? {
        LeaveWaitq(c, hosting[c].value);
      }
      FreePush(freeList, ctxs, expire, hosting, waitqs, c);
      freeList := freeList + [c];
    }

    /**
     * push_free_ctx: finalize the context (no id, no function, DORMANT,
     * expire_ticks UNDEFINED), wake everybody joined on it, take it out of
     * the queue it waits in, and put it at the back of the free list.  The
     * poller calls it on a context it has taken out of the sleep queue.
     */
    method PushFreeCtx(c: CtxId)
      requires Valid() && me == None && c in ctxs && c !in freeList && !Queued(sleepq, c)
      modifies this
      ensures Valid() && me == None
      ensures freeList == old(freeList) + [c]
      ensures Own(c) in old(waitqs) && Holds(FinalBook(old(Book0()), c), old(waitqs)[Own(c)])
      ensures var b := WakeAll(FinalBook(old(Book0()), c), old(waitqs)[Own(c)]);
        && ctxs == b.ctxs && expire == b.expire && sleepq == b.sleepq && hosting == b.hosting[c := None]
      ensures c in ctxs && ctxs[c] == Finalized(old(ctxs)[c]) && expire[c] == SLEEP_UNDEFINED
      ensures old(hosting)[c].None? ==> waitqs == old(waitqs)[Own(c) := []]
      ensures old(hosting)[c].Some? ==> var h := old(hosting)[c].value;
        h in old(waitqs) && waitqs == old(waitqs)[Own(c) := []][h := Without(old(waitqs)[h], c)]
      ensures ctxes == old(ctxes) && coId == old(coId) && nextCtx == old(nextCtx) && stacksize == old(stacksize)
    {
      FinalizeAndWake(c);
      DetachAndPush(c);
    }

    /** sleepq_remove, with the invariant kept: `c` is no longer in the sleep queue. */
    method Unsleep(c: CtxId)
      requires Valid() && c in ctxs
      modifies this
      ensures Valid() && !Queued(sleepq, c)
      ensures sleepq == RemoveQ(old(sleepq), old(expire)[c], c)
      ensures ctxs == old(ctxs) && expire == old(expire) && hosting == old(hosting)
      ensures waitqs == old(waitqs) && me == old(me) && SamePool()
    {
      UnsleepCore(stacksize, ctxs, expire, hosting, sleepq, waitqs, freeList, ctxes, nextCtx, c);
      SleepqRemove(c);
    }

    /**
     * What poller_resume does to a context it gives up on: sleepq_remove,
     * then push_free_ctx, all stated against the state before both.
     */
    twostate predicate Discarded(c: CtxId)
      reads this
    {
      && c in old(ctxs) && c in old(expire) && c in old(hosting) && WellFormed(old(sleepq)) && Own(c) in old(waitqs)
      && Valid() && me == None && freeList == old(freeList) + [c]
      && (var b0 := Book(old(ctxs), old(expire), old(hosting), RemoveQ(old(sleepq), old(expire)[c], c));
          && Holds(FinalBook(b0, c), old(waitqs)[Own(c)])
          && var b := WakeAll(FinalBook(b0, c), old(waitqs)[Own(c)]);
            ctxs == b.ctxs && expire == b.expire && sleepq == b.sleepq && hosting == b.hosting[c := None])
      && (old(hosting)[c].None? ==> waitqs == old(waitqs)[Own(c) := []])
      && (old(hosting)[c].Some? ==> var h := old(hosting)[c].value;
          h in old(waitqs) && waitqs == old(waitqs)[Own(c) := []][h := Without(old(waitqs)[h], c)])
      && ctxes == old(ctxes) && coId == old(coId) && nextCtx == old(nextCtx) && stacksize == old(stacksize)
    }

    /** sleepq_remove followed by push_free_ctx. */
    method Discard(c: CtxId)
      requires Valid() && me == None && c in ctxs && c !in freeList
      modifies this
      ensures Discarded(c)
      ensures c in ctxs && ctxs[c] == Finalized(old(ctxs)[c])
    {
      Unsleep(c);
      PushFreeCtx(c);
    }

    /**
     * The scan of mnthr_ctx_pop_free: the position of the first free
     * context whose `abac` is zero, or the length of the free list.
     */
    method FindIdle() returns (i: nat)
      requires forall j :: 0 <= j < |freeList| ==> freeList[j] in ctxs
      ensures FirstIdle(freeList, ctxs) == (if i < |freeList| then Some(i) else None)
      ensures i <= |freeList|
    {
      i := 0;
      while i < |freeList| && ctxs[freeList[i]].abac != 0
        invariant i <= |freeList|
        invariant forall j :: 0 <= j < i ==> ctxs[freeList[j]].abac > 0
      {
        i := i + 1;
      }
    }

    /**
     * mnthr_ctx_pop_free: the first free context that nobody holds
     * (`abac` zero) leaves the free list with rc OK; without one, a new
     * context is made.
     */
    method PopFree() returns (c: CtxId)
      requires Valid()
      modifies this
      ensures Valid()
      ensures c in ctxs && c !in freeList && ctxs[c].id == -1 && !ctxs[c].hasF && ctxs[c].state == DORMANT
      ensures var i := FirstIdle(old(freeList), old(ctxs));
        i.Some? ==>
          && c == old(freeList)[i.value] && freeList == RemoveAt(old(freeList), i.value)
          && ctxs == old(ctxs)[c := old(ctxs)[c].(rc := OK)]
          && expire == old(expire) && hosting == old(hosting) && waitqs == old(waitqs)
          && ctxes == old(ctxes) && nextCtx == old(nextCtx)
      ensures FirstIdle(old(freeList), old(ctxs)).None? ==>
        && c == old(nextCtx) && c !in old(ctxs) && freeList == old(freeList)
        && ctxs == old(ctxs)[c := InitCtx] && expire == old(expire)[c := SLEEP_UNDEFINED]
        && hosting == old(hosting)[c := None] && waitqs == old(waitqs)[Own(c) := []]
        && ctxes == old(ctxes) + [Some(c)] && nextCtx == old(nextCtx) + 1
      ensures sleepq == old(sleepq) && me == old(me) && coId == old(coId) && stacksize == old(stacksize)
    {
      var i := FindIdle();
      if i < |freeList| {
        c := freeList[i];
        FreeRemoveAt(freeList, ctxs, expire, hosting, waitqs, i);
        FreeCtxsPoint(RemoveAt(freeList, i), ctxs, expire, hosting, c, ctxs[c].(rc := OK));
        freeList := RemoveAt(freeList, i);
        ctxs := ctxs[c := ctxs[c].(rc := OK)];
      } else {
        c := CtxNew();
      }
    }

    /** mnthr_ctx_new: a new slot at the end of `ctxes` holding a context as mnthr_ctx_init leaves it. */
    method CtxNew() returns (c: CtxId)
      requires Valid()
      modifies this
      ensures Valid()
      ensures c == old(nextCtx) && c !in old(ctxs) && nextCtx == old(nextCtx) + 1
      ensures ctxs == old(ctxs)[c := InitCtx] && expire == old(expire)[c := SLEEP_UNDEFINED]
      ensures hosting == old(hosting)[c := None] && waitqs == old(waitqs)[Own(c) := []]
      ensures ctxes == old(ctxes) + [Some(c)]
      ensures sleepq == old(sleepq) && me == old(me) && freeList == old(freeList) && coId == old(coId)
      ensures stacksize == old(stacksize)
    {
      c := nextCtx;
      ctxs, expire, hosting, waitqs, ctxes, nextCtx :=
        ctxs[c := InitCtx], expire[c := SLEEP_UNDEFINED], hosting[c := None], waitqs[Own(c) := []],
        ctxes + [Some(c)], nextCtx + 1;
      FreshValid();
    }

    /** What mnthr_ctx_new does to the fields keeps the invariant. */
    twostate lemma FreshValid()
      requires old(Valid())
      requires ctxs == old(ctxs)[old(nextCtx) := InitCtx] && expire == old(expire)[old(nextCtx) := SLEEP_UNDEFINED]
      requires hosting == old(hosting)[old(nextCtx) := None] && waitqs == old(waitqs)[Own(old(nextCtx)) := []]
      requires ctxes == old(ctxes) + [Some(old(nextCtx))] && nextCtx == old(nextCtx) + 1
      requires sleepq == old(sleepq) && me == old(me) && freeList == old(freeList) && stacksize == old(stacksize)
      ensures Valid()
    {
      FreshCore(old(stacksize), old(ctxs), old(expire), old(hosting), old(sleepq), old(waitqs), old(freeList),
                old(ctxes), old(nextCtx));
    }

    /**
     * mnthr_new (VNEW_BODY over mnthr_ctx_pop_free): take a context from
     * the pool, number it with `co_id` (then incremented) and give it its
     * function.  The name, the machine context and the stack are not
     * modelled.
     */
    method New() returns (c: CtxId)
      requires Valid()
      modifies this
      ensures Valid()
      ensures c in ctxs && c !in freeList && me != Some(c)
      ensures ctxs[c].id == old(coId) && ctxs[c].hasF && ctxs[c].state == DORMANT && coId == old(coId) + 1
      ensures var i := FirstIdle(old(freeList), old(ctxs));
        i.Some? ==>
          && c == old(freeList)[i.value] && freeList == RemoveAt(old(freeList), i.value)
          && ctxs == old(ctxs)[c := old(ctxs)[c].(id := old(coId), hasF := true, rc := OK)]
          && expire == old(expire) && hosting == old(hosting) && waitqs == old(waitqs)
          && ctxes == old(ctxes) && nextCtx == old(nextCtx)
      ensures FirstIdle(old(freeList), old(ctxs)).None? ==>
        && c == old(nextCtx) && c !in old(ctxs) && freeList == old(freeList)
        && ctxs == old(ctxs)[c := InitCtx.(id := old(coId), hasF := true)]
        && expire == old(expire)[c := SLEEP_UNDEFINED]
        && hosting == old(hosting)[c := None] && waitqs == old(waitqs)[Own(c) := []]
        && ctxes == old(ctxes) + [Some(c)] && nextCtx == old(nextCtx) + 1
      ensures sleepq == old(sleepq) && me == old(me) && stacksize == old(stacksize)
    {
      ghost var i := FirstIdle(freeList, ctxs);
      ghost var m := ctxs;
      c := PopFree();
      Number(c);
      if i.Some? {
        UpdateTwice(m, c, m[c].(rc := OK), ctxs[c]);
      } else {
        UpdateTwice(m, c, InitCtx, ctxs[c]);
      }
    }

    /** The context `c` from the pool takes the next `co_id` and its function. */
    method Number(c: CtxId)
      requires Valid() && c in ctxs && c !in freeList
      modifies this
      ensures Valid() && c in ctxs
      ensures ctxs == old(ctxs)[c := old(ctxs)[c].(id := old(coId), hasF := true)] && coId == old(coId) + 1
      ensures expire == old(expire) && hosting == old(hosting) && sleepq == old(sleepq) && waitqs == old(waitqs)
      ensures me == old(me) && freeList == old(freeList) && ctxes == old(ctxes) && nextCtx == old(nextCtx)
      ensures stacksize == old(stacksize)
    {
      var nc := ctxs[c].(id := coId, hasF := true);
      RecordCore(stacksize, ctxs, expire, hosting, sleepq, waitqs, freeList, ctxes, nextCtx, c, nc);
      ctxs := ctxs[c := nc];
      coId := coId + 1;
    }

    /**
     * mnthr_spawn: mnthr_new, then mnthr_run: the new thread is set for
     * resume and queued at RESUME_NOW by its own discipline.
     */
    method Spawn() returns (c: CtxId)
      requires Valid()
      modifies this
      ensures Valid()
      ensures c in ctxs && c !in freeList && me != Some(c) && coId == old(coId) + 1
      ensures ctxs[c].id == old(coId) && ctxs[c].hasF && ctxs[c].state == SET_RESUME
      ensures expire[c] == SLEEP_RESUME_NOW
      ensures sleepq == EnqueueQ(old(sleepq), SLEEP_RESUME_NOW, c, ctxs[c].prio)
      ensures forall x :: x in old(ctxs) && x != c ==> x in ctxs && ctxs[x] == old(ctxs)[x]
      ensures me == old(me) && stacksize == old(stacksize)
    {
      c := New();
      ghost var q := sleepq;
      Run(c);
    }

    /**
     * mnthr_gc: contexts on the free list that nobody holds are destroyed
     * (their records, their join queues and their slots go), the held ones
     * form the new free list in `ctxes` order, the array is compacted with
     * the survivors in their old order, and the number destroyed is returned.
     */
    method Gc() returns (res: nat)
      requires Valid()
      modifies this
      ensures Valid()
      ensures var d := Reclaimed(old(freeList), old(ctxs));
        && res == |d|
        && ctxs == old(ctxs) - d && expire == old(expire) - d && hosting == old(hosting) - d
        && waitqs == old(waitqs) - OwnQueues(d)
      ensures freeList == KeptOf(old(ctxes), old(freeList), old(ctxs))
      ensures Present(ctxes) == Present(Cleared(old(ctxes), old(freeList), old(ctxs)))
      ensures sleepq == old(sleepq) && me == old(me) && coId == old(coId) && nextCtx == old(nextCtx)
      ensures stacksize == old(stacksize)
    {
      var s, kept, dropped, n := ClearPass(ctxes, freeList, ctxs);
      var packed := CompactSlots(s);
      GcDropped(ctxes, freeList, ctxs);
      GcCore(stacksize, ctxs, expire, hosting, sleepq, waitqs, freeList, ctxes, nextCtx, packed);
      if me.Some? {
        GcKeepsLive(ctxes, freeList, ctxs, me.value);
      }
      Reclaim(dropped, kept, packed);
      res := n;
    }

    /** The end of mnthr_gc: the reclaimed contexts go, the kept ones are the free list. */
    method Reclaim(d: set<CtxId>, kept: seq<CtxId>, packed: seq<Option<CtxId>>)
      requires Valid()
      requires CoreOf(stacksize, ctxs - d, expire - d, hosting - d, sleepq, waitqs - OwnQueues(d), kept, packed, nextCtx)
      requires me.Some? ==> me.value !in d && me.value !in kept
      modifies this
      ensures Valid()
      ensures ctxs == old(ctxs) - d && expire == old(expire) - d && hosting == old(hosting) - d
      ensures waitqs == old(waitqs) - OwnQueues(d) && freeList == kept && ctxes == packed
      ensures sleepq == old(sleepq) && me == old(me) && coId == old(coId) && nextCtx == old(nextCtx)
      ensures stacksize == old(stacksize)
    {
      ctxs, expire, hosting, waitqs, freeList, ctxes :=
        ctxs - d, expire - d, hosting - d, waitqs - OwnQueues(d), kept, packed;
    }
  }
}
