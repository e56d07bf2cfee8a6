/**
 * The loop-independent half of the mnthr poller (src/poller.c):
 * poller_resume and poller_sift_sleepq.
 *
 * The switch into a thread is abstract.  Resume stops where swapcontext
 * would run the thread, with `me` set to it; the thread then runs through
 * Scheduler methods until it yields or returns, clearing `me`; Resumed is
 * what poller_resume does once control is back.
 *
 * poller_sift_sleepq first takes every expired key out of the sleep queue,
 * smallest first, into a run queue of buckets (CollectExpired); it then
 * walks the run queue and, for each bucket, resumes the host and then the
 * members in order (RunOrder), clearing each one's expire_ticks just before
 * it is resumed (ResumeExpired).  Threads run between two of those steps,
 * so that walk is a sequence of calls rather than one method.
 */
module Poller {
  import opened Wrappers
  import opened CoStates
  import opened Api
  import opened SleepQueue
  import opened MnthrModel
  import opened CtxPool
  import opened Mnthr

  /** How poller_resume left a context: given up on with an error, or switched to. */
  datatype Switch = Refused(rc: Rc) | Switched

  /** A context that is not DORMANT is not on the free list. */
  lemma ActiveNotFree(s: Scheduler, c: CtxId)
    requires s.Valid() && c in s.ctxs && s.ctxs[c].state != DORMANT
    ensures c !in s.freeList
  {
    forall i | 0 <= i < |s.freeList|
      ensures s.freeList[i] != c
    {
    }
  }

  /**
   * poller_resume up to the switch: a context that is not resumable is
   * taken out of the sleep queue and pushed to the free list, with error
   * TRRET(RESUME + 1); any other takes state RESUMED and becomes `me`.
   */
  method Resume(s: Scheduler, c: CtxId) returns (r: Switch)
    requires s.Valid() && s.me == None && c in s.ctxs && c !in s.freeList
    modifies s
    ensures !IsResumable(old(s.ctxs)[c].state) ==>
      r == Refused(RESUME_FAILED) && s.Discarded(c) && c in s.ctxs && s.ctxs[c] == Finalized(old(s.ctxs)[c])
    ensures IsResumable(old(s.ctxs)[c].state) ==>
      && r == Switched && s.Valid() && s.me == Some(c)
      && s.ctxs == old(s.ctxs)[c := old(s.ctxs)[c].(state := RESUMED)]
      && s.expire == old(s.expire) && s.hosting == old(s.hosting) && s.sleepq == old(s.sleepq)
      && s.waitqs == old(s.waitqs) && s.freeList == old(s.freeList) && s.ctxes == old(s.ctxes)
      && s.coId == old(s.coId) && s.nextCtx == old(s.nextCtx) && s.stacksize == old(s.stacksize)
  {
    if !IsResumable(s.ctxs[c].state) {
      s.Discard(c);
      return Refused(RESUME_FAILED);
    }
    var nc := s.ctxs[c].(state := RESUMED);
    RecordCore(s.stacksize, s.ctxs, s.expire, s.hosting, s.sleepq, s.waitqs, s.freeList, s.ctxes, s.nextCtx, c, nc);
    s.ctxs := s.ctxs[c := nc];
    s.me := Some(c);
    r := Switched;
  }

  /**
   * poller_resume once the thread has given control back: a thread that
   * waits (resumable state) reports its return code; one still RESUMED has
   * returned from its function, so it leaves the sleep queue and goes to
   * the free list, and its return code is reported.  Any other state is a
   * fatal error in the source.
   */
  method Resumed(s: Scheduler, c: CtxId) returns (rc: Rc)
    requires s.Valid() && s.me == None && c in s.ctxs
    requires IsResumable(s.ctxs[c].state) || s.ctxs[c].state == RESUMED
    modifies s
    ensures rc == old(s.ctxs)[c].rc
    ensures IsResumable(old(s.ctxs)[c].state) ==> unchanged(s)
    ensures old(s.ctxs)[c].state == RESUMED ==> s.Discarded(c)
  {
    if IsResumable(s.ctxs[c].state) {
      return s.ctxs[c].rc;
    }
    ActiveNotFree(s, c);
    s.Discard(c);
    rc := s.ctxs[c].rc;
  }

  // -------------------------------------------------------------------
  // poller_sift_sleepq

  /** The run queue read out in order: each bucket, host first. */
  function RunOrder(runq: seq<seq<CtxId>>): (r: seq<CtxId>)
    ensures runq == [] ==> r == []
  {
    if runq == [] then [] else RunOrder(runq[..|runq| - 1]) + runq[|runq| - 1]
  }

  /** Moving one bucket from the sleep queue to the back of the run queue keeps the read-out order. */
  lemma RunOrderStep(runq: seq<seq<CtxId>>, bucket: seq<CtxId>, rest: seq<CtxId>)
    ensures RunOrder(runq + [bucket]) + rest == RunOrder(runq) + (bucket + rest)
  {
    assert (runq + [bucket])[..|runq|] == runq;
  }

  /** Taking out an expired key leaves the unexpired part alone. */
  lemma DropExpiredKey(q: Queue, now: nat, k: nat)
    requires k in q && k < now
    ensures Unexpired(q - {k}, now) == Unexpired(q, now)
  {
  }

  /**
   * The first loop of poller_sift_sleepq, over the queue's value: while the
   * least key is below `now`, its bucket (host first) goes to the back of
   * the run queue and the key leaves the queue.  What is left is exactly
   * the unexpired part, and the run queue reads out in DrainOrder.
   */
  method Collect(q0: Queue, now: nat) returns (q: Queue, runq: seq<seq<CtxId>>)
    requires WellFormed(q0)
    ensures forall k :: k in q ==> k in q0 && q[k] == q0[k]
    ensures q == Unexpired(q0, now) && NoneExpired(q, now)
    ensures RunOrder(runq) == DrainOrder(q0, now, false)
  {
    q := q0;
    runq := [];
    while q != map[]
      invariant WellFormed(q) && forall k :: k in q ==> k in q0 && q[k] == q0[k]
      invariant RunOrder(runq) + DrainOrder(q, now, false) == DrainOrder(q0, now, false)
      invariant Unexpired(q, now) == Unexpired(q0, now)
      decreases |q.Keys|
    {
      var k := LeastKey(q.Keys);
      if k >= now {
        break;
      }
      DrainStep(q, now, false, k);
      DropExpiredKey(q, now, k);
      RunOrderStep(runq, q[k], DrainOrder(q - {k}, now, false));
      assert (q - {k}).Keys < q.Keys;
      runq := runq + [q[k]];
      q := q - {k};
    }
    DrainNone(q, now, false);
    assert Unexpired(q, now) == q;
  }

  /** The first loop of poller_sift_sleepq on the scheduler: only the sleep queue changes. */
  method CollectExpired(s: Scheduler, now: nat) returns (runq: seq<seq<CtxId>>)
    requires s.Valid()
    modifies s
    ensures s.Valid()
    ensures RunOrder(runq) == DrainOrder(old(s.sleepq), now, false)
    ensures s.sleepq == Unexpired(old(s.sleepq), now) && NoneExpired(s.sleepq, now)
    ensures s.ctxs == old(s.ctxs) && s.expire == old(s.expire) && s.hosting == old(s.hosting)
    ensures s.waitqs == old(s.waitqs) && s.me == old(s.me) && s.freeList == old(s.freeList)
    ensures s.ctxes == old(s.ctxes) && s.coId == old(s.coId) && s.nextCtx == old(s.nextCtx)
    ensures s.stacksize == old(s.stacksize)
  {
    var q;
    q, runq := Collect(s.sleepq, now);
    SubQueueCore(s.stacksize, s.ctxs, s.expire, s.hosting, s.sleepq, s.waitqs, s.freeList, s.ctxes, s.nextCtx, q);
    s.sleepq := q;
  }

  /**
   * The walk as written: a collected context is out of the sleep queue but
   * keeps its old expire_ticks.  When a thread resumed earlier in the same
   * walk passes it to set_resume, sleepq_remove finds nothing at that key
   * and the context is queued again at RESUME_NOW; the poller then sets its
   * expire_ticks to UNDEFINED while it is queued, and the queue no longer
   * matches expire_ticks.  set_interrupt requeues the same way.
   */
  lemma UnexpireAsWrittenIncoherent(ctxs: map<CtxId, Ctx>, expire: Expire, q: Queue, c: CtxId)
    requires SleepqCoherent(q, expire) && c in ctxs && c in expire && ctxs[c].hasF && !Queued(q, c)
    ensures Queued(ResumeQ(ctxs, expire, q, c), c)
    ensures !SleepqCoherent(ResumeQ(ctxs, expire, q, c), ResumeExpire(ctxs, expire, c)[c := SLEEP_UNDEFINED])
  {
    ResumeCoherent(ctxs, expire, q, c);
    var r := ResumeQ(ctxs, expire, q, c);
    var i :| 0 <= i < |r[SLEEP_RESUME_NOW]| && r[SLEEP_RESUME_NOW][i] == c;
    assert ResumeExpire(ctxs, expire, c)[c := SLEEP_UNDEFINED][r[SLEEP_RESUME_NOW][i]] != SLEEP_RESUME_NOW;
  }

  /**
   * `ctx->expire_ticks = MNTHR_SLEEP_UNDEFINED`, preceded by the
   * sleepq_remove that the walk leaves out (see UnexpireAsWrittenIncoherent):
   * a context requeued during the walk leaves the queue again, and one that
   * is not queued sees no change to it.
   */
  method Unexpire(s: Scheduler, c: CtxId)
    requires s.Valid() && s.me == None && c in s.ctxs && c !in s.freeList
    modifies s
    ensures s.Valid() && s.me == None && s.expire == old(s.expire)[c := SLEEP_UNDEFINED] && !Queued(s.sleepq, c)
    ensures c in old(s.expire) && s.sleepq == RemoveQ(old(s.sleepq), old(s.expire)[c], c)
    ensures !Queued(old(s.sleepq), c) ==> s.sleepq == old(s.sleepq)
    ensures s.ctxs == old(s.ctxs) && s.hosting == old(s.hosting)
    ensures s.waitqs == old(s.waitqs) && s.freeList == old(s.freeList) && s.ctxes == old(s.ctxes)
    ensures s.coId == old(s.coId) && s.nextCtx == old(s.nextCtx) && s.stacksize == old(s.stacksize)
  {
    if !Queued(s.sleepq, c) {
      RemoveIgnoredNotQueued(s.sleepq, s.expire[c], c);
    }
    s.Unsleep(c);
    UnexpireCore(s.stacksize, s.ctxs, s.expire, s.hosting, s.sleepq, s.waitqs, s.freeList, s.ctxes, s.nextCtx,
                 c, SLEEP_UNDEFINED);
    s.expire := s.expire[c := SLEEP_UNDEFINED];
  }

  /**
   * One step of the second loop of poller_sift_sleepq: the context, taken
   * out of the sleep queue by CollectExpired, gets expire_ticks UNDEFINED
   * (with the sleepq_remove of Unexpire, for a context requeued since) and
   * is handed to poller_resume.
   */
  method ResumeExpired(s: Scheduler, c: CtxId) returns (r: Switch)
    requires s.Valid() && s.me == None && c in s.ctxs && c !in s.freeList
    modifies s
    ensures !IsResumable(old(s.ctxs)[c].state) ==>
      && r == Refused(RESUME_FAILED) && s.Valid() && s.me == None
      && s.freeList == old(s.freeList) + [c] && c in s.ctxs && s.ctxs[c] == Finalized(old(s.ctxs)[c])
    ensures IsResumable(old(s.ctxs)[c].state) ==>
      && r == Switched && s.Valid() && s.me == Some(c)
      && s.ctxs == old(s.ctxs)[c := old(s.ctxs)[c].(state := RESUMED)]
      && s.expire == old(s.expire)[c := SLEEP_UNDEFINED] && s.expire[c] == SLEEP_UNDEFINED
      && s.hosting == old(s.hosting) && s.sleepq == RemoveQ(old(s.sleepq), old(s.expire)[c], c)
      && !Queued(s.sleepq, c) && (!Queued(old(s.sleepq), c) ==> s.sleepq == old(s.sleepq))
      && s.waitqs == old(s.waitqs) && s.freeList == old(s.freeList) && s.ctxes == old(s.ctxes)
      && s.coId == old(s.coId) && s.nextCtx == old(s.nextCtx) && s.stacksize == old(s.stacksize)
  {
    Unexpire(s, c);
    r := Resume(s, c);
  }
}
