/**
 * The synchronisation primitives of mnthr (src/mnthr.c) built on condition
 * variables: the counting semaphore, the inverted semaphore and the
 * readers-writer lock.  Each owns one condition variable of the scheduler,
 * named by `cond`.  A call that would wait returns Blocked after the
 * caller has gone into the condition variable's queue (Scheduler.CondWait);
 * what it does once woken is not modelled.
 */
module Sync {
  import opened CoStates
  import opened Api
  import opened MnthrModel
  import opened Mnthr

  /** 2^32: `nreaders` is an unsigned int. */
  const U32: nat := 0x1_0000_0000

  /** mnthr_sema_t: `i` of `n` units are free. */
  class Sema {
    const cond: nat
    var n: int
    var i: int

    /** The counting invariant the semaphore keeps. */
    ghost predicate Valid()
      reads this
    {
      0 <= i <= n
    }

    /** mnthr_sema_init: an empty queue and all `n` units free. */
    constructor (s: Scheduler, cond: nat, n: int)
      requires s.Valid() && (Cond(cond) in s.waitqs ==> s.waitqs[Cond(cond)] == [])
      modifies s
      ensures this.cond == cond && this.n == n && i == n
      ensures 0 <= n ==> Valid()
      ensures s.Emptied(Cond(cond))
    {
      this.cond := cond;
      this.n := n;
      i := n;
      new;
      s.CondInit(cond);
    }

    /** mnthr_sema_acquire: take a free unit, or wait in the queue. */
    method Acquire(s: Scheduler) returns (out: Outcome)
      requires Valid() && s.Valid() && s.me.Some? && Cond(cond) in s.waitqs
      modifies this, s
      ensures Valid() && n == old(n)
      ensures old(i) > 0 ==> out == Done(OK) && i == old(i) - 1 && unchanged(s)
      ensures old(i) == 0 ==> out == Blocked && i == 0 && s.WaitedIn(Cond(cond), CONDWAIT)
    {
      if i > 0 {
        i := i - 1;
        out := Done(OK);
      } else {
        s.CondWait(cond);
        out := Blocked;
      }
    }

    /** mnthr_sema_try_acquire: take a free unit, or fail with SEMA_TRY_ACQUIRE_FAIL. */
    method TryAcquire() returns (rc: Rc)
      modifies this
      ensures n == old(n)
      ensures old(i) > 0 ==> rc == OK && i == old(i) - 1
      ensures old(i) <= 0 ==> rc == SEMA_TRY_ACQUIRE_FAIL && i == old(i)
      ensures old(Valid()) ==> Valid()
    {
      if i > 0 {
        i := i - 1;
        rc := OK;
      } else {
        rc := SEMA_TRY_ACQUIRE_FAIL;
      }
    }

    /** mnthr_sema_release: wake the first waiter, give the unit back. */
    method Release(s: Scheduler)
      requires 0 <= i < n
      requires s.Valid() && Cond(cond) in s.waitqs && (s.me.Some? ==> s.me.value !in s.waitqs[Cond(cond)])
      modifies this, s
      ensures i == old(i) + 1 && n == old(n) && Valid()
      ensures s.WokeOne(Cond(cond))
    {
      s.CondSignalOne(cond);
      i := i + 1;
    }

    /** mnthr_sema_fini: wake everybody, drop the queue, mark both counters -1. */
    method Fini(s: Scheduler)
      requires s.Valid() && Cond(cond) in s.waitqs && (s.me.Some? ==> s.me.value !in s.waitqs[Cond(cond)])
      modifies this, s
      ensures n == -1 && i == -1
      ensures s.Retired(Cond(cond))
    {
      s.CondFini(cond);
      n := -1;
      i := -1;
    }
  }

  /** mnthr_inverted_sema_t: a waiter goes on once `i` has reached `n`. */
  class InvertedSema {
    const cond: nat
    var n: int
    var i: int

    /** mnthr_inverted_sema_init: an empty queue and a zero count. */
    constructor (s: Scheduler, cond: nat, n: int)
      requires s.Valid() && (Cond(cond) in s.waitqs ==> s.waitqs[Cond(cond)] == [])
      modifies s
      ensures this.cond == cond && this.n == n && i == 0
      ensures s.Emptied(Cond(cond))
    {
      this.cond := cond;
      this.n := n;
      i := 0;
      new;
      s.CondInit(cond);
    }

    /**
     * mnthr_inverted_sema_acquire: the source asserts 0 <= i <= n before
     * counting up, then wakes the first waiter.
     */
    method Acquire(s: Scheduler)
      requires 0 <= i <= n
      requires s.Valid() && Cond(cond) in s.waitqs && (s.me.Some? ==> s.me.value !in s.waitqs[Cond(cond)])
      modifies this, s
      ensures i == old(i) + 1 && n == old(n)
      ensures s.WokeOne(Cond(cond))
    {
      i := i + 1;
      s.CondSignalOne(cond);
    }

    /** mnthr_inverted_sema_release: count down; the source asserts 0 <= i <= n afterwards. */
    method Release()
      requires 0 <= i - 1 <= n
      modifies this
      ensures i == old(i) - 1 && n == old(n) && 0 <= i <= n
    {
      i := i - 1;
    }

    /** mnthr_inverted_sema_wait: go on when `i` has reached `n`, otherwise wait in the queue. */
    method Wait(s: Scheduler) returns (out: Outcome)
      requires 0 <= i <= n
      requires s.Valid() && s.me.Some? && Cond(cond) in s.waitqs
      modifies s
      ensures i >= n ==> out == Done(OK) && unchanged(s)
      ensures i < n ==> out == Blocked && s.WaitedIn(Cond(cond), CONDWAIT)
    {
      if i < n {
        s.CondWait(cond);
        out := Blocked;
      } else {
        out := Done(OK);
      }
    }

    /** mnthr_inverted_sema_fini: wake everybody, drop the queue, mark both counters -1. */
    method Fini(s: Scheduler)
      requires s.Valid() && Cond(cond) in s.waitqs && (s.me.Some? ==> s.me.value !in s.waitqs[Cond(cond)])
      modifies this, s
      ensures n == -1 && i == -1
      ensures s.Retired(Cond(cond))
    {
      s.CondFini(cond);
      n := -1;
      i := -1;
    }
  }

  /** mnthr_rwlock_t: a count of readers and a writer flag. */
  class RwLock {
    const cond: nat
    var nreaders: nat
    var fwriter: bool

    /** A writer never shares the lock with readers; the count is a 32-bit unsigned value. */
    ghost predicate Valid()
      reads this
    {
      nreaders < U32 && !(fwriter && nreaders > 0)
    }

    /** mnthr_rwlock_init: an empty queue, no readers, no writer. */
    constructor (s: Scheduler, cond: nat)
      requires s.Valid() && (Cond(cond) in s.waitqs ==> s.waitqs[Cond(cond)] == [])
      modifies s
      ensures this.cond == cond && nreaders == 0 && !fwriter && Valid()
      ensures s.Emptied(Cond(cond))
    {
      this.cond := cond;
      nreaders := 0;
      fwriter := false;
      new;
      s.CondInit(cond);
    }

    /** mnthr_rwlock_acquire_read: a reader more, or wait in the queue while a writer holds the lock. */
    method AcquireRead(s: Scheduler) returns (out: Outcome)
      requires Valid() && s.Valid() && s.me.Some? && Cond(cond) in s.waitqs
      modifies this, s
      ensures Valid() && fwriter == old(fwriter)
      ensures !old(fwriter) ==> out == Done(OK) && nreaders == (old(nreaders) + 1) % U32 && unchanged(s)
      ensures old(fwriter) ==> out == Blocked && nreaders == old(nreaders) && s.WaitedIn(Cond(cond), CONDWAIT)
    {
      if fwriter {
        s.CondWait(cond);
        out := Blocked;
      } else {
        nreaders := (nreaders + 1) % U32;
        out := Done(OK);
      }
    }

    /** mnthr_rwlock_try_acquire_read: fails exactly when a writer holds the lock. */
    method TryAcquireRead() returns (rc: Rc)
      requires Valid()
      modifies this
      ensures Valid() && fwriter == old(fwriter)
      ensures old(fwriter) ==> rc == RWLOCK_TRY_ACQUIRE_READ_FAIL && nreaders == old(nreaders)
      ensures !old(fwriter) ==> rc == OK && nreaders == (old(nreaders) + 1) % U32
    {
      if fwriter {
        return RWLOCK_TRY_ACQUIRE_READ_FAIL;
      }
      nreaders := (nreaders + 1) % U32;
      rc := OK;
    }

    /**
     * mnthr_rwlock_release_read: the source asserts there is no writer;
     * one reader fewer (an unsigned decrement), and the last one out wakes
     * the first waiter.
     */
    method ReleaseRead(s: Scheduler)
      requires Valid() && !fwriter
      requires s.Valid() && Cond(cond) in s.waitqs && (s.me.Some? ==> s.me.value !in s.waitqs[Cond(cond)])
      modifies this, s
      ensures Valid() && !fwriter && nreaders == (old(nreaders) + U32 - 1) % U32
      ensures nreaders == 0 ==> s.WokeOne(Cond(cond))
      ensures nreaders != 0 ==> unchanged(s)
    {
      nreaders := (nreaders + U32 - 1) % U32;
      if nreaders == 0 {
        s.CondSignalOne(cond);
      }
    }

    /** mnthr_rwlock_acquire_write: take the lock when it is free, otherwise wait in the queue. */
    method AcquireWrite(s: Scheduler) returns (out: Outcome)
      requires Valid() && s.Valid() && s.me.Some? && Cond(cond) in s.waitqs
      modifies this, s
      ensures Valid() && nreaders == old(nreaders)
      ensures !old(fwriter) && old(nreaders) == 0 ==> out == Done(OK) && fwriter && unchanged(s)
      ensures old(fwriter) || old(nreaders) > 0 ==>
        out == Blocked && fwriter == old(fwriter) && s.WaitedIn(Cond(cond), CONDWAIT)
    {
      if fwriter || nreaders > 0 {
        s.CondWait(cond);
        out := Blocked;
      } else {
        fwriter := true;
        out := Done(OK);
      }
    }

    /** mnthr_rwlock_try_acquire_write: succeeds exactly with no writer and no reader. */
    method TryAcquireWrite() returns (rc: Rc)
      requires Valid()
      modifies this
      ensures Valid() && nreaders == old(nreaders)
      ensures old(fwriter) || old(nreaders) > 0 ==> rc == RWLOCK_TRY_ACQUIRE_WRITE_FAIL && fwriter == old(fwriter)
      ensures !old(fwriter) && old(nreaders) == 0 ==> rc == OK && fwriter
    {
      if fwriter || nreaders > 0 {
        return RWLOCK_TRY_ACQUIRE_WRITE_FAIL;
      }
      fwriter := true;
      rc := OK;
    }

    /** mnthr_rwlock_release_write: the source asserts a writer and no reader; free the lock, wake everybody. */
    method ReleaseWrite(s: Scheduler)
      requires fwriter && nreaders == 0
      requires s.Valid() && Cond(cond) in s.waitqs && (s.me.Some? ==> s.me.value !in s.waitqs[Cond(cond)])
      modifies this, s
      ensures Valid() && !fwriter && nreaders == 0
      ensures s.WokeAll(Cond(cond))
    {
      fwriter := false;
      s.CondSignalAll(cond);
    }

    /** mnthr_rwlock_fini: wake everybody, drop the queue, no readers, no writer. */
    method Fini(s: Scheduler)
      requires s.Valid() && Cond(cond) in s.waitqs && (s.me.Some? ==> s.me.value !in s.waitqs[Cond(cond)])
      modifies this, s
      ensures Valid() && nreaders == 0 && !fwriter
      ensures s.Retired(Cond(cond))
    {
      s.CondFini(cond);
      nreaders := 0;
      fwriter := false;
    }
  }
}
