/**
 * The bookkeeping state of mnthr (src/mnthr.c) as values: the fields of a
 * context, the invariants that tie the sleep queue, the wait queues and the
 * free list to those fields, and the specifications of set_resume and the
 * wait-queue wake-ups.  The class Mnthr.Scheduler is proved against these.
 *
 * The fields of mnthr_ctx_t that the invariants read are kept in maps of
 * their own (expire_ticks, hosting_waitq), the rest in one record per
 * context.
 */
module MnthrModel {
  import opened Wrappers
  import opened CoStates
  import opened Api
  import opened SleepQueue

  /** A wait queue is either a context's own join queue or a condition variable's. */
  datatype WaitqId = Own(owner: CtxId) | Cond(cond: nat)

  /**
   * The other fields of mnthr_ctx_t that the bookkeeping reads and writes.
   * `hasF` stands for `co.f != NULL` and `prio` for
   * `sleepq_enqueue == sleepq_insert`.
   */
  datatype Ctx = Ctx(id: int, hasF: bool, abac: nat, state: bv32, rc: Rc, prio: bool)

  /** A context as mnthr_ctx_init leaves it. */
  const InitCtx: Ctx := Ctx(-1, false, 0, DORMANT, OK, false)

  type Expire = map<CtxId, nat>
  type Hosting = map<CtxId, Option<WaitqId>>
  type Waitqs = map<WaitqId, seq<CtxId>>

  // ---------------------------------------------------------------------
  // Stack size

  const MIN_STACKSIZE: nat := PAGE_SIZE * 2
  const MAX_STACKSIZE: nat := PAGE_SIZE * 2048

  ghost predicate StackSizeOk(v: nat)
  {
    MIN_STACKSIZE <= v <= MAX_STACKSIZE && v % PAGE_SIZE == 0
  }

  /**
   * mnthr_set_stacksize's adjustment: clamp into [2, 2048] pages, then
   * round up to a whole page.  The result is the least page multiple that
   * is at least the clamped request.
   */
  function ClampRound(v: nat): (r: nat)
    ensures StackSizeOk(r)
    ensures var c := if v < MIN_STACKSIZE then MIN_STACKSIZE
                     else if v > MAX_STACKSIZE then MAX_STACKSIZE else v;
      c <= r < c + PAGE_SIZE
  {
    var c := if v < MIN_STACKSIZE then MIN_STACKSIZE
             else if v > MAX_STACKSIZE then MAX_STACKSIZE else v;
    if c % PAGE_SIZE != 0 then c + (PAGE_SIZE - c % PAGE_SIZE) else c
  }

  /** A size already in range is kept, so adjusting twice changes nothing. */
  lemma ClampRoundIdempotent(v: nat)
    ensures StackSizeOk(v) ==> ClampRound(v) == v
    ensures ClampRound(ClampRound(v)) == ClampRound(v)
  {
  }

  /** A larger request never yields a smaller stack. */
  lemma ClampRoundMonotone(a: nat, b: nat)
    requires a <= b
    ensures ClampRound(a) <= ClampRound(b)
  {
  }

  // ---------------------------------------------------------------------
  // The invariants

  /** Every queued context's expire_ticks is its key; no key is UNDEFINED. */
  ghost predicate SleepqCoherent(q: Queue, expire: Expire)
  {
    && WellFormed(q) && NoDup(q) && SLEEP_UNDEFINED !in q
    && (forall k, i :: k in q && 0 <= i < |q[k]| ==> q[k][i] in expire && expire[q[k][i]] == k)
  }

  /**
   * A context is in wait queue `w` exactly when its hosting_waitq is `w`;
   * every context has its own join queue and never waits in it; a join
   * queue belongs to a context that exists.
   */
  ghost predicate WaitqsCoherent(w: Waitqs, hosting: Hosting)
  {
    WqDistinct(w) && WqOwners(w, hosting) && WqMembers(w, hosting) && WqOwn(w, hosting) && WqHosted(w, hosting)
  }

  ghost predicate WqDistinct(w: Waitqs)
  {
    forall id :: id in w ==> DistinctSeq(w[id])
  }

  ghost predicate WqOwners(w: Waitqs, hosting: Hosting)
  {
    forall id :: id in w && id.Own? ==> id.owner in hosting
  }

  ghost predicate WqMembers(w: Waitqs, hosting: Hosting)
  {
    forall id, i :: id in w && 0 <= i < |w[id]| ==> w[id][i] in hosting && hosting[w[id][i]] == Some(id)
  }

  ghost predicate WqOwn(w: Waitqs, hosting: Hosting)
  {
    forall c :: c in hosting ==> Own(c) in w && hosting[c] != Some(Own(c))
  }

  ghost predicate WqHosted(w: Waitqs, hosting: Hosting)
  {
    forall c :: c in hosting && hosting[c].Some? ==> hosting[c].value in w && c in w[hosting[c].value]
  }

  /**
   * A context on the free list is finalized: no function, no identity,
   * DORMANT, expire_ticks UNDEFINED (so not queued), not waiting anywhere.
   */
  ghost predicate FreeClean(fl: seq<CtxId>, ctxs: map<CtxId, Ctx>, expire: Expire, hosting: Hosting)
  {
    && DistinctSeq(fl)
    && forall i :: 0 <= i < |fl| ==>
         && fl[i] in ctxs && !ctxs[fl[i]].hasF && ctxs[fl[i]].state == DORMANT
         && ctxs[fl[i]].id == -1
         && fl[i] in expire && expire[fl[i]] == SLEEP_UNDEFINED
         && fl[i] in hosting && hosting[fl[i]] == None
  }

  /** Nobody waits for a context on the free list. */
  ghost predicate FreeIdle(fl: seq<CtxId>, w: Waitqs)
  {
    forall i :: 0 <= i < |fl| ==> Own(fl[i]) in w && w[Own(fl[i])] == []
  }

  /** The contexts that occupy a slot of `ctxes`. */
  ghost function Slots(s: seq<Option<CtxId>>): set<CtxId>
  {
    if s == [] then {}
    else Slots(s[..|s| - 1]) + (if s[|s| - 1].Some? then {s[|s| - 1].value} else {})
  }

  /** No context occupies two slots. */
  ghost predicate UniqueSlots(s: seq<Option<CtxId>>)
  {
    s == [] ||
    (UniqueSlots(s[..|s| - 1]) && (s[|s| - 1].Some? ==> s[|s| - 1].value !in Slots(s[..|s| - 1])))
  }

  /** Every slot of `ctxes` is occupied, by exactly the live contexts, each once. */
  ghost predicate CtxesCoherent(ctxes: seq<Option<CtxId>>, ids: set<CtxId>)
  {
    && (forall i :: 0 <= i < |ctxes| ==> ctxes[i].Some?)
    && Slots(ctxes) == ids && UniqueSlots(ctxes)
  }

  /** Identities below `next` are taken; a new allocation uses `next`. */
  ghost predicate Below(ids: set<CtxId>, next: nat)
  {
    forall c :: c in ids ==> c < next
  }

  /** The bookkeeping invariant over the scheduler's values. */
  ghost predicate CoreOf(stacksize: nat, ctxs: map<CtxId, Ctx>, expire: Expire, hosting: Hosting, sleepq: Queue,
                         waitqs: Waitqs, fl: seq<CtxId>, ctxes: seq<Option<CtxId>>, next: nat)
  {
    && StackSizeOk(stacksize)
    && expire.Keys == ctxs.Keys && hosting.Keys == ctxs.Keys
    && SleepqCoherent(sleepq, expire)
    && WaitqsCoherent(waitqs, hosting)
    && FreeClean(fl, ctxs, expire, hosting)
    && FreeIdle(fl, waitqs)
    && CtxesCoherent(ctxes, ctxs.Keys)
    && Below(ctxs.Keys, next)
  }

  // ---------------------------------------------------------------------
  // Frame lemmas for the free list

  lemma FreeCtxsPoint(fl: seq<CtxId>, ctxs: map<CtxId, Ctx>, expire: Expire, hosting: Hosting, c: CtxId, x: Ctx)
    requires FreeClean(fl, ctxs, expire, hosting) && c !in fl
    ensures FreeClean(fl, ctxs[c := x], expire, hosting)
  {
  }

  lemma FreeExpirePoint(fl: seq<CtxId>, ctxs: map<CtxId, Ctx>, expire: Expire, hosting: Hosting, c: CtxId, k: nat)
    requires FreeClean(fl, ctxs, expire, hosting) && c !in fl
    ensures FreeClean(fl, ctxs, expire[c := k], hosting)
  {
  }

  lemma FreeHostingPoint(fl: seq<CtxId>, ctxs: map<CtxId, Ctx>, expire: Expire, hosting: Hosting, c: CtxId,
                         h: Option<WaitqId>)
    requires FreeClean(fl, ctxs, expire, hosting) && c !in fl
    ensures FreeClean(fl, ctxs, expire, hosting[c := h])
  {
  }

  /** A context with a function is not on the free list. */
  lemma LiveNotFree(fl: seq<CtxId>, ctxs: map<CtxId, Ctx>, expire: Expire, hosting: Hosting, c: CtxId)
    requires FreeClean(fl, ctxs, expire, hosting) && c in ctxs && ctxs[c].hasF
    ensures c !in fl
  {
    forall i | 0 <= i < |fl|
      ensures fl[i] != c
    {
    }
  }

  /** A context in a resumable state is not on the free list, so no free context owns its queue. */
  lemma ResumableNotFree(fl: seq<CtxId>, ctxs: map<CtxId, Ctx>, expire: Expire, hosting: Hosting, c: CtxId)
    requires FreeClean(fl, ctxs, expire, hosting) && c in ctxs && IsResumable(ctxs[c].state)
    ensures forall i :: 0 <= i < |fl| ==> Own(c) != Own(fl[i])
  {
    ResumableIsRunnable(ctxs[c].state);
  }

  // ---------------------------------------------------------------------
  // The sleep queue invariant survives removal and requeueing

  lemma RemoveIgnoredNotQueued(q: Queue, key: nat, c: CtxId)
    requires WellFormed(q) && !Queued(q, c)
    ensures RemoveQ(q, key, c) == q
  {
    if key != 0 && key in q {
      assert c !in q[key];
      RemoveIgnored(q, key, c);
    }
  }

  /** Taking `c` out at its own key leaves it unqueued and everybody else in place. */
  lemma RemoveCoherent(q: Queue, expire: Expire, c: CtxId, k: nat)
    requires SleepqCoherent(q, expire) && c in expire
    ensures var q1 := RemoveQ(q, expire[c], c);
      && SleepqCoherent(q1, expire[c := k]) && !Queued(q1, c)
      && (forall x :: x != c ==> (Queued(q1, x) <==> Queued(q, x)))
  {
    var key := expire[c];
    var q1 := RemoveQ(q, key, c);
    if key == 0 {
      assert q1 == q;
      assert forall j :: j in q ==> c !in q[j];
    } else {
      assert Queued(q, c) ==> key in q && c in q[key];
      RemoveKeepsNoDup(q, key, c);
    }
    RemoveSubset(q, key, c);
    forall j, i | j in q1 && 0 <= i < |q1[j]|
      ensures q1[j][i] in expire[c := k] && expire[c := k][q1[j][i]] == j
    {
      var x := q1[j][i];
      assert x in q1[j];
      assert x != c;
      assert x in q[j];
    }
  }

  /**
   * Taking `c` out and putting it back at a defined key (the first steps of
   * every sleep path, set_resume and mnthr_set_interrupt) keeps the queue
   * coherent, with `c` queued once and everybody else as before.
   */
  lemma RequeueCoherent(q: Queue, expire: Expire, c: CtxId, key: nat, prio: bool)
    requires SleepqCoherent(q, expire) && c in expire && key != SLEEP_UNDEFINED
    ensures var q2 := EnqueueQ(RemoveQ(q, expire[c], c), key, c, prio);
      && SleepqCoherent(q2, expire[c := key]) && Queued(q2, c)
      && (forall x :: x != c ==> (Queued(q2, x) <==> Queued(q, x)))
  {
    var q1 := RemoveQ(q, expire[c], c);
    RemoveCoherent(q, expire, c, key);
    EnqueueKeepsNoDup(q1, key, c, prio);
    EnqueueSubset(q1, key, c, prio);
  }

  /** An unqueued context may change its key freely. */
  lemma UnqueuedRekey(q: Queue, expire: Expire, c: CtxId, k: nat)
    requires SleepqCoherent(q, expire) && !Queued(q, c)
    ensures SleepqCoherent(q, expire[c := k])
  {
    forall j, i | j in q && 0 <= i < |q[j]|
      ensures q[j][i] in expire[c := k] && expire[c := k][q[j][i]] == j
    {
      assert q[j][i] in q[j];
      assert q[j][i] != c;
    }
  }

  /** A context whose expire_ticks is UNDEFINED is not queued. */
  lemma UndefinedNotQueued(q: Queue, expire: Expire, c: CtxId)
    requires SleepqCoherent(q, expire) && c in expire && expire[c] == SLEEP_UNDEFINED
    ensures !Queued(q, c)
  {
    forall k | k in q
      ensures c !in q[k]
    {
    }
  }

  // ---------------------------------------------------------------------
  // set_resume on values

  /** The context record after set_resume(c). */
  function ResumeCtxs(ctxs: map<CtxId, Ctx>, c: CtxId): map<CtxId, Ctx>
    requires c in ctxs
  {
    if !ctxs[c].hasF then ctxs else ctxs[c := ctxs[c].(state := SET_RESUME)]
  }

  /** The context record after mnthr_set_interrupt(c). */
  function InterruptCtxs(ctxs: map<CtxId, Ctx>, c: CtxId): map<CtxId, Ctx>
    requires c in ctxs
  {
    if !ctxs[c].hasF then ctxs
    else ctxs[c := ctxs[c].(rc := CO_RC_USER_INTERRUPTED, state := SET_INTERRUPT)]
  }

  /**
   * An interrupted context can still be joined: it keeps a resumable state
   * (SET_INTERRUPT, or its old one when it has no function), and every
   * other record is untouched.
   */
  lemma InterruptKeepsResumable(ctxs: map<CtxId, Ctx>, c: CtxId)
    requires c in ctxs
    ensures InterruptCtxs(ctxs, c).Keys == ctxs.Keys
    ensures IsResumable(ctxs[c].state) ==> IsResumable(InterruptCtxs(ctxs, c)[c].state)
    ensures ctxs[c].hasF ==> InterruptCtxs(ctxs, c)[c].rc == CO_RC_USER_INTERRUPTED
    ensures forall x :: x in ctxs && x != c ==> InterruptCtxs(ctxs, c)[x] == ctxs[x]
  {
  }

  /** expire_ticks after set_resume(c). */
  function ResumeExpire(ctxs: map<CtxId, Ctx>, expire: Expire, c: CtxId): Expire
    requires c in ctxs
  {
    if !ctxs[c].hasF then expire else expire[c := SLEEP_RESUME_NOW]
  }

  /** The sleep queue after set_resume(c): out of its old place, in at RESUME_NOW. */
  ghost function ResumeQ(ctxs: map<CtxId, Ctx>, expire: Expire, q: Queue, c: CtxId): (r: Queue)
    requires WellFormed(q) && c in ctxs && c in expire
    ensures WellFormed(r)
  {
    if !ctxs[c].hasF then q
    else EnqueueQ(RemoveQ(q, expire[c], c), SLEEP_RESUME_NOW, c, ctxs[c].prio)
  }

  /**
   * set_resume keeps the sleep queue coherent; a context with a function
   * ends up queued at RESUME_NOW with state SET_RESUME, one without is not
   * touched, and nobody else changes queue membership.
   */
  lemma ResumeCoherent(ctxs: map<CtxId, Ctx>, expire: Expire, q: Queue, c: CtxId)
    requires SleepqCoherent(q, expire) && c in ctxs && c in expire
    ensures SleepqCoherent(ResumeQ(ctxs, expire, q, c), ResumeExpire(ctxs, expire, c))
    ensures ctxs[c].hasF ==> (SLEEP_RESUME_NOW in ResumeQ(ctxs, expire, q, c)
      && c in ResumeQ(ctxs, expire, q, c)[SLEEP_RESUME_NOW]
      && ResumeCtxs(ctxs, c)[c].state == SET_RESUME)
    ensures !ctxs[c].hasF ==> (ResumeQ(ctxs, expire, q, c) == q && ResumeCtxs(ctxs, c) == ctxs
      && ResumeExpire(ctxs, expire, c) == expire)
    ensures forall x :: x != c ==> (Queued(ResumeQ(ctxs, expire, q, c), x) <==> Queued(q, x))
  {
    if ctxs[c].hasF {
      RequeueCoherent(q, expire, c, SLEEP_RESUME_NOW, ctxs[c].prio);
      var r := ResumeQ(ctxs, expire, q, c);
      var k :| k in r && c in r[k];
      assert ResumeExpire(ctxs, expire, c)[c] == SLEEP_RESUME_NOW;
    }
  }

  // ---------------------------------------------------------------------
  // Wait-queue wake-ups on values

  /** The part of the state a wake-up touches. */
  datatype Book = Book(ctxs: map<CtxId, Ctx>, expire: Expire, hosting: Hosting, sleepq: Queue)

  /** The book has a record for `t`. */
  ghost predicate Tracks(b: Book, t: CtxId)
  {
    t in b.ctxs && t in b.expire && t in b.hosting
  }

  /** The book is well formed and has a record for every member of `s`. */
  ghost predicate Holds(b: Book, s: seq<CtxId>)
  {
    WellFormed(b.sleepq) && forall i :: 0 <= i < |s| ==> Tracks(b, s[i])
  }

  /** One iteration of resume_waitq_all: clear hosting_waitq, then set_resume. */
  ghost function WakeStep(b: Book, t: CtxId): (r: Book)
    requires WellFormed(b.sleepq) && Tracks(b, t)
    ensures r.ctxs.Keys == b.ctxs.Keys && r.expire.Keys == b.expire.Keys && r.hosting.Keys == b.hosting.Keys
    ensures WellFormed(r.sleepq)
  {
    Book(ResumeCtxs(b.ctxs, t), ResumeExpire(b.ctxs, b.expire, t), b.hosting[t := None],
         ResumeQ(b.ctxs, b.expire, b.sleepq, t))
  }

  /** resume_waitq_all over the members `s`, head first. */
  ghost function WakeAll(b: Book, s: seq<CtxId>): (r: Book)
    requires Holds(b, s)
    ensures r.ctxs.Keys == b.ctxs.Keys && r.expire.Keys == b.expire.Keys && r.hosting.Keys == b.hosting.Keys
    ensures WellFormed(r.sleepq)
    decreases |s|
  {
    if s == [] then b
    else WakeAll(WakeStep(b, s[0]), s[1..])
  }

  /** Unfolding WakeAll once. */
  lemma WakeAllCons(b: Book, s: seq<CtxId>)
    requires Holds(b, s) && s != []
    ensures Tracks(b, s[0]) && Holds(WakeStep(b, s[0]), s[1..])
    ensures WakeAll(b, s) == WakeAll(WakeStep(b, s[0]), s[1..])
  {
  }

  /**
   * Every member's hosting_waitq is cleared, and a member with a function
   * is left with state SET_RESUME; contexts outside `s` keep their records.
   */
  lemma {:induction false} WakeAllClears(b: Book, s: seq<CtxId>)
    requires Holds(b, s)
    ensures var r := WakeAll(b, s);
      && (forall i :: 0 <= i < |s| ==> r.hosting[s[i]] == None)
      && (forall i :: 0 <= i < |s| && b.ctxs[s[i]].hasF ==> r.ctxs[s[i]].state == SET_RESUME)
      && (forall x :: x in b.ctxs && x !in s ==> r.ctxs[x] == b.ctxs[x])
      && (forall x :: x in b.expire && x !in s ==> r.expire[x] == b.expire[x])
      && (forall x :: x in b.hosting && x !in s ==> r.hosting[x] == b.hosting[x])
    decreases |s|
  {
    if s != [] {
      var t := s[0];
      WakeAllCons(b, s);
      var b1 := WakeStep(b, t);
      WakeAllClears(b1, s[1..]);
      var r := WakeAll(b, s);
      forall i | 0 <= i < |s|
        ensures r.hosting[s[i]] == None
      {
        if s[i] != t {
          assert s[i] == s[1..][i - 1];
        }
      }
      forall i | 0 <= i < |s| && b.ctxs[s[i]].hasF
        ensures r.ctxs[s[i]].state == SET_RESUME
      {
        if s[i] != t {
          assert s[i] == s[1..][i - 1];
          assert b1.ctxs[s[i]] == b.ctxs[s[i]];
        }
      }
      assert forall x :: x !in s ==> x != t && x !in s[1..];
    }
  }

  /** The contexts queued at `key`, in order (none when the key is absent). */
  ghost function Bucket(q: Queue, key: nat): seq<CtxId>
  {
    if key in q then q[key] else []
  }

  /** The premises of WakeAllFifo: every member has a function, appends, and is not queued. */
  ghost predicate FifoReady(b: Book, s: seq<CtxId>)
  {
    && Holds(b, s) && NoDup(b.sleepq) && DistinctSeq(s)
    && forall i :: 0 <= i < |s| ==> b.ctxs[s[i]].hasF && !b.ctxs[s[i]].prio && !Queued(b.sleepq, s[i])
  }

  /** One step of WakeAllFifo: the head is appended, the rest keep the premises. */
  lemma WakeStepAppends(b: Book, s: seq<CtxId>)
    requires FifoReady(b, s) && s != []
    ensures Tracks(b, s[0])
    ensures var b1 := WakeStep(b, s[0]);
      && b1.sleepq == AppendQ(b.sleepq, SLEEP_RESUME_NOW, s[0])
      && Bucket(b1.sleepq, SLEEP_RESUME_NOW) == Bucket(b.sleepq, SLEEP_RESUME_NOW) + [s[0]]
      && FifoReady(b1, s[1..])
  {
    var t := s[0];
    var rest := s[1..];
    RemoveIgnoredNotQueued(b.sleepq, b.expire[t], t);
    EnqueueKeepsNoDup(b.sleepq, SLEEP_RESUME_NOW, t, false);
    var b1 := WakeStep(b, t);
    assert DistinctSeq(rest);
    forall i | 0 <= i < |rest|
      ensures Tracks(b1, rest[i]) && b1.ctxs[rest[i]].hasF && !b1.ctxs[rest[i]].prio && !Queued(b1.sleepq, rest[i])
    {
      assert rest[i] == s[i + 1];
      assert rest[i] != t;
    }
  }

  /**
   * FIFO wake-up: members that have a function, use the append discipline
   * and are not queued land at the back of the RESUME_NOW key in wait-queue
   * order.
   */
  lemma {:induction false} WakeAllFifo(b: Book, s: seq<CtxId>)
    requires FifoReady(b, s)
    ensures Bucket(WakeAll(b, s).sleepq, SLEEP_RESUME_NOW) == Bucket(b.sleepq, SLEEP_RESUME_NOW) + s
    decreases |s|
  {
    if s != [] {
      WakeStepAppends(b, s);
      WakeAllCons(b, s);
      WakeAllFifo(WakeStep(b, s[0]), s[1..]);
      AppendHeadThenTail(Bucket(b.sleepq, SLEEP_RESUME_NOW), s);
    }
  }

  /** Appending the head of `s` and then its tail appends `s`. */
  lemma AppendHeadThenTail(a: seq<CtxId>, s: seq<CtxId>)
    requires s != []
    ensures (a + [s[0]]) + s[1..] == a + s
  {
    assert s == [s[0]] + s[1..];
  }

  /** Waking members that have a function leaves every key but RESUME_NOW untouched. */
  lemma {:induction false} WakeAllOtherKeys(b: Book, s: seq<CtxId>)
    requires FifoReady(b, s)
    ensures var r := WakeAll(b, s);
      forall k :: k in b.sleepq && k != SLEEP_RESUME_NOW ==> k in r.sleepq && r.sleepq[k] == b.sleepq[k]
    decreases |s|
  {
    if s != [] {
      WakeStepAppends(b, s);
      WakeAllCons(b, s);
      WakeAllOtherKeys(WakeStep(b, s[0]), s[1..]);
    }
  }

  /** Waking everybody keeps the sleep queue coherent with expire_ticks. */
  lemma {:induction false} WakeAllCoherent(b: Book, s: seq<CtxId>)
    requires Holds(b, s) && SleepqCoherent(b.sleepq, b.expire)
    ensures SleepqCoherent(WakeAll(b, s).sleepq, WakeAll(b, s).expire)
    decreases |s|
  {
    if s != [] {
      WakeAllCons(b, s);
      ResumeCoherent(b.ctxs, b.expire, b.sleepq, s[0]);
      WakeAllCoherent(WakeStep(b, s[0]), s[1..]);
    }
  }

  // ---------------------------------------------------------------------
  // MNTHR_SET_EXPIRE_TICKS

  /**
   * MNTHR_SET_EXPIRE_TICKS(v, fn), with `fnv` the value fn(v) would have:
   * FOREVER stays FOREVER, 0 means "resume now", anything else is fn(v).
   */
  function ExpireTicksFor(v: nat, fnv: nat): (r: nat)
    ensures v == SLEEP_FOREVER ==> r == SLEEP_FOREVER
    ensures v == 0 ==> r == SLEEP_RESUME_NOW
    ensures v != SLEEP_FOREVER && v != 0 ==> r == fnv
  {
    if v == SLEEP_FOREVER then SLEEP_FOREVER
    else if v == 0 then SLEEP_RESUME_NOW
    else fnv
  }

  /** The sleep key is never UNDEFINED unless fn(v) itself is 0. */
  lemma ExpireTicksDefined(v: nat, fnv: nat)
    requires fnv != SLEEP_UNDEFINED
    ensures ExpireTicksFor(v, fnv) != SLEEP_UNDEFINED
  {
  }

  // ---------------------------------------------------------------------
  // Moving between wait queues

  /** `s` without `c`. */
  function Without(s: seq<CtxId>, c: CtxId): (r: seq<CtxId>)
    ensures c !in r
    ensures c !in s ==> r == s
  {
    if s == [] then []
    else if s[0] == c then Without(s[1..], c)
    else [s[0]] + Without(s[1..], c)
  }

  /** Without keeps everything but `c`. */
  lemma {:induction false} WithoutMem(s: seq<CtxId>, c: CtxId, x: CtxId)
    ensures x in Without(s, c) <==> x in s && x != c
  {
    if s != [] {
      WithoutMem(s[1..], c, x);
      assert x in s <==> x == s[0] || x in s[1..];
    }
  }

  /** Without keeps a duplicate-free queue duplicate-free. */
  lemma {:induction false} WithoutDistinct(s: seq<CtxId>, c: CtxId)
    requires DistinctSeq(s)
    ensures DistinctSeq(Without(s, c))
  {
    if s != [] {
      assert DistinctSeq(s[1..]);
      WithoutDistinct(s[1..], c);
      if s[0] != c {
        WithoutMem(s[1..], c, s[0]);
        assert s[0] !in s[1..];
        assert Without(s, c) == [s[0]] + Without(s[1..], c);
      }
    }
  }

  /** Removing a member shortens a duplicate-free queue by one. */
  lemma {:induction false} WithoutMember(s: seq<CtxId>, c: CtxId)
    requires DistinctSeq(s) && c in s
    ensures |Without(s, c)| == |s| - 1
  {
    if s[0] != c {
      assert c in s[1..];
      assert DistinctSeq(s[1..]);
      WithoutMember(s[1..], c);
    } else {
      assert c !in s[1..];
    }
  }

  /** The wait queues after append_me_to_waitq(to) by `m`, which was in `from`. */
  function MovedWaitqs(w: Waitqs, from: Option<WaitqId>, m: CtxId, to: WaitqId): (r: Waitqs)
    requires to in w && (from.Some? ==> from.value in w)
    ensures r.Keys == w.Keys
  {
    var w1 := if from.Some? then w[from.value := Without(w[from.value], m)] else w;
    w1[to := w1[to] + [m]]
  }

  /** Moving `m` to `to` puts it at the back of `to`, wherever it was before. */
  lemma MovedToBack(w: Waitqs, from: Option<WaitqId>, m: CtxId, to: WaitqId)
    requires to in w && (from.Some? ==> from.value in w)
    requires from != Some(to) ==> m !in w[to]
    ensures MovedWaitqs(w, from, m, to)[to] == Without(w[to], m) + [m]
  {
  }

  /** Clearing and then setting one hosting_waitq is setting it. */
  lemma RehostTwice(h: Hosting, m: CtxId, x: Option<WaitqId>)
    ensures h[m := None][m := x] == h[m := x]
  {
  }

  /** A context in no queue joins the back of `to`: the queues stay coherent. */
  lemma JoinBackCoherent(w: Waitqs, hosting: Hosting, m: CtxId, to: WaitqId)
    requires WaitqsCoherent(w, hosting) && m in hosting && hosting[m] == None && to in w && to != Own(m)
    ensures m !in w[to]
    ensures WaitqsCoherent(w[to := w[to] + [m]], hosting[m := Some(to)])
  {
    var s := w[to];
    assert m !in s by {
      forall i | 0 <= i < |s|
        ensures s[i] != m
      {
        assert hosting[s[i]] == Some(to);
      }
    }
    assert DistinctSeq(s + [m]);
    var w2 := w[to := s + [m]];
    var h2 := hosting[m := Some(to)];
    forall j, i | j in w2 && 0 <= i < |w2[j]|
      ensures w2[j][i] in h2 && h2[w2[j][i]] == Some(j)
    {
      if j == to && i < |s| {
        assert w2[j][i] == s[i];
      } else if j != to {
        assert w2[j][i] == w[j][i];
        assert w[j][i] != m;
      }
    }
    forall c | c in h2 && h2[c].Some?
      ensures h2[c].value in w2 && c in w2[h2[c].value]
    {
      if c != m && hosting[c].value == to {
        assert c in s;
      }
    }
  }

  /** Taking the head off a queue and clearing its hosting_waitq keeps the queues coherent. */
  lemma PopCoherent(w: Waitqs, hosting: Hosting, id: WaitqId)
    requires WaitqsCoherent(w, hosting) && id in w && w[id] != []
    ensures var t := w[id][0];
      && t in hosting && hosting[t] == Some(id) && t !in w[id][1..]
      && WaitqsCoherent(w[id := w[id][1..]], hosting[t := None])
  {
    var s := w[id];
    var t := s[0];
    assert s == [t] + s[1..];
    assert t in s;
    assert DistinctSeq(s);
    forall i | 0 <= i < |s[1..]|
      ensures s[1..][i] != t
    {
      assert s[1..][i] == s[i + 1];
    }
    assert t !in s[1..];
    assert t in hosting && hosting[t] == Some(id);
    var w2 := w[id := s[1..]];
    var h2 := hosting[t := None];
    forall j, c | j in w2 && c in w2[j]
      ensures c in h2 && h2[c] == Some(j)
    {
      if j == id {
        assert c in s;
        assert c != t;
      } else {
        assert hosting[c] == Some(j);
      }
    }
    forall c | c in h2 && h2[c].Some?
      ensures h2[c].value in w2 && c in w2[h2[c].value]
    {
      assert c != t;
      var j := hosting[c].value;
      if j == id {
        assert c in s && c != t;
      }
    }
  }

  /** A free context's join queue is empty, so replacing a non-empty queue leaves the free list idle. */
  lemma PopFreeIdle(fl: seq<CtxId>, w: Waitqs, id: WaitqId, s: seq<CtxId>)
    requires FreeIdle(fl, w) && id in w && w[id] != []
    ensures FreeIdle(fl, w[id := s])
  {
  }

  /** remove_me_from_waitq keeps the queues coherent and shortens the queue by one. */
  lemma LeaveCoherent(w: Waitqs, hosting: Hosting, m: CtxId, id: WaitqId)
    requires WaitqsCoherent(w, hosting) && m in hosting && hosting[m] == Some(id)
    ensures id in w && m in w[id]
    ensures WaitqsCoherent(w[id := Without(w[id], m)], hosting[m := None])
    ensures |Without(w[id], m)| == |w[id]| - 1
  {
    WithoutMember(w[id], m);
    WithoutDistinct(w[id], m);
    LeaveMembers(w, hosting, m, id);
    LeaveHosted(w, hosting, m, id);
  }

  /** After the leave, every queued context still names its queue. */
  lemma LeaveMembers(w: Waitqs, hosting: Hosting, m: CtxId, id: WaitqId)
    requires WqMembers(w, hosting) && id in w && m in hosting && hosting[m] == Some(id)
    ensures WqMembers(w[id := Without(w[id], m)], hosting[m := None])
  {
    var w2 := w[id := Without(w[id], m)];
    var h2 := hosting[m := None];
    forall j, i | j in w2 && 0 <= i < |w2[j]|
      ensures w2[j][i] in h2 && h2[w2[j][i]] == Some(j)
    {
      var c := w2[j][i];
      if j == id {
        assert c in Without(w[id], m);
        WithoutMem(w[id], m, c);
        var k :| 0 <= k < |w[id]| && w[id][k] == c;
      } else {
        assert c == w[j][i];
      }
    }
  }

  /** After the leave, every waiting context is in the queue it names. */
  lemma LeaveHosted(w: Waitqs, hosting: Hosting, m: CtxId, id: WaitqId)
    requires WqHosted(w, hosting) && m in hosting && hosting[m] == Some(id)
    ensures WqHosted(w[id := Without(w[id], m)], hosting[m := None])
  {
    var w2 := w[id := Without(w[id], m)];
    var h2 := hosting[m := None];
    forall c | c in h2 && h2[c].Some?
      ensures h2[c].value in w2 && c in w2[h2[c].value]
    {
      assert c != m;
      if hosting[c].value == id {
        WithoutMem(w[id], m, c);
      }
    }
  }

  /** Replacing one queue twice keeps only the second. */
  lemma ReplaceTwice(w: Waitqs, id: WaitqId, a: seq<CtxId>, b: seq<CtxId>)
    ensures w[id := a][id := b] == w[id := b]
  {
  }

  /** Putting a queue back as it was changes nothing. */
  lemma ReplaceSame(w: Waitqs, id: WaitqId)
    requires id in w
    ensures w[id := w[id]] == w
  {
  }

  /** A new empty queue (mnthr_cond_init, or a new context's own queue) keeps the queues coherent. */
  lemma AddEmptyCoherent(w: Waitqs, hosting: Hosting, id: WaitqId)
    requires WaitqsCoherent(w, hosting) && (id in w ==> w[id] == []) && id.Cond?
    ensures WaitqsCoherent(w[id := []], hosting)
  {
  }

  /** A condition variable whose queue is empty can be dropped (mnthr_cond_fini). */
  lemma DropEmptyCoherent(w: Waitqs, hosting: Hosting, id: WaitqId)
    requires WaitqsCoherent(w, hosting) && id in w && w[id] == [] && id.Cond?
    ensures WaitqsCoherent(w - {id}, hosting)
  {
    forall c | c in hosting && hosting[c].Some?
      ensures hosting[c].value in w - {id}
    {
      assert c in w[hosting[c].value];
    }
  }

  // ---------------------------------------------------------------------
  // Small facts about states

  /** mnthr_is_runnable: any state above DORMANT. */
  predicate IsRunnable(st: bv32)
  {
    st > DORMANT
  }

  /** Every resumable state is runnable; DORMANT and RESUMED are not resumable. */
  lemma ResumableIsRunnable(st: bv32)
    ensures IsResumable(st) ==> IsRunnable(st)
    ensures !IsResumable(DORMANT) && !IsRunnable(DORMANT) && !IsResumable(RESUMED)
  {
  }
}
