/**
 * The context pool of mnthr (src/mnthr.c) as values: taking a context off
 * the free list (mnthr_ctx_pop_free), a fresh context from `ctxes`
 * (mnthr_ctx_new), putting one back (push_free_ctx), and the two passes of
 * mnthr_gc over the `ctxes` array: clearing reclaimable slots, then
 * compacting the array.  Each operation comes with the lemma that it keeps
 * the invariants of MnthrModel.
 */
module CtxPool {
  import opened Wrappers
  import opened CoStates
  import opened SleepQueue
  import opened MnthrModel

  // ---------------------------------------------------------------------
  // mnthr_ctx_pop_free

  /** The position of the first context on the free list whose `abac` is zero. */
  function FirstIdle(fl: seq<CtxId>, ctxs: map<CtxId, Ctx>): (r: Option<nat>)
    requires forall i :: 0 <= i < |fl| ==> fl[i] in ctxs
    ensures r.Some? ==> r.value < |fl| && ctxs[fl[r.value]].abac == 0
    ensures r.Some? ==> forall j :: 0 <= j < r.value ==> ctxs[fl[j]].abac > 0
    ensures r.None? ==> forall j :: 0 <= j < |fl| ==> ctxs[fl[j]].abac > 0
  {
    if fl == [] then None
    else if ctxs[fl[0]].abac == 0 then Some(0)
    else
      match FirstIdle(fl[1..], ctxs)
      case None => None
      case Some(i) => Some(i + 1)
  }

  /** `fl` without its element at `i`: the entries before it keep their place, the later ones move up by one. */
  function RemoveAt(fl: seq<CtxId>, i: nat): (r: seq<CtxId>)
    requires i < |fl|
    ensures |r| == |fl| - 1
    ensures forall j :: 0 <= j < i ==> r[j] == fl[j]
    ensures forall j :: i <= j < |r| ==> r[j] == fl[j + 1]
    ensures multiset(r) == multiset(fl) - multiset{fl[i]}
  {
    assert fl == fl[..i] + [fl[i]] + fl[i + 1..];
    fl[..i] + fl[i + 1..]
  }

  /** Taking a context off the free list keeps the rest clean and idle, and the context is gone from it. */
  lemma FreeRemoveAt(fl: seq<CtxId>, ctxs: map<CtxId, Ctx>, expire: Expire, hosting: Hosting, w: Waitqs, i: nat)
    requires FreeClean(fl, ctxs, expire, hosting) && FreeIdle(fl, w) && i < |fl|
    ensures var r := RemoveAt(fl, i);
      && FreeClean(r, ctxs, expire, hosting) && FreeIdle(r, w) && fl[i] !in r
      && forall x :: x in r ==> x in fl
  {
    var r := RemoveAt(fl, i);
    forall j | 0 <= j < |r|
      ensures r[j] == (if j < i then fl[j] else fl[j + 1])
    {
    }
    forall j | 0 <= j < |r|
      ensures r[j] != fl[i]
    {
    }
  }

  // ---------------------------------------------------------------------
  // mnthr_ctx_new

  /** A context without a record is nowhere in the sleep queue. */
  lemma AbsentNotQueued(q: Queue, expire: Expire, c: CtxId)
    requires SleepqCoherent(q, expire) && c !in expire
    ensures !Queued(q, c)
  {
    forall k | k in q
      ensures c !in q[k]
    {
      forall i | 0 <= i < |q[k]|
        ensures q[k][i] != c
      {
      }
    }
  }

  /** A new context brings an empty join queue and waits nowhere. */
  lemma FreshWaitqsCoherent(w: Waitqs, hosting: Hosting, c: CtxId)
    requires WaitqsCoherent(w, hosting) && c !in hosting
    ensures Own(c) !in w
    ensures WaitqsCoherent(w[Own(c) := []], hosting[c := None])
  {
    var w2 := w[Own(c) := []];
    var h2 := hosting[c := None];
    forall j, i | j in w2 && 0 <= i < |w2[j]|
      ensures w2[j][i] in h2 && h2[w2[j][i]] == Some(j)
    {
      assert w2[j][i] == w[j][i];
    }
  }

  /** A new record on its own does not disturb the free list. */
  lemma FreshFree(fl: seq<CtxId>, ctxs: map<CtxId, Ctx>, expire: Expire, hosting: Hosting, w: Waitqs,
                  c: CtxId, x: Ctx, k: nat)
    requires FreeClean(fl, ctxs, expire, hosting) && FreeIdle(fl, w) && c !in ctxs
    ensures FreeClean(fl, ctxs[c := x], expire[c := k], hosting[c := None])
    ensures FreeIdle(fl, w[Own(c) := []])
  {
    forall i | 0 <= i < |fl|
      ensures fl[i] != c
    {
    }
  }

  /** Appending a fresh slot to `ctxes` adds its context and keeps slots unique. */
  lemma SlotsAppend(s: seq<Option<CtxId>>, c: CtxId)
    requires UniqueSlots(s) && c !in Slots(s)
    ensures Slots(s + [Some(c)]) == Slots(s) + {c}
    ensures UniqueSlots(s + [Some(c)])
  {
    assert (s + [Some(c)])[..|s|] == s;
  }

  // ---------------------------------------------------------------------
  // push_free_ctx

  /** mnthr_ctx_finalize on one record: no id, no function, DORMANT, append discipline; abac and rc stay. */
  function Finalized(x: Ctx): (r: Ctx)
    ensures r.id == -1 && !r.hasF && r.state == DORMANT && !r.prio
    ensures r.abac == x.abac && r.rc == x.rc
  {
    x.(id := -1, hasF := false, state := DORMANT, prio := false)
  }

  /** A finalized context with an empty join queue may go to the back of the free list. */
  lemma FreePush(fl: seq<CtxId>, ctxs: map<CtxId, Ctx>, expire: Expire, hosting: Hosting, w: Waitqs, c: CtxId)
    requires FreeClean(fl, ctxs, expire, hosting) && FreeIdle(fl, w) && c !in fl
    requires c in ctxs && !ctxs[c].hasF && ctxs[c].state == DORMANT && ctxs[c].id == -1
    requires c in expire && expire[c] == SLEEP_UNDEFINED && c in hosting && hosting[c] == None
    requires Own(c) in w && w[Own(c)] == []
    ensures FreeClean(fl + [c], ctxs, expire, hosting) && FreeIdle(fl + [c], w)
  {
    var r := fl + [c];
    forall i, j | 0 <= i < j < |r|
      ensures r[i] != r[j]
    {
      if j == |fl| {
        assert r[i] == fl[i];
      }
    }
  }

  // ---------------------------------------------------------------------
  // mnthr_gc, first pass: clear the slots of reclaimable contexts

  /** A slot whose context is on the free list and held by nobody is reclaimed. */
  ghost predicate Drops(fl: seq<CtxId>, ctxs: map<CtxId, Ctx>, x: Option<CtxId>)
  {
    x.Some? && x.value in fl && x.value in ctxs && ctxs[x.value].abac == 0
  }

  /** A slot whose context is on the free list but still held stays, and goes back on the free list. */
  ghost predicate Keeps(fl: seq<CtxId>, ctxs: map<CtxId, Ctx>, x: Option<CtxId>)
  {
    x.Some? && x.value in fl && x.value in ctxs && ctxs[x.value].abac > 0
  }

  /** `ctxes` after the first pass: reclaimed slots are cleared. */
  ghost function Cleared(s: seq<Option<CtxId>>, fl: seq<CtxId>, ctxs: map<CtxId, Ctx>): (r: seq<Option<CtxId>>)
    ensures |r| == |s|
  {
    if s == [] then []
    else Cleared(s[..|s| - 1], fl, ctxs) + [if Drops(fl, ctxs, s[|s| - 1]) then None else s[|s| - 1]]
  }

  /** The kept contexts, in `ctxes` order: the new free list. */
  ghost function KeptOf(s: seq<Option<CtxId>>, fl: seq<CtxId>, ctxs: map<CtxId, Ctx>): seq<CtxId>
  {
    if s == [] then []
    else KeptOf(s[..|s| - 1], fl, ctxs) + (if Keeps(fl, ctxs, s[|s| - 1]) then [s[|s| - 1].value] else [])
  }

  /** DTQUEUE_NEXT of `x` on the list `s`: the element after it, or none when `x` is last. */
  function NextOf(s: seq<CtxId>, x: CtxId): (r: Option<CtxId>)
    ensures |s| > 0 && s[|s| - 1] == x && x !in s[..|s| - 1] ==> r == None
    ensures r.Some? ==> r.value in s
  {
    if |s| < 2 then None
    else if s[0] == x then Some(s[1])
    else
      assert s[1..][..|s| - 2] == s[..|s| - 1][1..];
      NextOf(s[1..], x)
  }

  /**
   * The requeue loop at the end of mnthr_gc as written, from the context
   * `cur` on: the head of tmp_list is dequeued, its link finalized and it
   * is enqueued on the free list; the loop then steps with DTQUEUE_NEXT of
   * that context, which is now on the free list.
   */
  function RequeueAsWritten(tmp: seq<CtxId>, free: seq<CtxId>, cur: Option<CtxId>): (r: seq<CtxId>)
    ensures |free| <= |r| <= |free| + |tmp| && r[..|free|] == free
    decreases |tmp|
  {
    if cur.None? || tmp == [] then free
    else
      var fl := free + [tmp[0]];
      var r := RequeueAsWritten(tmp[1..], fl, NextOf(fl, tmp[0]));
      assert r[..|free|] == r[..|fl|][..|free|];
      r
  }

  /** The free list mnthr_gc leaves as written, for the held contexts `kept` in tmp_list. */
  function GcFreeAsWritten(kept: seq<CtxId>): (r: seq<CtxId>)
  {
    RequeueAsWritten(kept, [], if kept == [] then None else Some(kept[0]))
  }

  /**
   * As written each requeued context is the tail of the free list, so its
   * DTQUEUE_NEXT is none and the loop stops after the first held context.
   */
  lemma GcFreeAsWrittenFirstOnly(kept: seq<CtxId>)
    ensures kept == [] ==> GcFreeAsWritten(kept) == []
    ensures kept != [] ==> GcFreeAsWritten(kept) == [kept[0]]
  {
    if kept != [] {
      var fl := [kept[0]];
      assert NextOf(fl, kept[0]) == None;
      assert GcFreeAsWritten(kept) == RequeueAsWritten(kept[1..], [] + fl, NextOf([] + fl, kept[0]));
      assert [] + fl == fl;
      assert RequeueAsWritten(kept[1..], fl, None) == fl;
    }
  }

  /**
   * Two held free contexts 1 and 2: as written only 1 is back on the free
   * list, and 2 is on no list at all while its slot stays in `ctxes`.
   */
  lemma GcFreeAsWrittenLosesSecond()
    ensures GcFreeAsWritten([1, 2]) == [1] && 2 !in GcFreeAsWritten([1, 2])
  {
    GcFreeAsWrittenFirstOnly([1, 2]);
  }

  /** The number of reclaimed slots: the value mnthr_gc returns. */
  ghost function DropCount(s: seq<Option<CtxId>>, fl: seq<CtxId>, ctxs: map<CtxId, Ctx>): nat
  {
    if s == [] then 0
    else DropCount(s[..|s| - 1], fl, ctxs) + (if Drops(fl, ctxs, s[|s| - 1]) then 1 else 0)
  }

  /** The contexts of the reclaimed slots. */
  ghost function DroppedOf(s: seq<Option<CtxId>>, fl: seq<CtxId>, ctxs: map<CtxId, Ctx>): set<CtxId>
  {
    if s == [] then {}
    else DroppedOf(s[..|s| - 1], fl, ctxs) + (if Drops(fl, ctxs, s[|s| - 1]) then {s[|s| - 1].value} else {})
  }

  /** The contexts mnthr_gc destroys. */
  ghost function Reclaimed(fl: seq<CtxId>, ctxs: map<CtxId, Ctx>): set<CtxId>
  {
    set i | 0 <= i < |fl| && fl[i] in ctxs && ctxs[fl[i]].abac == 0 :: fl[i]
  }

  /** The join queues of destroyed contexts. */
  function OwnQueues(d: set<CtxId>): set<WaitqId>
  {
    set c | c in d :: Own(c)
  }

  /** A slot is reclaimed exactly when its context is one mnthr_gc destroys. */
  lemma DropsReclaimed(fl: seq<CtxId>, ctxs: map<CtxId, Ctx>, x: CtxId)
    ensures Drops(fl, ctxs, Some(x)) <==> x in Reclaimed(fl, ctxs)
  {
    if Drops(fl, ctxs, Some(x)) {
      var j :| 0 <= j < |fl| && fl[j] == x;
    }
  }

  /** Who occupies the cleared array: everyone but the reclaimed. */
  lemma {:induction false} ClearedMem(s: seq<Option<CtxId>>, fl: seq<CtxId>, ctxs: map<CtxId, Ctx>)
    ensures forall x :: x in Slots(Cleared(s, fl, ctxs)) <==> x in Slots(s) && !Drops(fl, ctxs, Some(x))
  {
    if s != [] {
      var c := Cleared(s, fl, ctxs);
      ClearedMem(s[..|s| - 1], fl, ctxs);
      assert c[..|c| - 1] == Cleared(s[..|s| - 1], fl, ctxs);
    }
  }

  /** Clearing slots keeps every context in at most one slot. */
  lemma {:induction false} ClearedUnique(s: seq<Option<CtxId>>, fl: seq<CtxId>, ctxs: map<CtxId, Ctx>)
    requires UniqueSlots(s)
    ensures UniqueSlots(Cleared(s, fl, ctxs))
  {
    if s != [] {
      var c := Cleared(s, fl, ctxs);
      ClearedUnique(s[..|s| - 1], fl, ctxs);
      ClearedMem(s[..|s| - 1], fl, ctxs);
      assert c[..|c| - 1] == Cleared(s[..|s| - 1], fl, ctxs);
    }
  }

  /** The cleared array holds everyone but the reclaimed, each once. */
  lemma ClearedSlots(s: seq<Option<CtxId>>, fl: seq<CtxId>, ctxs: map<CtxId, Ctx>)
    requires UniqueSlots(s)
    ensures Slots(Cleared(s, fl, ctxs)) == Slots(s) - Reclaimed(fl, ctxs)
    ensures UniqueSlots(Cleared(s, fl, ctxs))
  {
    ClearedMem(s, fl, ctxs);
    ClearedUnique(s, fl, ctxs);
    forall x
      ensures x in Slots(Cleared(s, fl, ctxs)) <==> x in Slots(s) - Reclaimed(fl, ctxs)
    {
      DropsReclaimed(fl, ctxs, x);
    }
  }

  /** Every context on the free list has a slot, so the reclaimed slots hold exactly the destroyed contexts. */
  lemma {:induction false} DroppedMem(s: seq<Option<CtxId>>, fl: seq<CtxId>, ctxs: map<CtxId, Ctx>)
    ensures forall x :: x in DroppedOf(s, fl, ctxs) <==> x in Slots(s) && x in Reclaimed(fl, ctxs)
  {
    if s != [] {
      DroppedMem(s[..|s| - 1], fl, ctxs);
      if s[|s| - 1].Some? {
        DropsReclaimed(fl, ctxs, s[|s| - 1].value);
      }
    }
  }

  /** The kept contexts are exactly the held ones on the free list, each once. */
  lemma {:induction false} KeptMembers(s: seq<Option<CtxId>>, fl: seq<CtxId>, ctxs: map<CtxId, Ctx>)
    requires UniqueSlots(s)
    ensures DistinctSeq(KeptOf(s, fl, ctxs))
    ensures forall x :: x in KeptOf(s, fl, ctxs) <==> x in Slots(s) && x in fl && x in ctxs && ctxs[x].abac > 0
  {
    if s != [] {
      var init := s[..|s| - 1];
      var k0 := KeptOf(init, fl, ctxs);
      KeptMembers(init, fl, ctxs);
      if Keeps(fl, ctxs, s[|s| - 1]) {
        var k := k0 + [s[|s| - 1].value];
        forall i, j | 0 <= i < j < |k|
          ensures k[i] != k[j]
        {
          if j == |k0| {
            assert k[i] == k0[i] && k0[i] in k0;
          }
        }
      }
    }
  }

  /** The value mnthr_gc returns is the number of contexts it destroys. */
  lemma {:induction false} DropCountIsReclaimed(s: seq<Option<CtxId>>, fl: seq<CtxId>, ctxs: map<CtxId, Ctx>)
    requires UniqueSlots(s)
    ensures DropCount(s, fl, ctxs) == |Slots(s) * Reclaimed(fl, ctxs)|
  {
    if s != [] {
      var init := s[..|s| - 1];
      var x := s[|s| - 1];
      var d := Reclaimed(fl, ctxs);
      DropCountIsReclaimed(init, fl, ctxs);
      if x.Some? {
        ReclaimedMember(fl, ctxs, x.value);
        assert Slots(s) == Slots(init) + {x.value} && x.value !in Slots(init);
        MeetFresh(Slots(init), d, x.value);
      } else {
        assert Slots(s) == Slots(init);
      }
    }
  }

  /** A context is reclaimed exactly when its slot is dropped. */
  lemma ReclaimedMember(fl: seq<CtxId>, ctxs: map<CtxId, Ctx>, c: CtxId)
    ensures c in Reclaimed(fl, ctxs) <==> Drops(fl, ctxs, Some(c))
  {
    if Drops(fl, ctxs, Some(c)) {
      var i :| 0 <= i < |fl| && fl[i] == c;
      assert fl[i] in Reclaimed(fl, ctxs);
    }
  }

  /** Meeting a set with one more element adds at most that element. */
  lemma MeetFresh(a: set<CtxId>, d: set<CtxId>, x: CtxId)
    requires x !in a
    ensures |(a + {x}) * d| == |a * d| + (if x in d then 1 else 0)
  {
    if x in d {
      assert (a + {x}) * d == (a * d) + {x};
    } else {
      assert (a + {x}) * d == a * d;
    }
  }

  /**
   * The first pass of mnthr_gc over `ctxes`: a context on the free list
   * that somebody holds goes to the temporary list, one that nobody holds
   * has its slot cleared and is counted.
   */
  method ClearPass(s0: seq<Option<CtxId>>, fl: seq<CtxId>, ctxs: map<CtxId, Ctx>)
    returns (s: seq<Option<CtxId>>, kept: seq<CtxId>, dropped: set<CtxId>, n: nat)
    requires forall j :: 0 <= j < |fl| ==> fl[j] in ctxs
    ensures s == Cleared(s0, fl, ctxs) && kept == KeptOf(s0, fl, ctxs)
    ensures dropped == DroppedOf(s0, fl, ctxs) && n == DropCount(s0, fl, ctxs)
  {
    s := s0;
    kept := [];
    dropped := {};
    n := 0;
    var i := 0;
    while i < |s0|
      invariant 0 <= i <= |s0| && |s| == |s0|
      invariant s[..i] == Cleared(s0[..i], fl, ctxs)
      invariant forall k :: i <= k < |s0| ==> s[k] == s0[k]
      invariant kept == KeptOf(s0[..i], fl, ctxs) && dropped == DroppedOf(s0[..i], fl, ctxs)
      invariant n == DropCount(s0[..i], fl, ctxs)
    {
      assert s0[..i + 1][..i] == s0[..i] && s0[..i + 1][i] == s0[i];
      if s0[i].Some? && s0[i].value in fl {
        var x := s0[i].value;
        if ctxs[x].abac > 0 {
          kept := kept + [x];
        } else {
          n := n + 1;
          dropped := dropped + {x};
          s := s[i := None];
        }
      }
      assert s[..i + 1] == s[..i] + [s[i]];
      i := i + 1;
    }
    assert s0[..|s0|] == s0 && s[..|s|] == s;
  }

  // ---------------------------------------------------------------------
  // mnthr_gc, second pass: compact the array

  /** The contexts in the slots that are not cleared, in order. */
  ghost function Present(s: seq<Option<CtxId>>): seq<CtxId>
  {
    if s == [] then []
    else Present(s[..|s| - 1]) + (if s[|s| - 1].Some? then [s[|s| - 1].value] else [])
  }

  lemma {:induction false} PresentConcat(a: seq<Option<CtxId>>, b: seq<Option<CtxId>>)
    ensures Present(a + b) == Present(a) + Present(b)
  {
    if b == [] {
      assert a + b == a;
    } else {
      var b0 := b[..|b| - 1];
      assert (a + b)[..|a + b| - 1] == a + b0;
      assert (a + b)[|a + b| - 1] == b[|b| - 1];
      PresentConcat(a, b0);
    }
  }

  /** A run of cleared slots holds nobody. */
  lemma {:induction false} PresentNone(s: seq<Option<CtxId>>)
    requires forall k :: 0 <= k < |s| ==> s[k].None?
    ensures Present(s) == []
  {
    if s != [] {
      PresentNone(s[..|s| - 1]);
    }
  }

  /**
   * Moving the next occupied slot `j` into the cleared slot `i`, with only
   * cleared slots between them, keeps who is present and in what order.
   */
  lemma SwapPresent(s: seq<Option<CtxId>>, i: nat, j: nat)
    requires i < j < |s| && s[i].None? && s[j].Some?
    requires forall k :: i < k < j ==> s[k].None?
    ensures Present(s[i := s[j]][j := None]) == Present(s)
  {
    var t := s[i := s[j]][j := None];
    PresentNone(s[i + 1..j]);
    SplitAround(s, i, j);
    SplitAround(t, i, j);
    UpdateTwoSlices(s, i, j, s[j], None);
    PresentOne(s[i]);
    PresentOne(s[j]);
    PresentOne(None);
    PresentFive(s[..i], s[i], s[i + 1..j], s[j], s[j + 1..]);
    PresentFive(s[..i], s[j], s[i + 1..j], None, s[j + 1..]);
    MoveAcrossEmpty(Present(s[..i]), s[j].value, Present(s[j + 1..]));
  }

  /** Writing two positions leaves the slices around them alone. */
  lemma UpdateTwoSlices(s: seq<Option<CtxId>>, i: nat, j: nat, x: Option<CtxId>, y: Option<CtxId>)
    requires i < j < |s|
    ensures var t := s[i := x][j := y];
      t[..i] == s[..i] && t[i] == x && t[i + 1..j] == s[i + 1..j] && t[j] == y && t[j + 1..] == s[j + 1..]
  {
  }

  /** Who is present in one slot. */
  lemma PresentOne(u: Option<CtxId>)
    ensures Present([u]) == if u.Some? then [u.value] else []
  {
    assert [u][..0] == [];
  }

  /** Empty pieces can be moved across an element. */
  lemma MoveAcrossEmpty(a: seq<CtxId>, x: CtxId, z: seq<CtxId>)
    ensures a + [] + [] + [x] + z == a + [x] + [] + [] + z
  {
  }

  /** A sequence cut around two positions. */
  lemma SplitAround(s: seq<Option<CtxId>>, i: nat, j: nat)
    requires i < j < |s|
    ensures s == s[..i] + [s[i]] + s[i + 1..j] + [s[j]] + s[j + 1..]
  {
  }

  /** Who is present in five concatenated pieces. */
  lemma PresentFive(a: seq<Option<CtxId>>, u: Option<CtxId>, mid: seq<Option<CtxId>>, v: Option<CtxId>,
                    z: seq<Option<CtxId>>)
    ensures Present(a + [u] + mid + [v] + z)
      == Present(a) + Present([u]) + Present(mid) + Present([v]) + Present(z)
  {
    PresentConcat(a + [u] + mid + [v], z);
    PresentConcat(a + [u] + mid, [v]);
    PresentConcat(a + [u], mid);
    PresentConcat(a, [u]);
  }

  /** Cutting off a tail of cleared slots keeps who is present. */
  lemma TrailingNone(s: seq<Option<CtxId>>, i: nat)
    requires i <= |s| && forall k :: i <= k < |s| ==> s[k].None?
    ensures Present(s[..i]) == Present(s)
  {
    PresentNone(s[i..]);
    assert s == s[..i] + s[i..];
    PresentConcat(s[..i], s[i..]);
  }

  /** Who occupies an array is who is present in it. */
  lemma {:induction false} SlotsPresent(s: seq<Option<CtxId>>)
    ensures forall x :: x in Slots(s) <==> x in Present(s)
  {
    if s != [] {
      SlotsPresent(s[..|s| - 1]);
    }
  }

  /** An array holds each context once exactly when the present sequence has no duplicate. */
  lemma {:induction false} UniquePresent(s: seq<Option<CtxId>>)
    ensures UniqueSlots(s) <==> DistinctSeq(Present(s))
  {
    if s != [] {
      var init := s[..|s| - 1];
      var p0 := Present(init);
      UniquePresent(init);
      SlotsPresent(init);
      if s[|s| - 1].Some? {
        var x := s[|s| - 1].value;
        var p := p0 + [x];
        assert Present(s) == p;
        if DistinctSeq(p) {
          assert p[..|p0|] == p0;
          assert DistinctSeq(p0);
          forall i | 0 <= i < |p0|
            ensures p0[i] != x
          {
            assert p[i] != p[|p0|];
          }
          assert x !in p0;
        }
        if UniqueSlots(s) {
          assert UniqueSlots(init) && x !in Slots(init);
          assert DistinctSeq(p0) && x !in p0;
          forall i, j | 0 <= i < j < |p|
            ensures p[i] != p[j]
          {
            if j == |p0| {
              assert p[i] == p0[i] && p0[i] in p0;
            } else {
              assert p[i] == p0[i] && p[j] == p0[j];
            }
          }
        }
      } else {
        assert Present(s) == p0;
      }
    }
  }

  /** Two arrays with the same contexts present in the same order have the same slots. */
  lemma SamePresent(a: seq<Option<CtxId>>, b: seq<Option<CtxId>>)
    requires Present(a) == Present(b)
    ensures Slots(a) == Slots(b) && (UniqueSlots(a) <==> UniqueSlots(b))
  {
    SlotsPresent(a);
    SlotsPresent(b);
    UniquePresent(a);
    UniquePresent(b);
  }

  // ---------------------------------------------------------------------
  // mnthr_gc: the state after both passes

  /** No reclaimed context is in the sleep queue, so dropping their records keeps it coherent. */
  lemma GcSleepq(q: Queue, expire: Expire, fl: seq<CtxId>, ctxs: map<CtxId, Ctx>, hosting: Hosting)
    requires SleepqCoherent(q, expire) && FreeClean(fl, ctxs, expire, hosting)
    ensures SleepqCoherent(q, expire - Reclaimed(fl, ctxs))
  {
    var d := Reclaimed(fl, ctxs);
    forall k, i | k in q && 0 <= i < |q[k]|
      ensures q[k][i] in expire - d && (expire - d)[q[k][i]] == k
    {
    }
  }

  /** Reclaimed contexts wait nowhere and nobody waits for them, so their queues can go. */
  lemma GcWaitqs(w: Waitqs, hosting: Hosting, fl: seq<CtxId>, ctxs: map<CtxId, Ctx>, expire: Expire)
    requires WaitqsCoherent(w, hosting) && FreeClean(fl, ctxs, expire, hosting) && FreeIdle(fl, w)
    ensures WaitqsCoherent(w - OwnQueues(Reclaimed(fl, ctxs)), hosting - Reclaimed(fl, ctxs))
  {
    var d := Reclaimed(fl, ctxs);
    var w2 := w - OwnQueues(d);
    var h2 := hosting - d;
    forall id, i | id in w2 && 0 <= i < |w2[id]|
      ensures w2[id][i] in h2 && h2[w2[id][i]] == Some(id)
    {
      assert hosting[w2[id][i]] == Some(id);
    }
    forall id | id in w2 && id.Own?
      ensures id.owner in h2
    {
      assert id !in OwnQueues(d);
    }
    forall c | c in h2
      ensures Own(c) in w2
    {
    }
    forall c | c in h2 && h2[c].Some?
      ensures h2[c].value in w2
    {
    }
  }

  /** The kept contexts form a clean, idle free list once the reclaimed ones are gone. */
  lemma GcFree(s: seq<Option<CtxId>>, fl: seq<CtxId>, ctxs: map<CtxId, Ctx>, expire: Expire, hosting: Hosting,
               w: Waitqs)
    requires FreeClean(fl, ctxs, expire, hosting) && FreeIdle(fl, w) && UniqueSlots(s)
    ensures var d := Reclaimed(fl, ctxs); var k := KeptOf(s, fl, ctxs);
      && FreeClean(k, ctxs - d, expire - d, hosting - d)
      && FreeIdle(k, w - OwnQueues(d))
  {
    var d := Reclaimed(fl, ctxs);
    var k := KeptOf(s, fl, ctxs);
    KeptMembers(s, fl, ctxs);
    forall i | 0 <= i < |k|
      ensures k[i] !in d && exists j :: 0 <= j < |fl| && fl[j] == k[i]
    {
      assert k[i] in k;
      assert ctxs[k[i]].abac > 0;
    }
  }

  /** Every context on the free list has a slot, so the destroyed contexts are exactly the reclaimed ones. */
  lemma GcDropped(s: seq<Option<CtxId>>, fl: seq<CtxId>, ctxs: map<CtxId, Ctx>)
    requires UniqueSlots(s) && Slots(s) == ctxs.Keys
    ensures DroppedOf(s, fl, ctxs) == Reclaimed(fl, ctxs)
    ensures DropCount(s, fl, ctxs) == |Reclaimed(fl, ctxs)|
  {
    var d := Reclaimed(fl, ctxs);
    DroppedMem(s, fl, ctxs);
    DropCountIsReclaimed(s, fl, ctxs);
    assert Slots(s) * d == d;
  }

  /** mnthr_gc keeps the invariant: the records, queues and slots of the reclaimed contexts are gone. */
  lemma GcCore(stacksize: nat, ctxs: map<CtxId, Ctx>, expire: Expire, hosting: Hosting, sleepq: Queue,
               waitqs: Waitqs, fl: seq<CtxId>, ctxes: seq<Option<CtxId>>, next: nat, packed: seq<Option<CtxId>>)
    requires CoreOf(stacksize, ctxs, expire, hosting, sleepq, waitqs, fl, ctxes, next)
    requires forall k :: 0 <= k < |packed| ==> packed[k].Some?
    requires Present(packed) == Present(Cleared(ctxes, fl, ctxs))
    ensures var d := Reclaimed(fl, ctxs);
      CoreOf(stacksize, ctxs - d, expire - d, hosting - d, sleepq, waitqs - OwnQueues(d),
             KeptOf(ctxes, fl, ctxs), packed, next)
  {
    var d := Reclaimed(fl, ctxs);
    GcSleepq(sleepq, expire, fl, ctxs, hosting);
    GcWaitqs(waitqs, hosting, fl, ctxs, expire);
    GcFree(ctxes, fl, ctxs, expire, hosting, waitqs);
    ClearedSlots(ctxes, fl, ctxs);
    SamePresent(packed, Cleared(ctxes, fl, ctxs));
    assert (ctxs - d).Keys == ctxs.Keys - d;
  }

  /** A live context that is not free is neither destroyed nor put back on the free list. */
  lemma GcKeepsLive(s: seq<Option<CtxId>>, fl: seq<CtxId>, ctxs: map<CtxId, Ctx>, m: CtxId)
    requires UniqueSlots(s) && m !in fl
    ensures m !in Reclaimed(fl, ctxs) && m !in KeptOf(s, fl, ctxs)
  {
    KeptMembers(s, fl, ctxs);
  }

  /**
   * The compaction pass of mnthr_gc, in place: every cleared slot takes the
   * next occupied slot after it; when there is none the array is cut there.
   */
  method CompactSlots(s0: seq<Option<CtxId>>) returns (s: seq<Option<CtxId>>)
    ensures forall k :: 0 <= k < |s| ==> s[k].Some?
    ensures Present(s) == Present(s0)
  {
    s := s0;
    var i := 0;
    while i < |s|
      invariant 0 <= i <= |s|
      invariant forall k :: 0 <= k < i ==> s[k].Some?
      invariant Present(s) == Present(s0)
    {
      if s[i].None? {
        var j := i + 1;
        while j < |s| && s[j].None?
          invariant i < j <= |s|
          invariant forall k :: i < k < j ==> s[k].None?
        {
          j := j + 1;
        }
        if j < |s| {
          SwapPresent(s, i, j);
          s := s[i := s[j]][j := None];
        } else {
          TrailingNone(s, i);
          s := s[..i];
          break;
        }
      }
      i := i + 1;
    }
  }

  // ---------------------------------------------------------------------
  // push_free_ctx on the book

  /** The book after mnthr_ctx_finalize's first steps on `c`: record finalized, expire_ticks UNDEFINED. */
  ghost function FinalBook(b: Book, c: CtxId): (r: Book)
    requires c in b.ctxs
    ensures r.ctxs == b.ctxs[c := Finalized(b.ctxs[c])] && r.expire == b.expire[c := SLEEP_UNDEFINED]
    ensures r.hosting == b.hosting && r.sleepq == b.sleepq
  {
    Book(b.ctxs[c := Finalized(b.ctxs[c])], b.expire[c := SLEEP_UNDEFINED], b.hosting, b.sleepq)
  }

  /** A context never waits in its own queue. */
  lemma NotInOwnQueue(w: Waitqs, hosting: Hosting, c: CtxId)
    requires WaitqsCoherent(w, hosting) && c in hosting
    ensures Own(c) in w && c !in w[Own(c)]
  {
    forall i | 0 <= i < |w[Own(c)]|
      ensures w[Own(c)][i] != c
    {
    }
  }

  /** Two successive updates of one key leave the second value. */
  lemma UpdateTwice(m: map<CtxId, Ctx>, c: CtxId, x: Ctx, y: Ctx)
    ensures m[c := x][c := y] == m[c := y]
  {
  }

  /** Rewriting the record of a context that is not free keeps the invariant. */
  lemma RecordCore(stacksize: nat, ctxs: map<CtxId, Ctx>, expire: Expire, hosting: Hosting, sleepq: Queue,
                   waitqs: Waitqs, fl: seq<CtxId>, ctxes: seq<Option<CtxId>>, next: nat, c: CtxId, x: Ctx)
    requires CoreOf(stacksize, ctxs, expire, hosting, sleepq, waitqs, fl, ctxes, next)
    requires c in ctxs && c !in fl
    ensures CoreOf(stacksize, ctxs[c := x], expire, hosting, sleepq, waitqs, fl, ctxes, next)
  {
    FreeCtxsPoint(fl, ctxs, expire, hosting, c, x);
    assert ctxs[c := x].Keys == ctxs.Keys;
  }

  /** Dropping an empty condition-variable queue keeps the invariant. */
  lemma DropCondCore(stacksize: nat, ctxs: map<CtxId, Ctx>, expire: Expire, hosting: Hosting, sleepq: Queue,
                     waitqs: Waitqs, fl: seq<CtxId>, ctxes: seq<Option<CtxId>>, next: nat, id: WaitqId)
    requires CoreOf(stacksize, ctxs, expire, hosting, sleepq, waitqs, fl, ctxes, next)
    requires id in waitqs && waitqs[id] == [] && id.Cond?
    ensures CoreOf(stacksize, ctxs, expire, hosting, sleepq, waitqs - {id}, fl, ctxes, next)
  {
    DropEmptyCoherent(waitqs, hosting, id);
  }

  /** sleepq_remove keeps the invariant and takes the context out of the sleep queue. */
  lemma UnsleepCore(stacksize: nat, ctxs: map<CtxId, Ctx>, expire: Expire, hosting: Hosting, sleepq: Queue,
                    waitqs: Waitqs, fl: seq<CtxId>, ctxes: seq<Option<CtxId>>, next: nat, c: CtxId)
    requires CoreOf(stacksize, ctxs, expire, hosting, sleepq, waitqs, fl, ctxes, next) && c in ctxs
    ensures !Queued(RemoveQ(sleepq, expire[c], c), c)
    ensures CoreOf(stacksize, ctxs, expire, hosting, RemoveQ(sleepq, expire[c], c), waitqs, fl, ctxes, next)
  {
    RemoveCoherent(sleepq, expire, c, expire[c]);
    assert expire[c := expire[c]] == expire;
  }

  /** mnthr_ctx_new keeps the invariant. */
  lemma FreshCore(stacksize: nat, ctxs: map<CtxId, Ctx>, expire: Expire, hosting: Hosting, sleepq: Queue,
                  waitqs: Waitqs, fl: seq<CtxId>, ctxes: seq<Option<CtxId>>, next: nat)
    requires CoreOf(stacksize, ctxs, expire, hosting, sleepq, waitqs, fl, ctxes, next)
    ensures next !in ctxs
    ensures CoreOf(stacksize, ctxs[next := InitCtx], expire[next := SLEEP_UNDEFINED], hosting[next := None], sleepq,
                   waitqs[Own(next) := []], fl, ctxes + [Some(next)], next + 1)
  {
    var c := next;
    AbsentNotQueued(sleepq, expire, c);
    UnqueuedRekey(sleepq, expire, c, SLEEP_UNDEFINED);
    FreshWaitqsCoherent(waitqs, hosting, c);
    FreshFree(fl, ctxs, expire, hosting, waitqs, c, InitCtx, SLEEP_UNDEFINED);
    SlotsAppend(ctxes, c);
  }

  /** mnthr_sleep's new state, expire_ticks and requeueing keep the invariant. */
  lemma SleepCore(stacksize: nat, ctxs: map<CtxId, Ctx>, expire: Expire, hosting: Hosting, sleepq: Queue,
                  waitqs: Waitqs, fl: seq<CtxId>, ctxes: seq<Option<CtxId>>, next: nat, m: CtxId, st: bv32, key: nat)
    requires CoreOf(stacksize, ctxs, expire, hosting, sleepq, waitqs, fl, ctxes, next)
    requires m in ctxs && m !in fl && key != SLEEP_UNDEFINED
    ensures var q2 := EnqueueQ(RemoveQ(sleepq, expire[m], m), key, m, ctxs[m].prio);
      && CoreOf(stacksize, ctxs[m := ctxs[m].(state := st)], expire[m := key], hosting, q2, waitqs, fl, ctxes, next)
      && Queued(q2, m) && (forall x :: x != m ==> (Queued(q2, x) <==> Queued(sleepq, x)))
  {
    var nc := ctxs[m].(state := st);
    RequeueCoherent(sleepq, expire, m, key, ctxs[m].prio);
    FreeCtxsPoint(fl, ctxs, expire, hosting, m, nc);
    FreeExpirePoint(fl, ctxs[m := nc], expire, hosting, m, key);
  }

  /** Taking whole keys out of the sleep queue keeps the invariant. */
  lemma SubQueueCore(stacksize: nat, ctxs: map<CtxId, Ctx>, expire: Expire, hosting: Hosting, sleepq: Queue,
                     waitqs: Waitqs, fl: seq<CtxId>, ctxes: seq<Option<CtxId>>, next: nat, q: Queue)
    requires CoreOf(stacksize, ctxs, expire, hosting, sleepq, waitqs, fl, ctxes, next)
    requires forall k :: k in q ==> k in sleepq && q[k] == sleepq[k]
    ensures CoreOf(stacksize, ctxs, expire, hosting, q, waitqs, fl, ctxes, next)
  {
  }

  /** Setting expire_ticks of a live context that is not queued keeps the invariant. */
  lemma UnexpireCore(stacksize: nat, ctxs: map<CtxId, Ctx>, expire: Expire, hosting: Hosting, sleepq: Queue,
                     waitqs: Waitqs, fl: seq<CtxId>, ctxes: seq<Option<CtxId>>, next: nat, c: CtxId, k: nat)
    requires CoreOf(stacksize, ctxs, expire, hosting, sleepq, waitqs, fl, ctxes, next)
    requires c in ctxs && c !in fl && !Queued(sleepq, c)
    ensures CoreOf(stacksize, ctxs, expire[c := k], hosting, sleepq, waitqs, fl, ctxes, next)
  {
    UnqueuedRekey(sleepq, expire, c, k);
    FreeExpirePoint(fl, ctxs, expire, hosting, c, k);
  }
}
