/**
 * The sleep queue as an abstract value: an ordered multimap from
 * `expire_ticks` to the contexts waiting for that tick.  The trie node of a
 * key holds one "bucket host" context; the host carries a FIFO bucket of the
 * other contexts with the same key.  The model writes the host and its bucket
 * as one sequence: element 0 is the host, the rest is the bucket in order.
 *
 * The functions below are the specifications that the imperative queues of
 * mnthr (src/mnthr.c, class Mnthr.Scheduler) and mrkthr (src/mrkthr.c, class
 * MrkSleepq.LinkedSleepQueue) are proved against.
 */
module SleepQueue {
  type CtxId = nat
  type Queue = map<nat, seq<CtxId>>

  /** Every trie node has a host. */
  ghost predicate WellFormed(q: Queue)
  {
    forall k :: k in q ==> |q[k]| > 0
  }

  ghost predicate DistinctSeq(s: seq<CtxId>)
  {
    forall i, j :: 0 <= i < j < |s| ==> s[i] != s[j]
  }

  /** `c` is a host or a bucket member somewhere in the queue. */
  ghost predicate Queued(q: Queue, c: CtxId)
  {
    exists k :: k in q && c in q[k]
  }

  /** No context is queued twice (within a bucket or across keys). */
  ghost predicate NoDup(q: Queue)
  {
    && (forall k :: k in q ==> DistinctSeq(q[k]))
    && (forall k1, k2, c :: k1 in q && k2 in q && k1 != k2 && c in q[k1] ==> c !in q[k2])
  }

  /** The sequence without its first occurrence of `c`. */
  function RemoveFirst(s: seq<CtxId>, c: CtxId): (r: seq<CtxId>)
    ensures c !in s ==> r == s
    ensures c in s ==> |r| == |s| - 1
    ensures forall x :: x in r ==> x in s
    ensures forall x :: x in s && x != c ==> x in r
    ensures DistinctSeq(s) ==> DistinctSeq(r) && c !in r
  {
    if s == [] then []
    else if s[0] == c then s[1..]
    else
      var t := RemoveFirst(s[1..], c);
      assert DistinctSeq(s) ==> s[0] !in s[1..] && DistinctSeq(s[1..]);
      [s[0]] + t
  }

  /**
   * sleepq_insert: with no node at `key` the context becomes host;
   * otherwise it goes to the FRONT of the host's bucket.
   */
  function InsertQ(q: Queue, key: nat, c: CtxId): (r: Queue)
    requires WellFormed(q)
    ensures WellFormed(r)
  {
    if key in q then q[key := [q[key][0], c] + q[key][1..]] else q[key := [c]]
  }

  /**
   * sleepq_append: with no node at `key` the context becomes host;
   * otherwise it goes to the BACK of the host's bucket.
   */
  function AppendQ(q: Queue, key: nat, c: CtxId): (r: Queue)
    requires WellFormed(q)
    ensures WellFormed(r)
  {
    if key in q then q[key := q[key] + [c]] else q[key := [c]]
  }

  /** mnthr_set_prio selects the enqueue discipline: front when set, back otherwise. */
  function EnqueueQ(q: Queue, key: nat, c: CtxId, prio: bool): (r: Queue)
    requires WellFormed(q)
    ensures WellFormed(r)
  {
    if prio then InsertQ(q, key, c) else AppendQ(q, key, c)
  }

  /**
   * sleepq_insert_once: nothing changes when `c` is already the host at
   * `key`; otherwise as sleepq_insert.
   */
  function InsertOnceQ(q: Queue, key: nat, c: CtxId): (r: Queue)
    requires WellFormed(q)
    ensures WellFormed(r)
  {
    if key in q && q[key][0] == c then q else InsertQ(q, key, c)
  }

  /**
   * sleepq_remove of a context whose expire_ticks is `key`: key 0
   * (UNDEFINED) and an absent key are ignored; removing the host promotes
   * the first bucket member, which keeps the rest of the bucket; a lone host
   * deletes the key; a bucket member is unlinked; a context that is neither
   * is ignored.
   */
  function RemoveQ(q: Queue, key: nat, c: CtxId): (r: Queue)
    requires WellFormed(q)
    ensures WellFormed(r)
  {
    if key == 0 then q else RemoveAtQ(q, key, c)
  }

  /**
   * The removal itself, at any key (mrkthr's queue has no UNDEFINED key:
   * its key 0 is a valid, immediately expired key).
   */
  function RemoveAtQ(q: Queue, key: nat, c: CtxId): (r: Queue)
    requires WellFormed(q)
    ensures WellFormed(r)
  {
    if key !in q then q
    else if q[key][0] == c then
      (if |q[key]| == 1 then q - {key} else q[key := q[key][1..]])
    else if c in q[key][1..] then q[key := [q[key][0]] + RemoveFirst(q[key][1..], c)]
    else q
  }

  // ---------------------------------------------------------------------
  // Properties of the operations

  /** With no node at `key`, either discipline makes `c` the host. */
  lemma EnqueueNewKey(q: Queue, key: nat, c: CtxId, prio: bool)
    requires WellFormed(q) && key !in q
    ensures EnqueueQ(q, key, c, prio)[key] == [c]
    ensures EnqueueQ(q, key, c, prio) - {key} == q
  {
  }

  /**
   * Priority ordering: at an occupied key the host stays host; insert puts
   * the context first in the bucket, append puts it last; other keys are
   * unchanged.
   */
  lemma EnqueueOrdering(q: Queue, key: nat, c: CtxId)
    requires WellFormed(q) && key in q
    ensures InsertQ(q, key, c)[key][0] == q[key][0] && AppendQ(q, key, c)[key][0] == q[key][0]
    ensures InsertQ(q, key, c)[key][1..] == [c] + q[key][1..]
    ensures AppendQ(q, key, c)[key][1..] == q[key][1..] + [c]
    ensures forall k :: k in q && k != key ==> InsertQ(q, key, c)[k] == q[k] && AppendQ(q, key, c)[k] == q[k]
    ensures InsertQ(q, key, c).Keys == q.Keys && AppendQ(q, key, c).Keys == q.Keys
  {
  }

  /** A prioritised context runs before an appended one that shares its key. */
  lemma PrioRunsFirst(q: Queue, key: nat, a: CtxId, b: CtxId)
    requires WellFormed(q) && key in q
    ensures
      var r := InsertQ(AppendQ(q, key, a), key, b);
      r[key] == [q[key][0], b] + q[key][1..] + [a]
  {
  }

  /** Removing a host with a non-empty bucket promotes the first member. */
  lemma RemoveHostPromotes(q: Queue, key: nat)
    requires WellFormed(q) && key != 0 && key in q && |q[key]| > 1
    ensures var r := RemoveQ(q, key, q[key][0]);
      && key in r && r[key][0] == q[key][1] && r[key][1..] == q[key][2..]
      && r - {key} == q - {key}
  {
  }

  /** Removing a lone host deletes the key. */
  lemma RemoveLoneHost(q: Queue, key: nat)
    requires WellFormed(q) && key != 0 && key in q && |q[key]| == 1
    ensures RemoveQ(q, key, q[key][0]) == q - {key}
  {
  }

  /** Removing a bucket member unlinks exactly that member. */
  lemma RemoveMember(q: Queue, key: nat, c: CtxId)
    requires WellFormed(q) && NoDup(q) && key != 0 && key in q && c in q[key][1..]
    ensures var r := RemoveQ(q, key, c);
      && key in r && r[key][0] == q[key][0] && c !in r[key]
      && |r[key]| == |q[key]| - 1
      && (forall x :: x in q[key] && x != c ==> x in r[key])
      && r - {key} == q - {key}
  {
    assert DistinctSeq(q[key][1..]);
    assert q[key][0] != c;
  }

  /** The cases in which sleepq_remove leaves the queue as it was. */
  lemma RemoveIgnored(q: Queue, key: nat, c: CtxId)
    requires WellFormed(q)
    requires key == 0 || key !in q || c !in q[key]
    ensures RemoveQ(q, key, c) == q
  {
    if key != 0 && key in q {
      assert q[key] == [q[key][0]] + q[key][1..];
    }
  }

  /** sleepq_insert_once changes nothing when the context already hosts the key. */
  lemma InsertOnceHost(q: Queue, key: nat)
    requires WellFormed(q) && key in q
    ensures InsertOnceQ(q, key, q[key][0]) == q
  {
  }

  /** Enqueue then remove at the same key gives back the queue (round trip). */
  lemma {:induction false} EnqueueRemoveRoundTrip(q: Queue, key: nat, c: CtxId, prio: bool)
    requires WellFormed(q) && NoDup(q) && key != 0 && !Queued(q, c)
    ensures RemoveQ(EnqueueQ(q, key, c, prio), key, c) == q
  {
    if key in q {
      var s := q[key];
      assert c !in s;
      if prio {
        var t := [s[0], c] + s[1..];
        assert t[0] == s[0] && t[1..] == [c] + s[1..];
        assert c in t[1..];
        assert RemoveFirst(t[1..], c) == s[1..];
        assert [s[0]] + s[1..] == s;
      } else {
        var t := s + [c];
        assert t[0] == s[0] && t[1..] == s[1..] + [c];
        assert c in t[1..];
        RemoveFirstLast(s[1..], c);
        assert [s[0]] + s[1..] == s;
      }
    } else {
      assert EnqueueQ(q, key, c, prio) == q[key := [c]];
      assert q[key := [c]] - {key} == q;
    }
  }

  lemma {:induction false} RemoveFirstLast(s: seq<CtxId>, c: CtxId)
    requires c !in s
    ensures RemoveFirst(s + [c], c) == s
  {
    if s != [] {
      assert (s + [c])[1..] == s[1..] + [c];
      RemoveFirstLast(s[1..], c);
    }
  }

  /** Enqueueing a context that is not queued keeps the queue duplicate-free. */
  lemma EnqueueKeepsNoDup(q: Queue, key: nat, c: CtxId, prio: bool)
    requires WellFormed(q) && NoDup(q) && !Queued(q, c)
    ensures NoDup(EnqueueQ(q, key, c, prio))
    ensures Queued(EnqueueQ(q, key, c, prio), c)
    ensures forall x :: Queued(EnqueueQ(q, key, c, prio), x) <==> (Queued(q, x) || x == c)
  {
    var r := EnqueueQ(q, key, c, prio);
    assert key in r && c in r[key];
    forall x
      ensures Queued(r, x) <==> (Queued(q, x) || x == c)
    {
      if Queued(q, x) {
        var k :| k in q && x in q[k];
        assert x in r[k];
      }
      if Queued(r, x) && x != c {
        var k :| k in r && x in r[k];
        assert x in q[k];
      }
    }
  }

  /** Removing keeps the queue duplicate-free and takes `c` out of it. */
  lemma RemoveKeepsNoDup(q: Queue, key: nat, c: CtxId)
    requires WellFormed(q) && NoDup(q) && key != 0
    requires Queued(q, c) ==> key in q && c in q[key]
    ensures NoDup(RemoveQ(q, key, c))
    ensures !Queued(RemoveQ(q, key, c), c)
    ensures forall x :: x != c ==> (Queued(RemoveQ(q, key, c), x) <==> Queued(q, x))
  {
    RemoveAtKeepsNoDup(q, key, c);
  }

  /** The same for the removal at any key, key 0 included. */
  lemma RemoveAtKeepsNoDup(q: Queue, key: nat, c: CtxId)
    requires WellFormed(q) && NoDup(q)
    requires Queued(q, c) ==> key in q && c in q[key]
    ensures NoDup(RemoveAtQ(q, key, c))
    ensures !Queued(RemoveAtQ(q, key, c), c)
    ensures forall x :: x != c ==> (Queued(RemoveAtQ(q, key, c), x) <==> Queued(q, x))
  {
    var r := RemoveAtQ(q, key, c);
    if key in q {
      var s := q[key];
      assert s == [s[0]] + s[1..];
      assert DistinctSeq(s[1..]);
      assert s[0] !in s[1..];
      if s[0] != c && c in s[1..] {
        var t := RemoveFirst(s[1..], c);
        assert r[key] == [s[0]] + t;
        assert DistinctSeq(t) && s[0] !in t;
        assert DistinctSeq([s[0]] + t);
      }
    }
    assert forall k :: k in r ==> DistinctSeq(r[k]);
    forall x
      ensures x != c ==> (Queued(r, x) <==> Queued(q, x))
    {
      if x != c && Queued(q, x) {
        var k :| k in q && x in q[k];
        if k == key && q[key][0] != x {
          assert x in q[key][1..];
        }
        assert x in r[k];
      }
      if x != c && Queued(r, x) {
        var k :| k in r && x in r[k];
        assert k in q;
        if k == key && q[key][0] != c {
          assert x in q[key][1..] || x == q[key][0];
        }
        assert x in q[k];
      }
    }
    forall k | k in r
      ensures c !in r[k]
    {
      if k != key {
        assert r[k] == q[k];
      }
    }
  }

  /** Removal only ever takes entries away. */
  lemma RemoveSubset(q: Queue, key: nat, c: CtxId)
    requires WellFormed(q)
    ensures forall k, x :: k in RemoveQ(q, key, c) && x in RemoveQ(q, key, c)[k] ==> k in q && x in q[k]
  {
    if key != 0 {
      RemoveAtSubset(q, key, c);
    }
  }

  /** The same for the removal at any key. */
  lemma RemoveAtSubset(q: Queue, key: nat, c: CtxId)
    requires WellFormed(q)
    ensures forall k, x :: k in RemoveAtQ(q, key, c) && x in RemoveAtQ(q, key, c)[k] ==> k in q && x in q[k]
  {
    var r := RemoveAtQ(q, key, c);
    forall k, x | k in r && x in r[k]
      ensures k in q && x in q[k]
    {
      if k == key && key in q && q[key][0] != c && c in q[key][1..] {
        assert x == q[key][0] || x in RemoveFirst(q[key][1..], c);
      } else if k == key && key in q && q[key][0] == c {
        assert x in q[key][1..];
      }
    }
  }

  /** Enqueueing adds `c` at `key` and nothing else. */
  lemma EnqueueSubset(q: Queue, key: nat, c: CtxId, prio: bool)
    requires WellFormed(q)
    ensures forall k, x :: k in EnqueueQ(q, key, c, prio) && x in EnqueueQ(q, key, c, prio)[k] ==>
      (k in q && x in q[k]) || (k == key && x == c)
  {
    var r := EnqueueQ(q, key, c, prio);
    forall k, x | k in r && x in r[k]
      ensures (k in q && x in q[k]) || (k == key && x == c)
    {
      if k == key && key in q && x != c {
        if prio {
          assert r[k] == [q[k][0], c] + q[k][1..];
          assert x == q[k][0] || x in q[k][1..];
        } else {
          assert r[k] == q[k] + [c];
        }
      }
    }
  }

  // ---------------------------------------------------------------------
  // Draining the expired prefix

  /** `k` is the least element of `s`. */
  ghost predicate IsLeast(s: set<nat>, k: nat)
  {
    k in s && forall j :: j in s ==> k <= j
  }

  lemma {:induction false} MinExists(s: set<nat>)
    requires s != {}
    ensures exists k :: IsLeast(s, k)
    decreases |s|
  {
    var x :| x in s;
    var rest := s - {x};
    if rest == {} {
      forall j | j in s
        ensures x <= j
      {
        assert j !in rest;
      }
      assert IsLeast(s, x);
    } else {
      assert |rest| < |s|;
      MinExists(rest);
      var m :| IsLeast(rest, m);
      var least := if x < m then x else m;
      forall j | j in s
        ensures least <= j
      {
        if j != x {
          assert j in rest;
        }
      }
      assert IsLeast(s, least);
    }
  }

  /** BTRIE_MIN / TRIE_MIN: the least key of a non-empty trie. */
  method LeastKey(keys: set<nat>) returns (k: nat)
    requires keys != {}
    ensures k in keys && forall j :: j in keys ==> k <= j
  {
    var ks := keys;
    k :| k in ks;
    ks := ks - {k};
    while ks != {}
      invariant k in keys && ks <= keys
      invariant forall j :: j in keys && j !in ks ==> k <= j
      decreases |ks|
    {
      var x :| x in ks;
      if x < k {
        k := x;
      }
      ks := ks - {x};
    }
  }

  /** The least key, as found by BTRIE_MIN / TRIE_MIN. */
  ghost function MinKey(s: set<nat>): (k: nat)
    requires s != {}
    ensures k in s && forall j :: j in s ==> k <= j
  {
    MinExists(s);
    var k :| IsLeast(s, k); k
  }

  ghost function ExpiredKeys(q: Queue, now: nat): set<nat>
  {
    set k | k in q && k < now
  }

  /** Every key is at least `now`. */
  ghost predicate NoneExpired(q: Queue, now: nat)
  {
    forall k :: k in q ==> now <= k
  }

  /** The queue without its expired keys. */
  ghost function Unexpired(q: Queue, now: nat): (r: Queue)
    ensures NoneExpired(r, now)
    ensures WellFormed(q) ==> WellFormed(r)
  {
    map k | k in q && now <= k :: q[k]
  }

  /** One key's contexts in mnthr's run order: host first, then the bucket. */
  function HostFirst(s: seq<CtxId>): seq<CtxId> { s }

  /** One key's contexts in mrkthr's run order: bucket members, then the owner. */
  function MembersFirst(s: seq<CtxId>): (r: seq<CtxId>)
    requires |s| > 0
    ensures |r| == |s| && r[|r| - 1] == s[0] && r[..|r| - 1] == s[1..]
  {
    s[1..] + [s[0]]
  }

  /**
   * The run order of draining every key below `now`, smallest key first;
   * `membersFirst` selects mrkthr's order within a key.
   */
  ghost function DrainOrder(q: Queue, now: nat, membersFirst: bool): seq<CtxId>
    requires WellFormed(q)
    decreases |q.Keys|
  {
    var ks := ExpiredKeys(q, now);
    if ks == {} then []
    else
      var k := MinKey(ks);
      assert (q - {k}).Keys < q.Keys;
      (if membersFirst then MembersFirst(q[k]) else HostFirst(q[k]))
        + DrainOrder(q - {k}, now, membersFirst)
  }

  /** The least expired key drains first, and the rest drains after it. */
  lemma DrainStep(q: Queue, now: nat, membersFirst: bool, k: nat)
    requires WellFormed(q) && k in q && k < now
    requires forall j :: j in q ==> k <= j
    ensures DrainOrder(q, now, membersFirst)
      == (if membersFirst then MembersFirst(q[k]) else HostFirst(q[k])) + DrainOrder(q - {k}, now, membersFirst)
  {
    var ks := ExpiredKeys(q, now);
    assert k in ks;
    var m := MinKey(ks);
    assert m <= k && k <= m;
  }

  /** Nothing drains once the least key is not expired. */
  lemma DrainNone(q: Queue, now: nat, membersFirst: bool)
    requires WellFormed(q) && NoneExpired(q, now)
    ensures DrainOrder(q, now, membersFirst) == []
  {
    assert ExpiredKeys(q, now) == {};
  }

  /** The order is exactly the contexts of the expired keys, each once. */
  lemma {:induction false} DrainOrderContents(q: Queue, now: nat, membersFirst: bool, x: CtxId)
    requires WellFormed(q)
    ensures x in DrainOrder(q, now, membersFirst) <==> exists k :: k in q && k < now && x in q[k]
    decreases |q.Keys|
  {
    var ks := ExpiredKeys(q, now);
    if ks != {} {
      var k := MinKey(ks);
      assert (q - {k}).Keys < q.Keys;
      DrainOrderContents(q - {k}, now, membersFirst, x);
      var here := if membersFirst then MembersFirst(q[k]) else HostFirst(q[k]);
      assert x in here <==> x in q[k];
      if x in DrainOrder(q, now, membersFirst) {
        assert x in here || x in DrainOrder(q - {k}, now, membersFirst);
      }
      if exists j :: j in q && j < now && x in q[j] {
        var j :| j in q && j < now && x in q[j];
        if j != k {
          assert j in (q - {k});
        }
      }
    } else {
      assert forall j :: j in q && j < now ==> j in ks;
    }
  }

  /**
   * A smaller expired key drains wholly before a larger one: every context
   * of the least expired key precedes every context of any other key.
   */
  lemma {:induction false} DrainOrderAscending(q: Queue, now: nat, membersFirst: bool)
    requires WellFormed(q)
    requires ExpiredKeys(q, now) != {}
    ensures var k := MinKey(ExpiredKeys(q, now));
      var here := if membersFirst then MembersFirst(q[k]) else HostFirst(q[k]);
      DrainOrder(q, now, membersFirst)[..|q[k]|] == here
      && forall j :: j in q && j < now && j != k ==> j > k
  {
    var ks := ExpiredKeys(q, now);
    var k := MinKey(ks);
    var here := if membersFirst then MembersFirst(q[k]) else HostFirst(q[k]);
    assert DrainOrder(q, now, membersFirst) == here + DrainOrder(q - {k}, now, membersFirst);
    assert |here| == |q[k]|;
    forall j | j in q && j < now && j != k
      ensures j > k
    {
      assert j in ks;
    }
  }
}
