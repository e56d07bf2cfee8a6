/**
 * The sleep queue of mrkthr (src/mrkthr.c): a trie from expire_ticks to a
 * bucket owner, where the owner carries a doubly linked bucket of the other
 * contexts with that key.  The bucket's head and tail pointers live in the
 * owner (`sleepq_bucket`), the prev/next links in each member
 * (`sleepq_bucket_entry`).
 *
 * The pointer fields are kept per context as maps.  A ghost map `bucket`
 * names the list each context's head pointer leads to; LinkedOk says the
 * pointers really link those lists, and Abs reads the structure back as a
 * SleepQueue.Queue (owner first, then its bucket in link order), which is
 * what the methods are proved against.
 */
module MrkSleepq {
  import opened Wrappers
  import opened SleepQueue

  /** The sleep-queue fields of every context, plus the trie. */
  datatype Links = Links(
    owner: map<nat, CtxId>,
    expire: map<CtxId, nat>,
    head: map<CtxId, Option<CtxId>>,
    tail: map<CtxId, Option<CtxId>>,
    prev: map<CtxId, Option<CtxId>>,
    next: map<CtxId, Option<CtxId>>,
    bucket: map<CtxId, seq<CtxId>>)

  // ---------------------------------------------------------------------
  // One doubly linked list

  /** `s` is linked from `h` to `t` through `prev` and `next`, each element once. */
  ghost predicate ListOk(s: seq<CtxId>, h: Option<CtxId>, t: Option<CtxId>,
                         prev: map<CtxId, Option<CtxId>>, next: map<CtxId, Option<CtxId>>)
  {
    && DistinctSeq(s)
    && h == (if s == [] then None else Some(s[0]))
    && t == (if s == [] then None else Some(s[|s| - 1]))
    && (forall i :: 0 <= i < |s| ==> s[i] in prev && s[i] in next)
    && (s != [] ==> prev[s[0]] == None && next[s[|s| - 1]] == None)
    && (forall i, j :: 0 <= i && j == i + 1 && j < |s| ==> next[s[i]] == Some(s[j]) && prev[s[j]] == Some(s[i]))
  }

  /** A list stays linked when the links of its own elements are left alone. */
  lemma ListFrame(s: seq<CtxId>, h: Option<CtxId>, t: Option<CtxId>,
                  p1: map<CtxId, Option<CtxId>>, n1: map<CtxId, Option<CtxId>>,
                  p2: map<CtxId, Option<CtxId>>, n2: map<CtxId, Option<CtxId>>)
    requires ListOk(s, h, t, p1, n1)
    requires forall i :: 0 <= i < |s| ==> s[i] in p2 && s[i] in n2 && p2[s[i]] == p1[s[i]] && n2[s[i]] == n1[s[i]]
    ensures ListOk(s, h, t, p2, n2)
  {
    forall i, j | 0 <= i && j == i + 1 && j < |s|
      ensures n2[s[i]] == Some(s[j]) && p2[s[j]] == Some(s[i])
    {
    }
  }

  /** A list that holds neither `c` nor its neighbours is untouched by unlinking `c`. */
  lemma ListSkipsUnlink(s: seq<CtxId>, h: Option<CtxId>, t: Option<CtxId>,
                        prev: map<CtxId, Option<CtxId>>, next: map<CtxId, Option<CtxId>>,
                        c: CtxId, p: Option<CtxId>, n: Option<CtxId>)
    requires ListOk(s, h, t, prev, next) && c !in s
    requires (p.Some? ==> p.value !in s) && (n.Some? ==> n.value !in s)
    ensures ListOk(s, h, t, (if n.Some? then prev[n.value := p] else prev)[c := None],
                   (if p.Some? then next[p.value := n] else next)[c := None])
  {
    ListFrame(s, h, t, prev, next, (if n.Some? then prev[n.value := p] else prev)[c := None],
              (if p.Some? then next[p.value := n] else next)[c := None]);
  }

  /** The neighbours of the element at `i`, as its links give them. */
  lemma Neighbours(s: seq<CtxId>, i: nat, h: Option<CtxId>, t: Option<CtxId>,
                   prev: map<CtxId, Option<CtxId>>, next: map<CtxId, Option<CtxId>>)
    requires ListOk(s, h, t, prev, next) && i < |s|
    ensures prev[s[i]] == if i == 0 then None else Some(s[i - 1])
    ensures next[s[i]] == if i == |s| - 1 then None else Some(s[i + 1])
  {
    if i > 0 {
      assert next[s[i - 1]] == Some(s[i]) && prev[s[i]] == Some(s[i - 1]);
    }
    if i < |s| - 1 {
      assert next[s[i]] == Some(s[i + 1]) && prev[s[i + 1]] == Some(s[i]);
    }
  }

  /**
   * sleepq_bucket_remove on one list: the predecessor (or the head) skips
   * to the successor, the successor (or the tail) points back to the
   * predecessor, and the element's own links are cleared.
   */
  lemma ListUnlink(s: seq<CtxId>, i: nat, h: Option<CtxId>, t: Option<CtxId>,
                   prev: map<CtxId, Option<CtxId>>, next: map<CtxId, Option<CtxId>>)
    requires ListOk(s, h, t, prev, next) && i < |s|
    ensures var c, p, n := s[i], prev[s[i]], next[s[i]];
      ListOk(s[..i] + s[i + 1..],
             if p.Some? then h else n,
             if n.Some? then t else p,
             (if n.Some? then prev[n.value := p] else prev)[c := None],
             (if p.Some? then next[p.value := n] else next)[c := None])
  {
    var c, p, n := s[i], prev[s[i]], next[s[i]];
    Neighbours(s, i, h, t, prev, next);
    RemoveFirstAt(s, i);
    UnlinkPairs(s, i, prev, next);
    UnlinkEnds(s, i, h, t, prev, next);
  }

  /** After the unlink, each pair of neighbours in the shorter list is linked both ways. */
  lemma UnlinkPairs(s: seq<CtxId>, i: nat, prev: map<CtxId, Option<CtxId>>, next: map<CtxId, Option<CtxId>>)
    requires ListOk(s, if s == [] then None else Some(s[0]), if s == [] then None else Some(s[|s| - 1]), prev, next)
    requires i < |s|
    ensures var c, p, n := s[i], prev[s[i]], next[s[i]];
      var r := s[..i] + s[i + 1..];
      var prev2 := (if n.Some? then prev[n.value := p] else prev)[c := None];
      var next2 := (if p.Some? then next[p.value := n] else next)[c := None];
      forall a, b :: 0 <= a && b == a + 1 && b < |r| ==> next2[r[a]] == Some(r[b]) && prev2[r[b]] == Some(r[a])
  {
    var c, p, n := s[i], prev[s[i]], next[s[i]];
    Neighbours(s, i, if s == [] then None else Some(s[0]), if s == [] then None else Some(s[|s| - 1]), prev, next);
    var r := s[..i] + s[i + 1..];
    var prev2 := (if n.Some? then prev[n.value := p] else prev)[c := None];
    var next2 := (if p.Some? then next[p.value := n] else next)[c := None];
    forall a, b | 0 <= a && b == a + 1 && b < |r|
      ensures next2[r[a]] == Some(r[b]) && prev2[r[b]] == Some(r[a])
    {
      if b < i {
        assert r[a] == s[a] && r[b] == s[b];
        assert next[s[a]] == Some(s[b]) && prev[s[b]] == Some(s[a]);
        assert s[a] != s[i - 1] && (i + 1 < |s| ==> s[b] != s[i + 1]);
      } else if b == i {
        assert r[a] == s[i - 1] && r[b] == s[i + 1];
      } else {
        assert r[a] == s[a + 1] && r[b] == s[b + 1];
        assert next[s[a + 1]] == Some(s[b + 1]) && prev[s[b + 1]] == Some(s[a + 1]);
        assert i > 0 ==> s[a + 1] != s[i - 1];
        assert s[b + 1] != s[i + 1];
      }
    }
  }

  /** After the unlink, the shorter list's ends are where the head and tail point, with no link beyond. */
  lemma UnlinkEnds(s: seq<CtxId>, i: nat, h: Option<CtxId>, t: Option<CtxId>,
                   prev: map<CtxId, Option<CtxId>>, next: map<CtxId, Option<CtxId>>)
    requires ListOk(s, h, t, prev, next) && i < |s|
    ensures var c, p, n := s[i], prev[s[i]], next[s[i]];
      var r := s[..i] + s[i + 1..];
      var prev2 := (if n.Some? then prev[n.value := p] else prev)[c := None];
      var next2 := (if p.Some? then next[p.value := n] else next)[c := None];
      && (if p.Some? then h else n) == (if r == [] then None else Some(r[0]))
      && (if n.Some? then t else p) == (if r == [] then None else Some(r[|r| - 1]))
      && (forall j :: 0 <= j < |r| ==> r[j] in prev2 && r[j] in next2)
      && (r != [] ==> prev2[r[0]] == None && next2[r[|r| - 1]] == None)
  {
    var c, p, n := s[i], prev[s[i]], next[s[i]];
    Neighbours(s, i, h, t, prev, next);
    var r := s[..i] + s[i + 1..];
    assert |r| == |s| - 1;
    assert forall j :: 0 <= j < |r| ==> r[j] == (if j < i then s[j] else s[j + 1]);
    if r != [] {
      if i == 0 {
        assert r[0] == s[1];
      } else {
        assert r[0] == s[0];
        assert i < |s| - 1 ==> s[0] != s[i + 1];
        assert prev[s[0]] == None;
      }
      if i == |s| - 1 {
        assert r[|r| - 1] == s[|s| - 2];
      } else {
        assert r[|r| - 1] == s[|s| - 1];
        assert i > 0 ==> s[|s| - 1] != s[i - 1];
      }
    }
  }

  /**
   * The append of sleepq_enqueue on one list: an empty list gets the
   * element as head and tail; otherwise the old tail points forward to it
   * and it points back to the old tail.
   */
  lemma ListAppend(s: seq<CtxId>, h: Option<CtxId>, t: Option<CtxId>,
                   prev: map<CtxId, Option<CtxId>>, next: map<CtxId, Option<CtxId>>, c: CtxId)
    requires ListOk(s, h, t, prev, next) && c !in s
    ensures ListOk(s + [c], if t.None? then Some(c) else h, Some(c), prev[c := t],
                   (if t.Some? then next[t.value := Some(c)] else next)[c := None])
  {
    var r: seq<CtxId> := s + [c];
    var prev2 := prev[c := t];
    var next2 := (if t.Some? then next[t.value := Some(c)] else next)[c := None];
    forall a, b | 0 <= a && b == a + 1 && b < |r|
      ensures next2[r[a]] == Some(r[b]) && prev2[r[b]] == Some(r[a])
    {
      if b < |s| {
        assert r[a] == s[a] && r[b] == s[b] && s[a] != s[|s| - 1];
        assert next[s[a]] == Some(s[b]) && prev[s[b]] == Some(s[a]);
      } else {
        assert r[a] == s[|s| - 1] && r[b] == c;
      }
    }
    if s != [] {
      assert r[0] == s[0];
    }
  }

  /** The first occurrence of an element of a list without repeats is where it is. */
  lemma RemoveFirstAt(s: seq<CtxId>, i: nat)
    requires DistinctSeq(s) && i < |s|
    ensures RemoveFirst(s, s[i]) == s[..i] + s[i + 1..]
    decreases i
  {
    if i > 0 {
      RemoveFirstAt(s[1..], i - 1);
      assert s[1..][i - 1] == s[i];
      assert s[1..][..i - 1] + s[1..][i..] == (s[..i] + s[i + 1..])[1..];
    }
  }


  /** A list that holds neither `c` nor the old tail `t` is untouched by appending `c` after `t`. */
  lemma ListSkipsAppend(s: seq<CtxId>, h: Option<CtxId>, t: Option<CtxId>,
                        prev: map<CtxId, Option<CtxId>>, next: map<CtxId, Option<CtxId>>,
                        c: CtxId, tl: Option<CtxId>)
    requires ListOk(s, h, t, prev, next) && c !in s && (tl.Some? ==> tl.value !in s)
    ensures ListOk(s, h, t, prev[c := tl], (if tl.Some? then next[tl.value := Some(c)] else next)[c := None])
  {
    ListFrame(s, h, t, prev, next, prev[c := tl], (if tl.Some? then next[tl.value := Some(c)] else next)[c := None]);
  }

  /** A list that does not hold `c` is untouched by clearing `c`'s links. */
  lemma ListSkipsClear(s: seq<CtxId>, h: Option<CtxId>, t: Option<CtxId>,
                       prev: map<CtxId, Option<CtxId>>, next: map<CtxId, Option<CtxId>>, c: CtxId)
    requires ListOk(s, h, t, prev, next) && c !in s
    ensures ListOk(s, h, t, prev[c := None], next[c := None])
  {
    ListFrame(s, h, t, prev, next, prev[c := None], next[c := None]);
  }

  // ---------------------------------------------------------------------
  // The whole structure

  /** `c` is the context the trie holds at its expire_ticks. */
  ghost predicate IsOwner(l: Links, c: CtxId)
  {
    c in l.expire && l.expire[c] in l.owner && l.owner[l.expire[c]] == c
  }

  ghost predicate InBucket(l: Links, o: CtxId, c: CtxId)
  {
    o in l.bucket && c in l.bucket[o]
  }

  /** `c` is linked into the bucket of the owner of its key. */
  ghost predicate IsMember(l: Links, c: CtxId)
  {
    c in l.expire && l.expire[c] in l.owner && InBucket(l, l.owner[l.expire[c]], c)
  }

  /** The list of `c` is linked from its head and tail pointers. */
  ghost predicate BucketLinked(l: Links, c: CtxId)
  {
    c in l.bucket && c in l.head && c in l.tail && ListOk(l.bucket[c], l.head[c], l.tail[c], l.prev, l.next)
  }

  /** `c` is linked into no bucket. */
  ghost predicate Stray(l: Links, c: CtxId)
  {
    c in l.prev && c in l.next && forall o :: o in l.expire && o in l.bucket ==> c !in l.bucket[o]
  }

  /** Every context has all of its sleep-queue fields. */
  ghost predicate FieldsOk(l: Links)
  {
    forall c :: c in l.expire ==> c in l.head && c in l.tail && c in l.prev && c in l.next && c in l.bucket
  }

  /** The trie holds each owner at its own expire_ticks. */
  ghost predicate OwnersOk(l: Links)
  {
    forall k :: k in l.owner ==> l.owner[k] in l.expire && l.expire[l.owner[k]] == k
  }

  /**
   * Every head pointer leads to a well-linked list.  The lists are
   * unfolded (BucketLinked) only where a proof names them.
   */
  ghost predicate ListsOk(l: Links)
  {
    forall c {:trigger BucketLinked(l, c)} :: c in l.expire ==> BucketLinked(l, c)
  }

  /** Only an owner has a non-empty bucket. */
  ghost predicate OnlyOwnersHold(l: Links)
  {
    forall c :: c in l.expire && c in l.bucket && l.bucket[c] != [] ==> IsOwner(l, c)
  }

  /** The members of a bucket are other contexts with the key of the bucket's holder. */
  ghost predicate MembersOk(l: Links)
  {
    forall c, i :: c in l.expire && c in l.bucket && 0 <= i < |l.bucket[c]| ==>
      l.bucket[c][i] in l.expire && l.expire[l.bucket[c][i]] == l.expire[c] && l.bucket[c][i] != c
  }

  /** A context in no bucket has no links. */
  ghost predicate StraysOk(l: Links)
  {
    forall c {:trigger Stray(l, c)} :: Stray(l, c) ==> l.prev[c] == None && l.next[c] == None
  }

  /**
   * The representation invariant.  The trie node of a key holds its owner;
   * the owner's head and tail pointers lead through prev/next to the other
   * contexts of that key, in the order of the ghost list `bucket`.
   */
  ghost predicate LinkedOk(l: Links)
  {
    FieldsOk(l) && OwnersOk(l) && ListsOk(l) && OnlyOwnersHold(l) && MembersOk(l) && StraysOk(l)
  }

  /** Whoever has `x` in its bucket owns the node of x's key, and `x` is a member that owns none. */
  lemma OwnerOfBucket(l: Links, o: CtxId, x: CtxId)
    requires OnlyOwnersHold(l) && MembersOk(l) && o in l.expire && InBucket(l, o, x)
    ensures IsOwner(l, o) && x in l.expire && l.expire[x] == l.expire[o] && x != o
    ensures IsMember(l, x) && !IsOwner(l, x)
  {
    var i :| 0 <= i < |l.bucket[o]| && l.bucket[o][i] == x;
  }

  /** Two different contexts never share a bucket member. */
  lemma BucketsDisjoint(l: Links, o1: CtxId, o2: CtxId, x: CtxId)
    requires OnlyOwnersHold(l) && MembersOk(l) && o1 in l.expire && o2 in l.expire && o1 != o2
    requires InBucket(l, o1, x) && o2 in l.bucket
    ensures x !in l.bucket[o2]
  {
    OwnerOfBucket(l, o1, x);
    if x in l.bucket[o2] {
      OwnerOfBucket(l, o2, x);
    }
  }

  /** A context that is not a member is in no bucket at all. */
  lemma NotMemberNowhere(l: Links, c: CtxId, o: CtxId)
    requires OnlyOwnersHold(l) && MembersOk(l) && !IsMember(l, c) && o in l.expire && o in l.bucket
    ensures c !in l.bucket[o]
  {
    if c in l.bucket[o] {
      OwnerOfBucket(l, o, c);
    }
  }

  /** A context that is not a member has no links. */
  lemma StrayOf(l: Links, c: CtxId)
    requires FieldsOk(l) && OnlyOwnersHold(l) && MembersOk(l) && StraysOk(l)
    requires c in l.expire && !IsMember(l, c)
    ensures l.prev[c] == None && l.next[c] == None
  {
    forall o | o in l.expire && o in l.bucket
      ensures c !in l.bucket[o]
    {
      NotMemberNowhere(l, c, o);
    }
    assert Stray(l, c);
  }

  /** The queue a structure stands for: each trie key with its owner, then the bucket in link order. */
  ghost function Abs(l: Links): Queue
  {
    map k | k in l.owner && l.owner[k] in l.bucket :: [l.owner[k]] + l.bucket[l.owner[k]]
  }

  /** Each trie key is a key of the queue, holding its owner followed by the bucket. */
  lemma AbsAt(l: Links, k: nat)
    requires FieldsOk(l) && OwnersOk(l) && k in l.owner
    ensures k in Abs(l) && Abs(l)[k] == [l.owner[k]] + l.bucket[l.owner[k]]
  {
  }

  /** The keys of the queue are the keys of the trie. */
  lemma AbsKeys(l: Links)
    requires FieldsOk(l) && OwnersOk(l)
    ensures forall k :: k in Abs(l) <==> k in l.owner
  {
  }

  /** An element of `[o] + b` is `o` or an element of `b`. */
  lemma ConsMember(c: CtxId, o: CtxId, b: seq<CtxId>)
    requires c in [o] + b
    ensures c == o || c in b
  {
  }

  /** Whatever the queue holds at a key is that key's owner or a member, and has that key as its expire_ticks. */
  lemma QueuedKey(l: Links, k: nat, c: CtxId)
    requires FieldsOk(l) && OwnersOk(l) && OnlyOwnersHold(l) && MembersOk(l)
    requires k in Abs(l) && c in Abs(l)[k]
    ensures c in l.expire && l.expire[c] == k && (c == l.owner[k] || InBucket(l, l.owner[k], c))
  {
    var o := l.owner[k];
    assert Abs(l)[k] == [o] + l.bucket[o];
    ConsMember(c, o, l.bucket[o]);
    if c != o {
      OwnerOfBucket(l, o, c);
    }
  }

  /** Queued in the abstract sense is owning a node or being linked into the bucket of its key's owner. */
  lemma QueuedIff(l: Links, c: CtxId)
    requires LinkedOk(l) && c in l.expire
    ensures Queued(Abs(l), c) <==> IsOwner(l, c) || IsMember(l, c)
  {
    if Queued(Abs(l), c) {
      var k :| k in Abs(l) && c in Abs(l)[k];
      QueuedKey(l, k, c);
    }
    if IsOwner(l, c) || IsMember(l, c) {
      var k := l.expire[c];
      AbsAt(l, k);
      assert c in Abs(l)[k];
    }
  }

  /** Putting a new element in front keeps a sequence free of repeats. */
  lemma DistinctCons(o: CtxId, b: seq<CtxId>)
    requires DistinctSeq(b) && o !in b
    ensures DistinctSeq([o] + b)
  {
    var s := [o] + b;
    forall a, c | 0 <= a < c < |s|
      ensures s[a] != s[c]
    {
      assert s[c] == b[c - 1];
      if a > 0 {
        assert s[a] == b[a - 1];
      }
    }
  }

  /** The queue has no context twice: the invariant behind every removal. */
  lemma AbsNoDup(l: Links)
    requires LinkedOk(l)
    ensures WellFormed(Abs(l)) && NoDup(Abs(l))
  {
    var q := Abs(l);
    forall k | k in q
      ensures DistinctSeq(q[k])
    {
      var o := l.owner[k];
      var b := l.bucket[o];
      assert q[k] == [o] + b;
      assert BucketLinked(l, o);
      if o in b {
        OwnerOfBucket(l, o, o);
      }
      DistinctCons(o, b);
    }
    forall k1, k2, c | k1 in q && k2 in q && k1 != k2 && c in q[k1]
      ensures c !in q[k2]
    {
      QueuedKey(l, k1, c);
      if c in q[k2] {
        QueuedKey(l, k2, c);
      }
    }
  }

  /** Abs reads only the trie and the lists: changing one list changes at most one key. */
  lemma AbsRebucket(l: Links, l2: Links, o: CtxId)
    requires OwnersOk(l) && o in l.bucket
    requires l2.owner == l.owner && l2.expire == l.expire && o in l2.bucket && l2.bucket == l.bucket[o := l2.bucket[o]]
    ensures Abs(l2) == if IsOwner(l, o) then Abs(l)[l.expire[o] := [o] + l2.bucket[o]] else Abs(l)
  {
    var q, q2 := Abs(l), Abs(l2);
    var rhs := if IsOwner(l, o) then q[l.expire[o] := [o] + l2.bucket[o]] else q;
    assert q2.Keys == rhs.Keys;
    forall k | k in q2
      ensures q2[k] == rhs[k]
    {
      if l.owner[k] == o {
        assert IsOwner(l, o) && l.expire[o] == k;
      }
    }
  }

  /** Abs changes at most at key `k` when the trie and the lists agree at every other key. */
  lemma AbsAgree(l: Links, l2: Links, k: nat)
    requires forall j :: j in l2.owner <==> j in l.owner
    requires forall j :: j in l.owner && j != k ==>
      l2.owner[j] == l.owner[j] && l.owner[j] in l.bucket && l.owner[j] in l2.bucket
      && l2.bucket[l.owner[j]] == l.bucket[l.owner[j]]
    requires k in l2.owner && l2.owner[k] in l2.bucket
    ensures Abs(l2) == Abs(l)[k := [l2.owner[k]] + l2.bucket[l2.owner[k]]]
  {
    var r := Abs(l)[k := [l2.owner[k]] + l2.bucket[l2.owner[k]]];
    assert forall j :: j in Abs(l2) <==> j in r;
  }

  /** Abs reads neither the expiry times nor the links. */
  lemma AbsSameLists(l: Links, l2: Links)
    requires l2.owner == l.owner && l2.bucket == l.bucket
    ensures Abs(l2) == Abs(l)
  {
  }

  /** Abs without the node at `k` is the queue without key `k`. */
  lemma AbsWithout(l: Links, k: nat)
    ensures Abs(l.(owner := l.owner - {k})) == Abs(l) - {k}
  {
  }

  // ---------------------------------------------------------------------
  // Changes that leave the lists alone

  /** The lists and the links do not depend on the trie. */
  lemma OwnerFrame(l: Links, l2: Links)
    requires l2 == l.(owner := l2.owner)
    requires FieldsOk(l) && ListsOk(l) && MembersOk(l) && StraysOk(l)
    ensures FieldsOk(l2) && ListsOk(l2) && MembersOk(l2) && StraysOk(l2)
  {
    forall x | x in l2.expire
      ensures BucketLinked(l2, x)
    {
      assert BucketLinked(l, x);
    }
    forall x | Stray(l2, x)
      ensures l2.prev[x] == None && l2.next[x] == None
    {
      assert Stray(l, x);
    }
  }

  /** With no node at its key, a context in no bucket becomes the owner of a new node. */
  lemma OwnOk(l: Links, c: CtxId)
    requires LinkedOk(l) && c in l.expire && l.expire[c] !in l.owner
    ensures LinkedOk(l.(owner := l.owner[l.expire[c] := c]))
    ensures Abs(l.(owner := l.owner[l.expire[c] := c])) == AppendQ(Abs(l), l.expire[c], c)
  {
    var k := l.expire[c];
    var l2 := l.(owner := l.owner[k := c]);
    OwnerFrame(l, l2);
    forall x | x in l2.expire && x in l2.bucket && l2.bucket[x] != []
      ensures IsOwner(l2, x)
    {
      assert IsOwner(l, x);
    }
    assert l.bucket[c] == [];
    OwnAbs(l, c);
  }

  /** The queue gains the key with the new owner alone. */
  lemma OwnAbs(l: Links, c: CtxId)
    requires FieldsOk(l) && OwnersOk(l) && c in l.expire && l.expire[c] !in l.owner && l.bucket[c] == []
    ensures Abs(l.(owner := l.owner[l.expire[c] := c])) == AppendQ(Abs(l), l.expire[c], c)
  {
    var k := l.expire[c];
    AbsKeys(l);
    assert k !in Abs(l);
    var l2 := l.(owner := l.owner[k := c]);
    var q, q2 := Abs(l), Abs(l2);
    assert [c] + l.bucket[c] == [c];
    forall j | j in q2
      ensures j in q[k := [c]] && q2[j] == q[k := [c]][j]
    {
      if j != k {
        assert l2.owner[j] == l.owner[j];
      }
    }
    assert q2 == q[k := [c]];
  }

  /** The trie node at `k` goes with an owner whose bucket is empty: a lone owner leaves the queue. */
  lemma DropLoneOk(l: Links, k: nat)
    requires LinkedOk(l) && k in l.owner && l.bucket[l.owner[k]] == []
    ensures LinkedOk(l.(owner := l.owner - {k}))
    ensures Abs(l.(owner := l.owner - {k})) == Abs(l) - {k}
  {
    var l2 := l.(owner := l.owner - {k});
    OwnerFrame(l, l2);
    forall x | x in l2.expire && x in l2.bucket && l2.bucket[x] != []
      ensures IsOwner(l2, x)
    {
      assert IsOwner(l, x);
    }
    AbsWithout(l, k);
  }

  /** `ctx->expire_ticks = key` for a context out of the queue changes nothing else. */
  lemma ExpireOk(l: Links, c: CtxId, key: nat)
    requires LinkedOk(l) && c in l.expire && !IsOwner(l, c) && !IsMember(l, c)
    ensures LinkedOk(l.(expire := l.expire[c := key]))
    ensures Abs(l.(expire := l.expire[c := key])) == Abs(l)
  {
    var l2 := l.(expire := l.expire[c := key]);
    assert l.bucket[c] == [];
    ExpireLists(l, c, key);
    ExpireMembers(l, c, key);
    ExpireStrays(l, c, key);
    forall x | x in l2.expire && x in l2.bucket && l2.bucket[x] != []
      ensures IsOwner(l2, x)
    {
      assert IsOwner(l, x);
    }
    AbsSameLists(l, l2);
  }

  lemma ExpireLists(l: Links, c: CtxId, key: nat)
    requires ListsOk(l) && c in l.expire
    ensures ListsOk(l.(expire := l.expire[c := key]))
  {
    var l2 := l.(expire := l.expire[c := key]);
    forall x | x in l2.expire
      ensures BucketLinked(l2, x)
    {
      assert BucketLinked(l, x);
    }
  }

  lemma ExpireMembers(l: Links, c: CtxId, key: nat)
    requires OnlyOwnersHold(l) && MembersOk(l) && c in l.expire && c in l.bucket && l.bucket[c] == [] && !IsMember(l, c)
    ensures MembersOk(l.(expire := l.expire[c := key]))
  {
    var l2 := l.(expire := l.expire[c := key]);
    forall x, i | x in l2.expire && x in l2.bucket && 0 <= i < |l2.bucket[x]|
      ensures l2.bucket[x][i] in l2.expire && l2.expire[l2.bucket[x][i]] == l2.expire[x] && l2.bucket[x][i] != x
    {
      NotMemberNowhere(l, c, x);
    }
  }

  lemma ExpireStrays(l: Links, c: CtxId, key: nat)
    requires StraysOk(l) && c in l.expire
    ensures StraysOk(l.(expire := l.expire[c := key]))
  {
    var l2 := l.(expire := l.expire[c := key]);
    forall x | Stray(l2, x)
      ensures l2.prev[x] == None && l2.next[x] == None
    {
      assert Stray(l, x);
    }
  }

  /** The sleep fields of a new context in mrkthr_ctx_new. */
  ghost function Tracked(l: Links, c: CtxId): Links
  {
    l.(expire := l.expire[c := 0], head := l.head[c := None], tail := l.tail[c := None],
       prev := l.prev[c := None], next := l.next[c := None], bucket := l.bucket[c := []])
  }

  /** A new context, with expire_ticks 0 and every pointer NULL, is out of the queue. */
  lemma TrackOk(l: Links, c: CtxId)
    requires LinkedOk(l) && c !in l.expire
    ensures LinkedOk(Tracked(l, c)) && Abs(Tracked(l, c)) == Abs(l)
  {
    var l2 := Tracked(l, c);
    TrackLists(l, c);
    TrackMembers(l, c);
    TrackStrays(l, c);
    forall x | x in l2.expire && x in l2.bucket && l2.bucket[x] != []
      ensures IsOwner(l2, x)
    {
      assert IsOwner(l, x);
    }
    TrackAbs(l, c);
  }

  lemma TrackLists(l: Links, c: CtxId)
    requires ListsOk(l) && MembersOk(l) && c !in l.expire
    ensures ListsOk(Tracked(l, c))
  {
    var l2 := Tracked(l, c);
    forall x | x in l2.expire
      ensures BucketLinked(l2, x)
    {
      if x != c {
        assert BucketLinked(l, x);
        assert c !in l.bucket[x];
        ListSkipsClear(l.bucket[x], l.head[x], l.tail[x], l.prev, l.next, c);
      }
    }
  }

  lemma TrackMembers(l: Links, c: CtxId)
    requires MembersOk(l) && c !in l.expire
    ensures MembersOk(Tracked(l, c))
  {
  }

  lemma TrackStrays(l: Links, c: CtxId)
    requires StraysOk(l) && c !in l.expire
    ensures StraysOk(Tracked(l, c))
  {
    var l2 := Tracked(l, c);
    forall x | Stray(l2, x)
      ensures l2.prev[x] == None && l2.next[x] == None
    {
      if x != c {
        forall o | o in l.expire && o in l.bucket
          ensures x !in l.bucket[o]
        {
          assert o in l2.expire && l2.bucket[o] == l.bucket[o];
        }
        assert Stray(l, x);
      }
    }
  }

  lemma TrackAbs(l: Links, c: CtxId)
    requires OwnersOk(l) && c !in l.expire
    ensures Abs(Tracked(l, c)) == Abs(l)
  {
    var l2 := Tracked(l, c);
    forall k | k in l.owner
      ensures l.owner[k] != c
    {
    }
    assert Abs(l2) == Abs(l);
  }

  // ---------------------------------------------------------------------
  // sleepq_bucket_remove

  /** sleepq_bucket_remove(&o->sleepq_bucket, c), with the ghost list updated beside it. */
  ghost function Unlinked(l: Links, o: CtxId, c: CtxId): Links
    requires c in l.prev && c in l.next && o in l.head && o in l.tail && o in l.bucket
  {
    var p, n := l.prev[c], l.next[c];
    l.(head := if p.Some? then l.head else l.head[o := n],
       tail := if n.Some? then l.tail else l.tail[o := p],
       prev := (if n.Some? then l.prev[n.value := p] else l.prev)[c := None],
       next := (if p.Some? then l.next[p.value := n] else l.next)[c := None],
       bucket := l.bucket[o := RemoveFirst(l.bucket[o], c)])
  }

  /** What the unlink lemmas assume: `c`, a context, is in the bucket of the context `o`. */
  ghost predicate InBucketOf(l: Links, o: CtxId, c: CtxId)
  {
    FieldsOk(l) && o in l.expire && c in l.expire && InBucket(l, o, c)
  }

  /** Unlinking a member keeps the invariant, and the member leaves its owner's list only. */
  lemma UnlinkOk(l: Links, o: CtxId, c: CtxId)
    requires LinkedOk(l) && InBucketOf(l, o, c)
    ensures LinkedOk(Unlinked(l, o, c))
    ensures Abs(Unlinked(l, o, c)) == Abs(l)[l.expire[o] := [o] + RemoveFirst(l.bucket[o], c)]
  {
    OwnerOfBucket(l, o, c);
    UnlinkLists(l, o, c);
    UnlinkHolders(l, o, c);
    UnlinkMembers(l, o, c);
    UnlinkStrays(l, o, c);
    AbsRebucket(l, Unlinked(l, o, c), o);
  }

  lemma UnlinkLists(l: Links, o: CtxId, c: CtxId)
    requires ListsOk(l) && OnlyOwnersHold(l) && MembersOk(l) && InBucketOf(l, o, c)
    ensures ListsOk(Unlinked(l, o, c))
  {
    var l2 := Unlinked(l, o, c);
    forall x | x in l2.expire
      ensures BucketLinked(l2, x)
    {
      if x == o {
        UnlinkOwn(l, o, c);
      } else {
        UnlinkFrame(l, o, c, x);
      }
    }
  }

  /** The list `c` leaves stays linked without it. */
  lemma UnlinkOwn(l: Links, o: CtxId, c: CtxId)
    requires ListsOk(l) && InBucketOf(l, o, c)
    ensures BucketLinked(Unlinked(l, o, c), o)
  {
    var s := l.bucket[o];
    var i :| 0 <= i < |s| && s[i] == c;
    assert BucketLinked(l, o);
    ListUnlink(s, i, l.head[o], l.tail[o], l.prev, l.next);
    RemoveFirstAt(s, i);
  }

  /** Every other list keeps its links: `c` and its neighbours belong to o's list only. */
  lemma UnlinkFrame(l: Links, o: CtxId, c: CtxId, x: CtxId)
    requires ListsOk(l) && OnlyOwnersHold(l) && MembersOk(l) && InBucketOf(l, o, c)
    requires x in l.expire && x != o
    ensures BucketLinked(Unlinked(l, o, c), x)
  {
    var s := l.bucket[o];
    var i :| 0 <= i < |s| && s[i] == c;
    var p, n := l.prev[c], l.next[c];
    assert BucketLinked(l, o) && BucketLinked(l, x);
    Neighbours(s, i, l.head[o], l.tail[o], l.prev, l.next);
    BucketsDisjoint(l, o, x, c);
    if p.Some? {
      BucketsDisjoint(l, o, x, p.value);
    }
    if n.Some? {
      BucketsDisjoint(l, o, x, n.value);
    }
    ListSkipsUnlink(l.bucket[x], l.head[x], l.tail[x], l.prev, l.next, c, p, n);
  }

  lemma UnlinkHolders(l: Links, o: CtxId, c: CtxId)
    requires OnlyOwnersHold(l) && MembersOk(l) && InBucketOf(l, o, c)
    ensures OnlyOwnersHold(Unlinked(l, o, c))
  {
    var l2 := Unlinked(l, o, c);
    OwnerOfBucket(l, o, c);
    forall x | x in l2.expire && x in l2.bucket && l2.bucket[x] != []
      ensures IsOwner(l2, x)
    {
      if x != o {
        assert IsOwner(l, x);
      }
    }
  }

  lemma UnlinkMembers(l: Links, o: CtxId, c: CtxId)
    requires MembersOk(l) && InBucketOf(l, o, c)
    ensures MembersOk(Unlinked(l, o, c))
  {
    var l2 := Unlinked(l, o, c);
    forall x, i | x in l2.expire && x in l2.bucket && 0 <= i < |l2.bucket[x]|
      ensures l2.bucket[x][i] in l2.expire && l2.expire[l2.bucket[x][i]] == l2.expire[x] && l2.bucket[x][i] != x
    {
      if x == o {
        var e := l2.bucket[o][i];
        assert e in l.bucket[o];
        var j :| 0 <= j < |l.bucket[o]| && l.bucket[o][j] == e;
      }
    }
  }

  lemma UnlinkStrays(l: Links, o: CtxId, c: CtxId)
    requires ListsOk(l) && StraysOk(l) && InBucketOf(l, o, c)
    ensures StraysOk(Unlinked(l, o, c))
  {
    var l2 := Unlinked(l, o, c);
    forall x | Stray(l2, x)
      ensures l2.prev[x] == None && l2.next[x] == None
    {
      UnlinkStray(l, o, c, x);
    }
  }

  /** A context in no list after the unlink had no links before it, or is `c` itself. */
  lemma UnlinkStray(l: Links, o: CtxId, c: CtxId, x: CtxId)
    requires ListsOk(l) && StraysOk(l) && InBucketOf(l, o, c) && Stray(Unlinked(l, o, c), x)
    ensures Unlinked(l, o, c).prev[x] == None && Unlinked(l, o, c).next[x] == None
  {
    var s := l.bucket[o];
    var l2 := Unlinked(l, o, c);
    if x != c {
      var i :| 0 <= i < |s| && s[i] == c;
      assert BucketLinked(l, o);
      Neighbours(s, i, l.head[o], l.tail[o], l.prev, l.next);
      assert x !in l2.bucket[o];
      assert x !in s;
      forall o2 | o2 in l.expire && o2 in l.bucket
        ensures x !in l.bucket[o2]
      {
        if o2 != o {
          assert l2.bucket[o2] == l.bucket[o2];
        }
      }
      assert Stray(l, x);
    }
  }

  /**
   * The flaw behind sleepq_remove in the source: unlinking a context that is
   * in no bucket from the bucket of a key's owner reads the context's NULL
   * links as "first and last", so the owner's head and tail become NULL
   * although its members are still there.
   */
  lemma UnlinkStrangerDropsBucket(l: Links, o: CtxId, c: CtxId)
    requires LinkedOk(l) && IsOwner(l, o) && l.bucket[o] != []
    requires c in l.expire && !IsMember(l, c)
    ensures l.head[o] != None && l.tail[o] != None
    ensures Unlinked(l, o, c).head[o] == None && Unlinked(l, o, c).tail[o] == None
  {
    StrayOf(l, c);
    assert BucketLinked(l, o);
  }

  /**
   * sleepq_handle_remove as written, read on the queue: nothing checks that
   * `c` is in the bucket of its key's owner.  A context that carries the
   * owner's key but is neither owner nor member is unlinked from the bucket
   * all the same, which leaves the owner alone in the node with its members
   * out of reach (UnlinkStrangerDropsBucket); at a lone owner's key the
   * node goes away whoever `c` is (the source's assert(sle == ctx) aside).
   */
  function RemoveAsWritten(q: Queue, key: nat, c: CtxId): (r: Queue)
    requires WellFormed(q)
    ensures WellFormed(r)
    ensures key in q && c in q[key] ==> r == RemoveAtQ(q, key, c)
  {
    if key !in q then q
    else if |q[key]| == 1 then q - {key}
    else if q[key][0] == c then q[key := q[key][1..]]
    else if c in q[key][1..] then q[key := [q[key][0]] + RemoveFirst(q[key][1..], c)]
    else q[key := [q[key][0]]]
  }

  /**
   * Context 3 once slept at key 5, where 1 now owns the node with 2 in its
   * bucket; removing 3 as written loses 2, which the drain then never
   * resumes, while the intended removal changes nothing.
   */
  lemma RemoveAsWrittenLosesMember()
    ensures RemoveAsWritten(map[5 := [1, 2]], 5, 3) == map[5 := [1]]
    ensures RemoveAtQ(map[5 := [1, 2]], 5, 3) == map[5 := [1, 2]]
    ensures DrainOrder(RemoveAsWritten(map[5 := [1, 2]], 5, 3), 6, true) == [1]
    ensures DrainOrder(RemoveAtQ(map[5 := [1, 2]], 5, 3), 6, true) == [2, 1]
  {
    var q := map[5 := [1, 2]];
    assert q[5][1..] == [2];
    assert RemoveAsWritten(q, 5, 3) == map[5 := [1]];
    DrainLone(5, [1], 6);
    DrainLone(5, [1, 2], 6);
  }

  /** A queue with one expired key drains that key's bucket members, then its owner. */
  lemma DrainLone(k: nat, s: seq<CtxId>, now: nat)
    requires |s| > 0 && k < now
    ensures DrainOrder(map[k := s], now, true) == s[1..] + [s[0]]
  {
    var q := map[k := s];
    DrainStep(q, now, true, k);
    assert q - {k} == map[];
    DrainNone(map[], now, true);
  }

  // ---------------------------------------------------------------------
  // sleepq_append

  /** The bucket append of sleepq_enqueue onto the owner `tmp`. */
  ghost function Appended(l: Links, tmp: CtxId, c: CtxId): Links
    requires tmp in l.tail && tmp in l.bucket
  {
    var t := l.tail[tmp];
    l.(head := if t.None? then l.head[tmp := Some(c)] else l.head,
       tail := l.tail[tmp := Some(c)],
       prev := l.prev[c := t],
       next := (if t.Some? then l.next[t.value := Some(c)] else l.next)[c := None],
       bucket := l.bucket[tmp := l.bucket[tmp] + [c]])
  }

  /** What the append lemmas assume: `c` is out of the queue and its key has a node. */
  ghost predicate Appendable(l: Links, c: CtxId)
  {
    FieldsOk(l) && OwnersOk(l) && c in l.expire && l.expire[c] in l.owner && !IsOwner(l, c) && !IsMember(l, c)
  }

  /** Appending an unqueued context to the bucket of its key's owner is sleepq_append. */
  lemma AppendOk(l: Links, c: CtxId)
    requires LinkedOk(l) && Appendable(l, c)
    ensures LinkedOk(Appended(l, l.owner[l.expire[c]], c))
    ensures Abs(Appended(l, l.owner[l.expire[c]], c)) == AppendQ(Abs(l), l.expire[c], c)
  {
    var k := l.expire[c];
    var tmp := l.owner[k];
    var s := l.bucket[tmp];
    AppendLists(l, c);
    AppendHolders(l, c);
    AppendMembers(l, c);
    AppendStrays(l, c);
    AbsRebucket(l, Appended(l, tmp, c), tmp);
    AbsAt(l, k);
    assert [tmp] + (s + [c]) == ([tmp] + s) + [c];
  }

  lemma AppendLists(l: Links, c: CtxId)
    requires ListsOk(l) && OnlyOwnersHold(l) && MembersOk(l) && Appendable(l, c)
    ensures ListsOk(Appended(l, l.owner[l.expire[c]], c))
  {
    var tmp := l.owner[l.expire[c]];
    var l2 := Appended(l, tmp, c);
    NotMemberNowhere(l, c, tmp);
    forall x | x in l2.expire
      ensures BucketLinked(l2, x)
    {
      if x == tmp {
        assert BucketLinked(l, tmp);
        ListAppend(l.bucket[tmp], l.head[tmp], l.tail[tmp], l.prev, l.next, c);
      } else {
        AppendFrame(l, c, x);
      }
    }
  }

  /** The other lists keep their links: neither `c` nor the old tail is in them. */
  lemma AppendFrame(l: Links, c: CtxId, x: CtxId)
    requires ListsOk(l) && OnlyOwnersHold(l) && MembersOk(l) && Appendable(l, c)
    requires x in l.expire && x != l.owner[l.expire[c]]
    ensures BucketLinked(Appended(l, l.owner[l.expire[c]], c), x)
  {
    var tmp := l.owner[l.expire[c]];
    var s := l.bucket[tmp];
    var t := l.tail[tmp];
    assert BucketLinked(l, tmp) && BucketLinked(l, x);
    NotMemberNowhere(l, c, x);
    if t.Some? {
      assert s[|s| - 1] == t.value;
      BucketsDisjoint(l, tmp, x, t.value);
    }
    ListSkipsAppend(l.bucket[x], l.head[x], l.tail[x], l.prev, l.next, c, t);
  }

  lemma AppendHolders(l: Links, c: CtxId)
    requires OnlyOwnersHold(l) && Appendable(l, c)
    ensures OnlyOwnersHold(Appended(l, l.owner[l.expire[c]], c))
  {
    var tmp := l.owner[l.expire[c]];
    var l2 := Appended(l, tmp, c);
    forall x | x in l2.expire && x in l2.bucket && l2.bucket[x] != []
      ensures IsOwner(l2, x)
    {
      if x != tmp {
        assert IsOwner(l, x);
      }
    }
  }

  lemma AppendMembers(l: Links, c: CtxId)
    requires MembersOk(l) && Appendable(l, c)
    ensures MembersOk(Appended(l, l.owner[l.expire[c]], c))
  {
    var tmp := l.owner[l.expire[c]];
    var s := l.bucket[tmp];
    var l2 := Appended(l, tmp, c);
    forall x, i | x in l2.expire && x in l2.bucket && 0 <= i < |l2.bucket[x]|
      ensures l2.bucket[x][i] in l2.expire && l2.expire[l2.bucket[x][i]] == l2.expire[x] && l2.bucket[x][i] != x
    {
      if x == tmp && i < |s| {
        assert l2.bucket[x][i] == s[i];
      }
    }
  }

  lemma AppendStrays(l: Links, c: CtxId)
    requires ListsOk(l) && StraysOk(l) && Appendable(l, c)
    ensures StraysOk(Appended(l, l.owner[l.expire[c]], c))
  {
    var l2 := Appended(l, l.owner[l.expire[c]], c);
    forall x | Stray(l2, x)
      ensures l2.prev[x] == None && l2.next[x] == None
    {
      AppendStray(l, c, x);
    }
  }

  /** After the append, a context in no list is neither `c` nor the old tail, so its links are untouched. */
  lemma AppendStray(l: Links, c: CtxId, x: CtxId)
    requires ListsOk(l) && StraysOk(l) && Appendable(l, c)
    requires Stray(Appended(l, l.owner[l.expire[c]], c), x)
    ensures Appended(l, l.owner[l.expire[c]], c).prev[x] == None
    ensures Appended(l, l.owner[l.expire[c]], c).next[x] == None
  {
    var tmp := l.owner[l.expire[c]];
    var s := l.bucket[tmp];
    var l2 := Appended(l, tmp, c);
    assert BucketLinked(l, tmp);
    assert x !in l2.bucket[tmp];
    assert x != c && x !in s;
    forall o | o in l.expire && o in l.bucket
      ensures x !in l.bucket[o]
    {
      if o != tmp {
        assert l2.bucket[o] == l.bucket[o];
      }
    }
    assert Stray(l, x);
  }

  // ---------------------------------------------------------------------
  // The hand-over of sleepq_handle_remove

  /** The ownership transfer of sleepq_handle_remove: `nbo` takes over the trie node and `sle`'s bucket. */
  ghost function Promoted(l: Links, sle: CtxId, nbo: CtxId): Links
    requires sle in l.expire && sle in l.head && sle in l.tail && sle in l.bucket
  {
    l.(head := l.head[nbo := l.head[sle]][sle := None],
       tail := l.tail[nbo := l.tail[sle]][sle := None],
       owner := l.owner[l.expire[sle] := nbo],
       bucket := l.bucket[nbo := l.bucket[sle]][sle := []])
  }

  /** What the hand-over lemmas assume: `nbo` is out of the queue, with the key of the owner `sle`. */
  ghost predicate Promotable(l: Links, sle: CtxId, nbo: CtxId)
  {
    FieldsOk(l) && OwnersOk(l) && IsOwner(l, sle) && nbo in l.expire && nbo != sle
    && l.expire[nbo] == l.expire[sle] && l.bucket[nbo] == [] && nbo !in l.bucket[sle]
  }

  /** Handing the node and the rest of the bucket to an unlinked context with the same key keeps the invariant. */
  lemma PromoteOk(l: Links, sle: CtxId, nbo: CtxId)
    requires LinkedOk(l) && IsOwner(l, sle) && nbo in l.expire && nbo != sle
    requires l.expire[nbo] == l.expire[sle] && !IsMember(l, nbo)
    ensures LinkedOk(Promoted(l, sle, nbo))
    ensures Abs(Promoted(l, sle, nbo)) == Abs(l)[l.expire[sle] := [nbo] + l.bucket[sle]]
  {
    assert l.bucket[nbo] == [];
    NotMemberNowhere(l, nbo, sle);
    PromoteLists(l, sle, nbo);
    PromoteHolders(l, sle, nbo);
    PromoteMembers(l, sle, nbo);
    PromoteStrays(l, sle, nbo);
    PromoteAbs(l, sle, nbo);
  }

  lemma PromoteLists(l: Links, sle: CtxId, nbo: CtxId)
    requires ListsOk(l) && Promotable(l, sle, nbo)
    ensures ListsOk(Promoted(l, sle, nbo))
  {
    var l2 := Promoted(l, sle, nbo);
    forall x | x in l2.expire
      ensures BucketLinked(l2, x)
    {
      if x == nbo {
        assert BucketLinked(l, sle);
      } else if x != sle {
        assert BucketLinked(l, x);
      }
    }
  }

  lemma PromoteHolders(l: Links, sle: CtxId, nbo: CtxId)
    requires OnlyOwnersHold(l) && Promotable(l, sle, nbo)
    ensures OnlyOwnersHold(Promoted(l, sle, nbo))
  {
    var l2 := Promoted(l, sle, nbo);
    forall x | x in l2.expire && x in l2.bucket && l2.bucket[x] != []
      ensures IsOwner(l2, x)
    {
      if x != nbo {
        assert IsOwner(l, x);
      }
    }
  }

  lemma PromoteMembers(l: Links, sle: CtxId, nbo: CtxId)
    requires MembersOk(l) && Promotable(l, sle, nbo)
    ensures MembersOk(Promoted(l, sle, nbo))
  {
    var l2 := Promoted(l, sle, nbo);
    var s := l.bucket[sle];
    forall x, i | x in l2.expire && x in l2.bucket && 0 <= i < |l2.bucket[x]|
      ensures l2.bucket[x][i] in l2.expire && l2.expire[l2.bucket[x][i]] == l2.expire[x] && l2.bucket[x][i] != x
    {
      if x == nbo {
        assert l2.bucket[x][i] == s[i];
      }
    }
  }

  lemma PromoteStrays(l: Links, sle: CtxId, nbo: CtxId)
    requires StraysOk(l) && Promotable(l, sle, nbo)
    ensures StraysOk(Promoted(l, sle, nbo))
  {
    var l2 := Promoted(l, sle, nbo);
    forall x | Stray(l2, x)
      ensures l2.prev[x] == None && l2.next[x] == None
    {
      assert x !in l2.bucket[nbo];
      forall o | o in l.expire && o in l.bucket
        ensures x !in l.bucket[o]
      {
        if o != sle && o != nbo {
          assert l2.bucket[o] == l.bucket[o];
        }
      }
      assert Stray(l, x);
    }
  }

  lemma PromoteAbs(l: Links, sle: CtxId, nbo: CtxId)
    requires Promotable(l, sle, nbo)
    ensures Abs(Promoted(l, sle, nbo)) == Abs(l)[l.expire[sle] := [nbo] + l.bucket[sle]]
  {
    var k := l.expire[sle];
    var l2 := Promoted(l, sle, nbo);
    forall j | j in l.owner && j != k
      ensures l2.owner[j] == l.owner[j] && l.owner[j] in l.bucket && l.owner[j] in l2.bucket && l2.bucket[l.owner[j]] == l.bucket[l.owner[j]]
    {
      assert l.owner[j] != sle && l.owner[j] != nbo;
    }
    AbsAgree(l, l2, k);
  }

  // ---------------------------------------------------------------------
  // The cases of sleepq_handle_remove, on the queue

  /**
   * A removed owner with a non-empty bucket: the bucket's head is unlinked
   * and takes over the node and the rest of the bucket, so the key keeps
   * its queue without the owner.
   */
  lemma HandOverOk(l: Links, sle: CtxId, nbo: CtxId)
    requires LinkedOk(l) && IsOwner(l, sle) && l.head[sle] == Some(nbo)
    ensures InBucketOf(l, sle, nbo)
    ensures LinkedOk(Promoted(Unlinked(l, sle, nbo), sle, nbo))
    ensures Abs(Promoted(Unlinked(l, sle, nbo), sle, nbo)) == RemoveAtQ(Abs(l), l.expire[sle], sle)
  {
    var s := l.bucket[sle];
    assert BucketLinked(l, sle);
    OwnerOfBucket(l, sle, nbo);
    UnlinkOk(l, sle, nbo);
    var l1 := Unlinked(l, sle, nbo);
    RemoveFirstAt(s, 0);
    PromoteOk(l1, sle, nbo);
    HandOverAbs(l, sle, nbo);
  }

  /** The queue at the owner's key loses the owner and keeps the bucket's order. */
  lemma HandOverAbs(l: Links, sle: CtxId, nbo: CtxId)
    requires LinkedOk(l) && IsOwner(l, sle) && l.head[sle] == Some(nbo) && InBucketOf(l, sle, nbo)
    requires Unlinked(l, sle, nbo).bucket[sle] == l.bucket[sle][1..]
    requires Abs(Promoted(Unlinked(l, sle, nbo), sle, nbo))
      == Abs(Unlinked(l, sle, nbo))[l.expire[sle] := [nbo] + l.bucket[sle][1..]]
    requires Abs(Unlinked(l, sle, nbo)) == Abs(l)[l.expire[sle] := [sle] + l.bucket[sle][1..]]
    ensures Abs(Promoted(Unlinked(l, sle, nbo), sle, nbo)) == RemoveAtQ(Abs(l), l.expire[sle], sle)
  {
    var s := l.bucket[sle];
    assert BucketLinked(l, sle);
    AbsAt(l, l.expire[sle]);
    AbsNoDup(l);
    assert ([sle] + s)[1..] == s;
    assert [nbo] + s[1..] == s;
  }

  /** One step of the drain: the head `t` of o's bucket is unlinked, and the rest of the bucket stays at o's key. */
  lemma HeadUnlinkOk(l: Links, o: CtxId, t: CtxId)
    requires LinkedOk(l) && o in l.expire && l.head[o] == Some(t)
    ensures InBucketOf(l, o, t) && LinkedOk(Unlinked(l, o, t))
    ensures l.bucket[o] != [] && l.bucket[o][0] == t && Unlinked(l, o, t).bucket[o] == l.bucket[o][1..]
    ensures Abs(Unlinked(l, o, t)) == Abs(l)[l.expire[o] := [o] + l.bucket[o][1..]]
  {
    assert BucketLinked(l, o);
    OwnerOfBucket(l, o, t);
    UnlinkOk(l, o, t);
    RemoveFirstAt(l.bucket[o], 0);
  }

  /** Moving the head of `s` to the back of `members` keeps their concatenation. */
  lemma MoveHead(members: seq<CtxId>, s: seq<CtxId>, b0: seq<CtxId>)
    requires members + s == b0 && s != []
    ensures (members + [s[0]]) + s[1..] == b0
  {
    assert s == [s[0]] + s[1..];
  }

  /** The end of the drain of o's bucket: the key leaves the queue with its node. */
  lemma DrainedOk(l: Links, ow: map<nat, CtxId>, o: CtxId, a0: Queue)
    requires LinkedOk(l.(owner := ow)) && o in l.expire && l.expire[o] in ow && ow[l.expire[o]] == o
    requires l.owner == ow - {l.expire[o]} && l.head[o] == None
    requires Abs(l.(owner := ow)) == a0[l.expire[o] := [o] + l.bucket[o]]
    ensures LinkedOk(l) && Abs(l) == a0 - {l.expire[o]}
  {
    var k := l.expire[o];
    assert BucketLinked(l.(owner := ow), o);
    DropLoneOk(l.(owner := ow), k);
    assert l.(owner := ow).(owner := ow - {k}) == l;
  }

  /** Draining the least key, when it has expired, resumes its bucket and then its owner. */
  lemma DrainKeyAt(l: Links, k: nat, now: nat)
    requires LinkedOk(l) && k in l.owner && (forall j :: j in l.owner ==> k <= j) && l.expire[l.owner[k]] < now
    ensures WellFormed(Abs(l)) && k in Abs(l)
    ensures DrainOrder(Abs(l), now, true)
      == (l.bucket[l.owner[k]] + [l.owner[k]]) + DrainOrder(Abs(l) - {k}, now, true)
    ensures Unexpired(Abs(l) - {k}, now) == Unexpired(Abs(l), now)
  {
    var q := Abs(l);
    AbsKeys(l);
    AbsNoDup(l);
    AbsAt(l, k);
    DrainStep(q, now, true, k);
    assert MembersFirst(q[k]) == l.bucket[l.owner[k]] + [l.owner[k]];
  }

  /** With no expired key left, the drain resumes nothing more and the queue is its own unexpired part. */
  lemma DrainDoneOk(l: Links, now: nat)
    requires LinkedOk(l) && forall j :: j in l.owner ==> now <= j
    ensures WellFormed(Abs(l)) && NoneExpired(Abs(l), now)
    ensures Unexpired(Abs(l), now) == Abs(l) && DrainOrder(Abs(l), now, true) == []
  {
    AbsKeys(l);
    AbsNoDup(l);
    DrainNone(Abs(l), now, true);
  }

  /** The resume order so far, extended by one key's worth, still prefixes the whole drain. */
  lemma OrderStep(order: seq<CtxId>, members: seq<CtxId>, ctx: CtxId, d1: seq<CtxId>, d2: seq<CtxId>, total: seq<CtxId>)
    requires order + d1 == total && d1 == (members + [ctx]) + d2
    ensures (order + members + [ctx]) + d2 == total
  {
  }

  /** Taking a key out of the trie makes it smaller. */
  lemma KeysShrink(m: map<nat, CtxId>, k: nat)
    requires k in m
    ensures |(m - {k}).Keys| < |m.Keys|
  {
    assert (m - {k}).Keys == m.Keys - {k};
  }

  /** A second update at the same key overrides the first. */
  lemma UpdateTwice(q: Queue, k: nat, a: seq<CtxId>, b: seq<CtxId>)
    ensures q[k := a][k := b] == q[k := b]
  {
  }

  /** The unlink does not touch the trie. */
  lemma UnlinkedOwner(l: Links, ow: map<nat, CtxId>, o: CtxId, t: CtxId)
    requires t in l.prev && t in l.next && o in l.head && o in l.tail && o in l.bucket
    ensures Unlinked(l, o, t).(owner := ow) == Unlinked(l.(owner := ow), o, t)
  {
  }

  /** A member of the owner's bucket is unlinked, and leaves the key's queue. */
  lemma MemberRemoveOk(l: Links, sle: CtxId, ctx: CtxId)
    requires LinkedOk(l) && IsOwner(l, sle) && ctx in l.expire && ctx in l.bucket[sle]
    ensures InBucketOf(l, sle, ctx)
    ensures LinkedOk(Unlinked(l, sle, ctx))
    ensures Abs(Unlinked(l, sle, ctx)) == RemoveAtQ(Abs(l), l.expire[sle], ctx)
  {
    var s := l.bucket[sle];
    OwnerOfBucket(l, sle, ctx);
    UnlinkOk(l, sle, ctx);
    AbsAt(l, l.expire[sle]);
    AbsNoDup(l);
    assert ([sle] + s)[1..] == s;
  }

  /** A context that is neither the owner nor in its bucket leaves the queue as it is. */
  lemma StrangerRemoveNoop(l: Links, sle: CtxId, ctx: CtxId)
    requires LinkedOk(l) && IsOwner(l, sle) && ctx != sle && ctx !in l.bucket[sle]
    ensures RemoveAtQ(Abs(l), l.expire[sle], ctx) == Abs(l)
  {
    var s := l.bucket[sle];
    AbsAt(l, l.expire[sle]);
    AbsNoDup(l);
    assert ([sle] + s)[1..] == s;
  }

  /** An owner with an empty bucket takes its node out of the trie, and its key out of the queue. */
  lemma LoneRemoveOk(l: Links, sle: CtxId)
    requires LinkedOk(l) && IsOwner(l, sle) && l.head[sle] == None
    ensures LinkedOk(l.(owner := l.owner - {l.expire[sle]}))
    ensures Abs(l.(owner := l.owner - {l.expire[sle]})) == RemoveAtQ(Abs(l), l.expire[sle], sle)
  {
    var k := l.expire[sle];
    assert BucketLinked(l, sle);
    DropLoneOk(l, k);
    AbsAt(l, k);
    AbsNoDup(l);
  }

  /** For the owner of c's key: `c` is in its bucket iff it is the bucket's head or has a predecessor. */
  lemma MemberTest(l: Links, sle: CtxId, c: CtxId)
    requires LinkedOk(l) && c in l.expire && l.expire[c] in l.owner && l.owner[l.expire[c]] == sle
    ensures c in l.bucket[sle] <==> l.head[sle] == Some(c) || l.prev[c].Some?
  {
    var s := l.bucket[sle];
    assert BucketLinked(l, sle);
    if c in s {
      var i :| 0 <= i < |s| && s[i] == c;
      Neighbours(s, i, l.head[sle], l.tail[sle], l.prev, l.next);
    } else {
      assert !IsMember(l, c);
      StrayOf(l, c);
    }
  }


  /** After sleepq_remove a context is nowhere in the queue: its own key is the only one it can be queued at. */
  lemma RemoveUnqueues(l: Links, c: CtxId)
    requires LinkedOk(l) && c in l.expire
    ensures !Queued(RemoveAtQ(Abs(l), l.expire[c], c), c)
  {
    var q := Abs(l);
    AbsNoDup(l);
    if Queued(q, c) {
      var k :| k in q && c in q[k];
      QueuedKey(l, k, c);
    }
    RemoveAtKeepsNoDup(q, l.expire[c], c);
  }

  // ---------------------------------------------------------------------
  // The routines

  /** The trie and the sleep-queue fields of every context. */
  class LinkedSleepQueue {
    var owner: map<nat, CtxId>
    var expire: map<CtxId, nat>
    var head: map<CtxId, Option<CtxId>>
    var tail: map<CtxId, Option<CtxId>>
    var prev: map<CtxId, Option<CtxId>>
    var next: map<CtxId, Option<CtxId>>
    ghost var bucket: map<CtxId, seq<CtxId>>

    ghost function View(): Links
      reads this
    {
      Links(owner, expire, head, tail, prev, next, bucket)
    }

    ghost predicate Valid()
      reads this
    {
      LinkedOk(View())
    }

    /** The queue the structure stands for. */
    ghost function Contents(): Queue
      reads this
    {
      Abs(View())
    }

    /** trie_init: an empty trie and no contexts yet. */
    constructor ()
      ensures Valid() && Contents() == map[] && expire == map[]
    {
      owner, expire, head, tail, prev, next, bucket := map[], map[], map[], map[], map[], map[], map[];
    }

    /** The sleep fields of a context that mrkthr_ctx_init sets up: expire_ticks 0 and no links. */
    method Track(c: CtxId)
      requires Valid() && c !in expire
      modifies this
      ensures View() == Tracked(old(View()), c)
      ensures Valid() && Contents() == old(Contents()) && expire == old(expire)[c := 0]
    {
      ghost var l0 := View();
      expire, head, tail, prev, next := expire[c := 0], head[c := None], tail[c := None], prev[c := None], next[c := None];
      bucket := bucket[c := []];
      TrackOk(l0, c);
    }

    /**
     * sleepq_bucket_remove(&o->sleepq_bucket, c): `c`'s neighbours are
     * linked to each other, or o's head or tail pointer takes the place of
     * a missing one, and `c`'s own links are cleared.  The routine trusts
     * its caller that `c` is in that bucket; UnlinkOk is what holds when it
     * is, UnlinkStrangerDropsBucket what happens when it is not.
     */
    method BucketRemove(o: CtxId, c: CtxId)
      requires c in prev && c in next && o in head && o in tail && o in bucket
      modifies this
      ensures View() == Unlinked(old(View()), o, c)
    {
      var p, n := prev[c], next[c];
      if p.Some? {
        next := next[p.value := n];
      } else {
        head := head[o := n];
      }
      if n.Some? {
        prev := prev[n.value := p];
      } else {
        tail := tail[o := p];
      }
      prev := prev[c := None];
      next := next[c := None];
      bucket := bucket[o := RemoveFirst(bucket[o], c)];
    }

    /**
     * sleepq_enqueue of a context that is not in the queue: the owner of its
     * key gets it at the tail of its bucket, or it becomes the owner of a new
     * node.
     */
    method Enqueue(c: CtxId)
      requires Valid() && c in expire && !Queued(Contents(), c)
      modifies this
      ensures Valid() && expire == old(expire) && Contents() == AppendQ(old(Contents()), expire[c], c)
    {
      ghost var l0 := View();
      QueuedIff(l0, c);
      var k := expire[c];
      if k in owner {
        var tmp := owner[k];
        if tail[tmp] == None {
          head := head[tmp := Some(c)];
          tail := tail[tmp := Some(c)];
          prev := prev[c := None];
          next := next[c := None];
        } else {
          var t := tail[tmp].value;
          next := next[t := Some(c)];
          prev := prev[c := Some(t)];
          next := next[c := None];
          tail := tail[tmp := Some(c)];
        }
        bucket := bucket[tmp := bucket[tmp] + [c]];
        assert View() == Appended(l0, tmp, c);
        AppendOk(l0, c);
      } else {
        owner := owner[k := c];
        OwnOk(l0, c);
      }
    }

    /**
     * sleepq_handle_remove(sle, ctx) with `sle` the owner at ctx's key, as
     * intended: a removed owner hands the node and the rest of its bucket to
     * the bucket's head; a lone owner takes the node with it; a member is
     * unlinked; a context that is neither changes nothing.  (The source
     * unlinks or drops without checking the last case: see the findings.)
     */
    method HandleRemove(sle: CtxId, ctx: CtxId)
      requires Valid() && ctx in expire && expire[ctx] in owner && owner[expire[ctx]] == sle
      modifies this
      ensures Valid() && expire == old(expire)
      ensures Contents() == RemoveAtQ(old(Contents()), expire[ctx], ctx)
    {
      ghost var l0 := View();
      assert IsOwner(l0, sle);
      if head[sle].Some? {
        if sle == ctx {
          var nbo := head[sle].value;
          HandOverOk(l0, sle, nbo);
          HandOver(sle, nbo);
        } else {
          MemberTest(l0, sle, ctx);
          if head[sle] == Some(ctx) || prev[ctx].Some? {
            MemberRemoveOk(l0, sle, ctx);
            BucketRemove(sle, ctx);
          } else {
            StrangerRemoveNoop(l0, sle, ctx);
          }
        }
      } else if sle == ctx {
        LoneRemoveOk(l0, sle);
        owner := owner - {expire[sle]};
      } else {
        assert BucketLinked(l0, sle);
        StrangerRemoveNoop(l0, sle, ctx);
      }
    }

    /**
     * The take-over in sleepq_handle_remove: `nbo`, the head of sle's
     * bucket, is unlinked from it, takes the rest of the bucket and
     * replaces `sle` in the trie node.
     */
    method HandOver(sle: CtxId, nbo: CtxId)
      requires sle in expire && sle in head && sle in tail && sle in bucket && nbo in prev && nbo in next
      modifies this
      ensures View() == Promoted(Unlinked(old(View()), sle, nbo), sle, nbo)
    {
      BucketRemove(sle, nbo);
      head := head[nbo := head[sle]][sle := None];
      tail := tail[nbo := tail[sle]][sle := None];
      bucket := bucket[nbo := bucket[sle]][sle := []];
      owner := owner[expire[sle] := nbo];
    }

    /**
     * sleepq_remove: a context whose expire_ticks has a node is removed
     * through the node's owner; with no node nothing changes.
     */
    method Remove(ctx: CtxId)
      requires Valid() && ctx in expire
      modifies this
      ensures Valid() && expire == old(expire)
      ensures Contents() == RemoveAtQ(old(Contents()), expire[ctx], ctx)
      ensures !Queued(Contents(), ctx)
    {
      RemoveUnqueues(View(), ctx);
      AbsKeys(View());
      if expire[ctx] in owner {
        HandleRemove(owner[expire[ctx]], ctx);
      }
    }

    /** `ctx->expire_ticks = key` for a context out of the queue. */
    method SetExpire(c: CtxId, key: nat)
      requires Valid() && c in expire && !Queued(Contents(), c)
      modifies this
      ensures Valid() && Contents() == old(Contents()) && expire == old(expire)[c := key]
    {
      ghost var l0 := View();
      QueuedIff(l0, c);
      expire := expire[c := key];
      ExpireOk(l0, c, key);
    }

    /** trie_node_remove of the least node in the drain: its owner keeps its bucket for now. */
    method Detach(k: nat)
      requires k in owner
      modifies this
      ensures View() == old(View()).(owner := old(owner) - {k})
      ensures old(View()) == View().(owner := old(owner))
    {
      owner := owner - {k};
    }

    /**
     * The inner loop of process_sleep_resume_list, after the owner `o`'s
     * node has left the trie (`ow` is the trie before that): the bucket is
     * unlinked head first, and the members are handed back in bucket order,
     * to be resumed in that order.  Once the bucket is empty, o's key is
     * gone from the queue.
     */
    method DrainBucket(o: CtxId, ghost ow: map<nat, CtxId>) returns (members: seq<CtxId>)
      requires LinkedOk(View().(owner := ow)) && o in expire && expire[o] in ow && ow[expire[o]] == o
      requires owner == ow - {expire[o]}
      modifies this
      ensures owner == old(owner) && expire == old(expire) && Valid()
      ensures o in old(bucket) && members == old(bucket)[o]
      ensures Contents() == Abs(old(View()).(owner := ow)) - {expire[o]}
    {
      ghost var a0 := Abs(View().(owner := ow));
      AbsAt(View().(owner := ow), expire[o]);
      members := [];
      while head[o] != None
        invariant LinkedOk(View().(owner := ow)) && expire == old(expire) && owner == old(owner)
        invariant o in head && o in bucket
        invariant Abs(View().(owner := ow)) == a0[expire[o] := [o] + bucket[o]]
        invariant members + bucket[o] == old(bucket)[o]
        decreases |bucket[o]|
      {
        ghost var lw := View().(owner := ow);
        ghost var s := bucket[o];
        var t := head[o].value;
        HeadUnlinkOk(lw, o, t);
        UpdateTwice(a0, expire[o], [o] + s, [o] + s[1..]);
        UnlinkedOwner(View(), ow, o, t);
        MoveHead(members, s, old(bucket)[o]);
        BucketRemove(o, t);
        members := members + [t];
      }
      DrainedOk(View(), ow, o, a0);
    }

    /**
     * process_sleep_resume_list for one value of the clock: every key below
     * `now` leaves the queue smallest first, with each bucket's members
     * resumed before its owner; `order` is the sequence of resume calls.
     * The loop stops at the first unexpired key, so what stays is exactly
     * the unexpired part.
     */
    method Drain(now: nat) returns (order: seq<CtxId>)
      requires Valid()
      modifies this
      ensures Valid() && expire == old(expire)
      ensures order == DrainOrder(old(Contents()), now, true)
      ensures Contents() == Unexpired(old(Contents()), now) && NoneExpired(Contents(), now)
    {
      ghost var q0 := Contents();
      AbsNoDup(View());
      order := [];
      while owner != map[]
        invariant Valid() && expire == old(expire) && WellFormed(Contents())
        invariant order + DrainOrder(Contents(), now, true) == DrainOrder(q0, now, true)
        invariant Unexpired(Contents(), now) == Unexpired(q0, now)
        decreases |owner.Keys|
      {
        ghost var l := View();
        var k := LeastKey(owner.Keys);
        var ctx := owner[k];
        if !(expire[ctx] < now) {
          assert forall j :: j in owner ==> now <= j;
          break;
        }
        DrainKeyAt(l, k, now);
        KeysShrink(owner, k);
        Detach(k);
        var members := DrainBucket(ctx, l.owner);
        AbsNoDup(View());
        OrderStep(order, members, ctx, DrainOrder(Abs(l), now, true), DrainOrder(Contents(), now, true),
                  DrainOrder(q0, now, true));
        order := order + members + [ctx];
      }
      DrainDoneOk(View(), now);
    }
  }
}
