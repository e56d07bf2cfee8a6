/**
 * The libev backend of mnthr (src/ev_poller.c), apart from its tick
 * arithmetic (module EvTicks): the event-mask names of ev_str, the key,
 * hash and comparator of the `events` table, and the rule that lets only
 * one thread wait for a registered event at a time.
 *
 * The numeric values of the `EV_*` masks are those of libev 4's <ev.h>.
 * The hash function itself (fasthash) is left abstract: it is a parameter.
 */
module EvPoller {
  import opened Wrappers
  import opened Machine
  import opened Api
  import CoStates
  import SleepQueue

  type CtxId = SleepQueue.CtxId

  // ---------------------------------------------------------------------
  // ev_str

  const EV_UNDEF: bv32 := 0xFFFF_FFFF
  const EV_READ: bv32 := 0x01
  const EV_WRITE: bv32 := 0x02
  const EV__IOFDSET: bv32 := 0x80
  const EV_TIMER: bv32 := 0x100
  const EV_PERIODIC: bv32 := 0x200
  const EV_SIGNAL: bv32 := 0x400
  const EV_CHILD: bv32 := 0x800
  const EV_STAT: bv32 := 0x1000
  const EV_IDLE: bv32 := 0x2000
  const EV_PREPARE: bv32 := 0x4000
  const EV_CHECK: bv32 := 0x8000
  const EV_EMBED: bv32 := 0x1_0000
  const EV_FORK: bv32 := 0x2_0000
  const EV_CLEANUP: bv32 := 0x4_0000
  const EV_ASYNC: bv32 := 0x8_0000
  const EV_CUSTOM: bv32 := 0x100_0000
  const EV_ERROR: bv32 := 0x8000_0000

  /** The masks ev_str names after READ, in the order it tests them. */
  const EvBits: seq<bv32> :=
    [EV_WRITE, EV__IOFDSET, EV_TIMER, EV_PERIODIC, EV_SIGNAL, EV_CHILD, EV_STAT, EV_IDLE, EV_PREPARE,
     EV_CHECK, EV_EMBED, EV_FORK, EV_CLEANUP, EV_ASYNC, EV_CUSTOM, EV_ERROR]

  const EvNames: seq<string> :=
    ["WRITE", "_IOFDSET", "TIMER", "PERIODIC", "SIGNAL", "CHILD", "STAT", "IDLE", "PREPARE",
     "CHECK", "EMBED", "FORK", "CLEANUP", "ASYNC", "CUSTOM", "ERROR"]

  /** Which table entries are set in `e`. */
  function Flags(e: bv32): (fl: seq<bool>)
    ensures |fl| == |EvBits|
    ensures forall k :: 0 <= k < |EvBits| ==> fl[k] == (e & EvBits[k] != 0)
  {
    seq(|EvBits|, k requires 0 <= k < |EvBits| => e & EvBits[k] != 0)
  }

  /** The positions among the first `i` whose flag is set, in order. */
  function Positions(fl: seq<bool>, i: nat): (r: seq<nat>)
    requires i <= |fl|
    ensures forall p :: 0 <= p < |r| ==> r[p] < i
  {
    if i == 0 then []
    else Positions(fl, i - 1) + (if fl[i - 1] then [i - 1] else [])
  }

  /** The table positions of the masks of `e` among the first `i` entries, in table order. */
  function Listed(e: bv32, i: nat): (r: seq<nat>)
    requires i <= |EvBits|
    ensures forall p :: 0 <= p < |r| ==> r[p] < i
  {
    Positions(Flags(e), i)
  }

  /** The names of `table` at the given positions, each preceded by a bar. */
  function Barred(table: seq<string>, ix: seq<nat>): (r: string)
    requires forall p :: 0 <= p < |ix| ==> ix[p] < |table|
  {
    if ix == [] then "" else Barred(table, ix[..|ix| - 1]) + "|" + table[ix[|ix| - 1]]
  }

  /** What ev_str writes for READ. */
  function Head(e: bv32): string
  {
    if e & EV_READ != 0 then "READ" else ""
  }

  /** What one table entry appends: a bar and its name when its mask is set. */
  function Piece(e: bv32, i: nat): string
    requires i < |EvBits|
  {
    if e & EvBits[i] != 0 then "|" + EvNames[i] else ""
  }

  /** Everything the appending branch of ev_str writes: READ, then "|NAME" per set mask. */
  function Written(e: bv32): string
  {
    Head(e) + Barred(EvNames, Listed(e, |EvBits|))
  }

  /**
   * The text ev_str leaves in its buffer, or None when it writes nothing:
   * a mask other than 0 and EV_UNDEF with none of the named bits set
   * leaves the static buffer as the previous call left it.
   */
  function EvText(e: bv32): Option<string>
  {
    if e == 0 then Some("NONE")
    else if e == EV_UNDEF then Some("UNDEF")
    else if Written(e) == "" then None
    else Some(Written(e))
  }

  lemma BarredSnoc(table: seq<string>, pre: string, ix: seq<nat>, x: nat)
    requires forall p :: 0 <= p < |ix| ==> ix[p] < |table|
    requires x < |table|
    ensures pre + Barred(table, ix + [x]) == pre + Barred(table, ix) + ("|" + table[x])
  {
    assert (ix + [x])[..|ix|] == ix;
  }

  /** One iteration of the appending loop. */
  lemma ListedStep(e: bv32, i: nat, w: string)
    requires i < |EvBits| && w == Head(e) + Barred(EvNames, Listed(e, i))
    ensures w + Piece(e, i) == Head(e) + Barred(EvNames, Listed(e, i + 1))
  {
    var q := Listed(e, i);
    assert Flags(e)[i] == (e & EvBits[i] != 0);
    if e & EvBits[i] != 0 {
      assert Listed(e, i + 1) == q + [i];
      BarredSnoc(EvNames, Head(e), q, i);
    } else {
      assert Listed(e, i + 1) == q;
    }
  }

  /** The `nwritten` chain of ev_str, on a local string. */
  method WriteNames(e: bv32) returns (w: string)
    ensures w == Written(e)
  {
    w := if e & EV_READ != 0 then "READ" else "";
    var i := 0;
    while i < |EvBits|
      invariant 0 <= i <= |EvBits|
      invariant w == Head(e) + Barred(EvNames, Listed(e, i))
    {
      ListedStep(e, i, w);
      w := w + Piece(e, i);
      i := i + 1;
    }
  }

  /** ev_str's static buffer. */
  class EvStrBuffer {
    var buf: string

    /** A zero-initialised static: the empty string. */
    constructor()
      ensures buf == ""
    {
      buf := "";
    }

    /** ev_str: the buffer holds and the call returns EvText(e), or the old buffer when that is None. */
    method EvStr(e: bv32) returns (s: string)
      modifies this
      ensures EvText(e).Some? ==> buf == EvText(e).value
      ensures EvText(e).None? ==> buf == old(buf)
      ensures s == buf
    {
      if e == 0 {
        buf := "NONE";
      } else if e == EV_UNDEF {
        buf := "UNDEF";
      } else {
        var w := WriteNames(e);
        if w != "" {
          buf := w;
        }
      }
      s := buf;
    }
  }

  /** A position is listed exactly when its flag is set. */
  lemma {:induction false} PositionsExactly(fl: seq<bool>, i: nat, j: nat)
    requires j < i <= |fl|
    ensures j in Positions(fl, i) <==> fl[j]
  {
    var q := Positions(fl, i - 1);
    if j < i - 1 {
      PositionsExactly(fl, i - 1, j);
      assert j in Positions(fl, i) <==> j in q;
    } else {
      forall p | 0 <= p < |q|
        ensures q[p] != j
      {
      }
      assert j !in q;
    }
  }

  /** Positions come in increasing order. */
  lemma {:induction false} PositionsIncreasing(fl: seq<bool>, i: nat)
    requires i <= |fl|
    ensures forall p, q :: 0 <= p < q < |Positions(fl, i)| ==> Positions(fl, i)[p] < Positions(fl, i)[q]
  {
    if i > 0 {
      PositionsIncreasing(fl, i - 1);
    }
  }

  /** ev_str lists a mask exactly when it is set, each once, in table order. */
  lemma ListedExactly(e: bv32, j: nat)
    requires j < |EvBits|
    ensures j in Listed(e, |EvBits|) <==> e & EvBits[j] != 0
    ensures forall p, q :: 0 <= p < q < |Listed(e, |EvBits|)| ==> Listed(e, |EvBits|)[p] < Listed(e, |EvBits|)[q]
  {
    PositionsExactly(Flags(e), |EvBits|, j);
    PositionsIncreasing(Flags(e), |EvBits|);
  }

  /** The bar-separated part is empty or starts with a bar. */
  lemma {:induction false} BarredStart(table: seq<string>, ix: seq<nat>)
    requires forall p :: 0 <= p < |ix| ==> ix[p] < |table|
    ensures Barred(table, ix) == "" <==> ix == []
    ensures ix != [] ==> Barred(table, ix)[0] == '|'
  {
    if ix != [] {
      BarredStart(table, ix[..|ix| - 1]);
    }
  }

  /**
   * ev_str: 0 is "NONE" and EV_UNDEF "UNDEF"; any other mask starts with
   * "READ" exactly when READ is set, and otherwise with the bar of its first
   * named mask; it writes nothing exactly when no named bit is set.
   */
  lemma EvTextShape(e: bv32)
    ensures EvText(0) == Some("NONE") && EvText(EV_UNDEF) == Some("UNDEF")
    ensures e & EV_READ != 0 ==> Written(e)[..4] == "READ"
    ensures e & EV_READ == 0 ==> Written(e) == "" || Written(e)[0] == '|'
    ensures Written(e) == "" <==> e & EV_READ == 0 && forall j :: 0 <= j < |EvBits| ==> e & EvBits[j] == 0
  {
    var ix := Listed(e, |EvBits|);
    BarredStart(EvNames, ix);
    forall j | 0 <= j < |EvBits|
      ensures j in ix <==> e & EvBits[j] != 0
    {
      PositionsExactly(Flags(e), |EvBits|, j);
    }
    if ix != [] {
      assert ix[0] in ix;
    }
  }

  /** A mask with only unnamed bits (0x04, say) leaves the buffer as it was. */
  lemma EvTextUnnamed()
    ensures EvText(0x04) == None
  {
    EvTextShape(0x04);
  }

  // ---------------------------------------------------------------------
  // The `events` table: key, hash, comparator

  const EV_TYPE_IO: int := 1
  const EV_TYPE_STAT: int := 2

  /** A byte of a path. */
  type byte = x: int | 0 <= x < 256

  /**
   * What an ev_item is looked up by: an io watcher's fd and `int` event
   * mask, or a stat watcher's path.
   */
  datatype EvKey = IoKey(fd: i32, events: i32) | StatKey(path: seq<byte>)

  function Ty(k: EvKey): (t: int)
    ensures t == EV_TYPE_IO <==> k.IoKey?
    ensures t == EV_TYPE_STAT <==> k.StatKey?
  {
    if k.IoKey? then EV_TYPE_IO else EV_TYPE_STAT
  }

  /**
   * Whether EV__IOFDSET (0x80, bit 7) is set in an `int` mask: the low
   * eight bits of a two's-complement value are its remainder modulo 256.
   */
  predicate HasIofdset(e: i32)
  {
    e % 256 >= 128
  }

  /** `events & ~EV__IOFDSET`. */
  function Unset(e: i32): (r: i32)
    ensures !HasIofdset(r)
    ensures HasIofdset(e) ==> r == e - 128
    ensures !HasIofdset(e) ==> r == e
  {
    if HasIofdset(e) then e - 128 else e
  }

  /** `events | EV__IOFDSET`. */
  function SetIofdset(e: i32): (r: i32)
    ensures HasIofdset(r)
    ensures !HasIofdset(e) ==> r == e + 128
    ensures HasIofdset(e) ==> r == e
  {
    if HasIofdset(e) then e else e + 128
  }

  /** Setting and clearing the bit undo each other, and clearing forgets whether it was set. */
  lemma UnsetIofdset(e: i32)
    ensures Unset(SetIofdset(e)) == Unset(e) && Unset(Unset(e)) == Unset(e)
    ensures SetIofdset(Unset(e)) == SetIofdset(e)
  {
  }

  /** What ev_item_hash feeds to the hash: the type, and the fd with the mask less EV__IOFDSET, or the path. */
  function HashInput(k: EvKey): (d: EvKey)
  {
    if k.IoKey? then IoKey(k.fd, Unset(k.events)) else k
  }

  /** The hash of a key, for a given hash function. */
  function ItemHash(fh: EvKey -> u64, k: EvKey): u64
  {
    fh(HashInput(k))
  }

  /**
   * The hash does not see EV__IOFDSET, which libev sets on a watcher until
   * it is started: two io keys whose masks differ only there hash alike.
   */
  lemma HashIgnoresIofdset(fh: EvKey -> u64, fd: i32, e1: i32, e2: i32)
    requires SetIofdset(e1) == SetIofdset(e2)
    ensures ItemHash(fh, IoKey(fd, e1)) == ItemHash(fh, IoKey(fd, e2))
  {
    UnsetIofdset(e1);
    UnsetIofdset(e2);
  }

  /** An ev_item: its key, its cached hash (0 until computed) and its waiting thread (`ev.io.data`). */
  class EvItem {
    const key: EvKey
    var hash: u64
    var data: Option<CtxId>

    /** ev_item_new_io / ev_item_new_stat. */
    constructor(k: EvKey)
      ensures key == k && hash == 0 && data == None
    {
      key := k;
      hash := 0;
      data := None;
    }

    /** The cache is empty or holds the key's hash. */
    predicate Cached(fh: EvKey -> u64)
      reads this
    {
      hash == 0 || hash == ItemHash(fh, key)
    }

    /** ev_item_hash: the hash is computed once and then read back from the field. */
    method Hash(fh: EvKey -> u64) returns (h: u64)
      modifies this
      ensures old(hash) != 0 ==> h == old(hash) && hash == old(hash)
      ensures old(hash) == 0 ==> h == ItemHash(fh, key) && hash == h
      ensures data == old(data)
      ensures old(Cached(fh)) ==> h == ItemHash(fh, key) && Cached(fh)
    {
      if hash == 0 {
        hash := ItemHash(fh, key);
      }
      h := hash;
    }
  }

  /** MNCMP. */
  function MnCmp(a: int, b: int): (r: int)
    ensures r == 0 <==> a == b
    ensures r < 0 <==> a < b
  {
    if a < b then -1 else if a > b then 1 else 0
  }

  /** Stands for bytes_cmp: length first, then the bytes in order. */
  function BytesCmp(a: seq<byte>, b: seq<byte>): (r: int)
    decreases |a|
  {
    if |a| != |b| then MnCmp(|a|, |b|)
    else if a == [] then 0
    else if a[0] != b[0] then MnCmp(a[0], b[0])
    else BytesCmp(a[1..], b[1..])
  }

  lemma {:induction false} BytesCmpEq(a: seq<byte>, b: seq<byte>)
    ensures BytesCmp(a, b) == 0 <==> a == b
    ensures BytesCmp(b, a) == -BytesCmp(a, b)
    decreases |a|
  {
    if |a| == |b| && a != [] && a[0] == b[0] {
      BytesCmpEq(a[1..], b[1..]);
      if a[1..] == b[1..] {
        assert a == [a[0]] + a[1..] && b == [b[0]] + b[1..];
      }
    }
  }

  /**
   * ev_item_cmp as intended, given both hashes: by hash, then type, then
   * fd, then the mask (compared as `int`s), or by path for stat watchers.
   */
  function ItemCmp(ha: u64, a: EvKey, hb: u64, b: EvKey): int
  {
    if ha != hb then MnCmp(ha, hb)
    else if Ty(a) != Ty(b) then Ty(a) - Ty(b)
    else if a.StatKey? then BytesCmp(a.path, b.path)
    else if a.fd != b.fd then (if a.fd > b.fd then 1 else -1)
    else if a.events == b.events then 0
    else if a.events > b.events then 1 else -1
  }

  /**
   * With each hash computed from its key, ev_item_cmp is 0 exactly on equal
   * keys, and it is antisymmetric; so the table can be read as a map from
   * keys.
   */
  lemma ItemCmpIsKeyEquality(fh: EvKey -> u64, a: EvKey, b: EvKey)
    ensures ItemCmp(ItemHash(fh, a), a, ItemHash(fh, b), b) == 0 <==> a == b
    ensures ItemCmp(ItemHash(fh, b), b, ItemHash(fh, a), a) == -ItemCmp(ItemHash(fh, a), a, ItemHash(fh, b), b)
  {
    if a.StatKey? && b.StatKey? {
      BytesCmpEq(a.path, b.path);
    }
  }

  // ---------------------------------------------------------------------
  // The single-waiter rule

  /** ev.io.data of each registered item, by key. */
  type Waiters = map<EvKey, Option<CtxId>>

  /** ev_io_item_get: the key is registered, with no waiter when new. */
  function Registered(w: Waiters, k: EvKey): (r: Waiters)
    ensures k in r && (k !in w ==> r[k] == None)
    ensures forall k' :: k' in w ==> k' in r && r[k'] == w[k']
    ensures forall k' :: k' in r ==> k' in w || k' == k
  {
    if k in w then w else w[k := None]
  }

  /**
   * The check of every wait function: a free item is claimed by `me`, one
   * `me` already holds is kept, and one another thread holds is refused
   * with CO_RC_SIMULTANEOUS.
   */
  function Claim(w: Waiters, k: EvKey, me: CtxId): (r: (Waiters, Option<Rc>))
    ensures var d := Registered(w, k)[k];
      && (d == None ==> r == (Registered(w, k)[k := Some(me)], None))
      && (d == Some(me) ==> r == (Registered(w, k), None))
      && (d.Some? && d.value != me ==> r == (Registered(w, k), Some(CO_RC_SIMULTANEOUS)))
  {
    var r := Registered(w, k);
    if r[k] == None then (r[k := Some(me)], None)
    else if r[k] == Some(me) then (r, None)
    else (r, Some(CO_RC_SIMULTANEOUS))
  }

  /** What every wait function does once woken: `ev.io.data = NULL`. */
  function Release(w: Waiters, k: EvKey): (r: Waiters)
    requires k in w
  {
    w[k := None]
  }

  /** No thread waits for two items at once. */
  predicate OneEach(w: Waiters)
  {
    forall k1, k2 :: k1 in w && k2 in w && w[k1].Some? && w[k1] == w[k2] ==> k1 == k2
  }

  /** `me` waits for no item other than k. */
  predicate FreeElsewhere(w: Waiters, k: EvKey, me: CtxId)
  {
    forall k' :: k' in w && k' != k ==> w[k'] != Some(me)
  }

  /**
   * A claim never takes an item from its holder; a successful one leaves
   * `me` the holder; and a thread that waits for nothing else keeps
   * OneEach, as does every release.
   */
  lemma ClaimKeepsOneEach(w: Waiters, k: EvKey, me: CtxId)
    ensures k in w && w[k].Some? && w[k] != Some(me) ==> Claim(w, k, me).0 == w
    ensures Claim(w, k, me).1 == None <==> Claim(w, k, me).0[k] == Some(me)
    ensures OneEach(w) && FreeElsewhere(w, k, me) ==> OneEach(Claim(w, k, me).0)
    ensures OneEach(w) && k in w ==> OneEach(Release(w, k))
  {
  }

  /** A claim of a free item followed by its release leaves the table as registered. */
  lemma ClaimRelease(w: Waiters, k: EvKey, me: CtxId)
    requires Registered(w, k)[k] == None
    ensures Release(Claim(w, k, me).0, k) == Registered(w, k)
  {
  }

  /** The five wait functions that share the check. */
  datatype WaitKind = GetRbuflen | WaitForRead | GetWbuflen | WaitForWrite | WaitForEvents

  /** The `int` mask each registers its item with: EV_READ (1), EV_WRITE (2) or both (3). */
  function KindEvents(kind: WaitKind): i32
  {
    match kind
    case GetRbuflen => 1
    case WaitForRead => 1
    case GetWbuflen => 2
    case WaitForWrite => 2
    case WaitForEvents => 3
  }

  /** `e & EV_READ` and `e & EV_WRITE` of an `int` mask: its two lowest two's-complement bits. */
  predicate HasRead(e: i32)
  {
    e % 2 == 1
  }

  predicate HasWrite(e: i32)
  {
    (e / 2) % 2 == 1
  }

  /** The state each waits in. */
  function KindState(kind: WaitKind): (st: bv32)
    ensures st & CoStates.RESUMABLE != 0
  {
    match kind
    case GetRbuflen => CoStates.READ
    case WaitForRead => CoStates.READ
    case GetWbuflen => CoStates.WRITE
    case WaitForWrite => CoStates.WRITE
    case WaitForEvents => CoStates.OTHER_POLLER
  }

  /** The registered items and every thread's `pdata.ev`. */
  class EvTable {
    var waiters: Waiters
    var pending: map<CtxId, Option<EvKey>>

    constructor()
      ensures waiters == map[] && pending == map[]
    {
      waiters := map[];
      pending := map[];
    }

    predicate Valid()
      reads this
    {
      OneEach(waiters)
    }

    /**
     * The part of a wait function before it yields: `me->pdata.ev` is set
     * to the item, then the item is claimed or refused.
     */
    method Wait(me: CtxId, fd: i32, kind: WaitKind) returns (rc: Option<Rc>)
      modifies this
      ensures var k := IoKey(fd, KindEvents(kind));
        && (waiters, rc) == Claim(old(waiters), k, me)
        && pending == old(pending)[me := Some(k)]
      ensures old(Valid()) && FreeElsewhere(old(waiters), IoKey(fd, KindEvents(kind)), me) ==> Valid()
    {
      var k := IoKey(fd, KindEvents(kind));
      ClaimKeepsOneEach(waiters, k, me);
      pending := pending[me := Some(k)];
      var c := Claim(waiters, k, me);
      waiters := c.0;
      rc := c.1;
    }

    /** The part after the yield: the item is given up and `me->pdata.ev` cleared. */
    method Woken(me: CtxId, fd: i32, kind: WaitKind)
      requires IoKey(fd, KindEvents(kind)) in waiters && waiters[IoKey(fd, KindEvents(kind))] == Some(me)
      modifies this
      ensures waiters == Release(old(waiters), IoKey(fd, KindEvents(kind)))
      ensures pending == old(pending)[me := None]
      ensures old(Valid()) ==> Valid()
    {
      ClaimKeepsOneEach(waiters, IoKey(fd, KindEvents(kind)), me);
      waiters := Release(waiters, IoKey(fd, KindEvents(kind)));
      pending := pending[me := None];
    }
  }

  // ---------------------------------------------------------------------
  // What the wait functions return after waking

  /** mnthr_get_rbuflen: -1 when the yield failed or FIONREAD failed (None), else the byte count. */
  function RbuflenResult(res: int, fionread: Option<int>): (r: int)
    ensures res != 0 || fionread.None? ==> r == -1
    ensures res == 0 && fionread.Some? ==> r == fionread.value
  {
    if res != 0 then -1 else if fionread.None? then -1 else fionread.value
  }

  /** mnthr_get_wbuflen without FIONSPACE: -1 when the yield failed, else 1 MiB. */
  function WbuflenResult(res: int): (r: int)
    ensures res != 0 <==> r == -1
    ensures res == 0 <==> r == 1024 * 1024
  {
    if res != 0 then -1 else 1024 * 1024
  }

  /** mnthr_wait_for_events: the caller's `*events` with READ and WRITE added for the item's mask. */
  function EventsResult(events: bv32, registered: i32): (r: bv32)
  {
    AddBits(events, HasRead(registered), HasWrite(registered))
  }

  /** `*events |= MNTHR_WAIT_EVENT_READ` when `rd`, then the same for WRITE when `wr`. */
  function AddBits(events: bv32, rd: bool, wr: bool): bv32
  {
    var r1 := if rd then events | WAIT_EVENT_READ else events;
    if wr then r1 | WAIT_EVENT_WRITE else r1
  }

  lemma AddBitsExact(events: bv32, rd: bool, wr: bool)
    ensures AddBits(events, rd, wr) & events == events
    ensures AddBits(events, rd, wr) & WAIT_EVENT_READ != 0 <==> events & WAIT_EVENT_READ != 0 || rd
    ensures AddBits(events, rd, wr) & WAIT_EVENT_WRITE != 0 <==> events & WAIT_EVENT_WRITE != 0 || wr
    ensures AddBits(events, rd, wr) & !(WAIT_EVENT_READ | WAIT_EVENT_WRITE)
      == events & !(WAIT_EVENT_READ | WAIT_EVENT_WRITE)
  {
  }

  /**
   * The reported bits are the caller's plus exactly those of the
   * registered mask, nothing lost; with the item registered for READ and
   * WRITE, both are always reported.
   */
  lemma EventsResultBits(events: bv32, registered: i32)
    ensures EventsResult(events, registered) & events == events
    ensures EventsResult(events, registered) & WAIT_EVENT_READ != 0
      <==> events & WAIT_EVENT_READ != 0 || HasRead(registered)
    ensures EventsResult(events, registered) & WAIT_EVENT_WRITE != 0
      <==> events & WAIT_EVENT_WRITE != 0 || HasWrite(registered)
    ensures EventsResult(events, registered) & !(WAIT_EVENT_READ | WAIT_EVENT_WRITE)
      == events & !(WAIT_EVENT_READ | WAIT_EVENT_WRITE)
  {
    AddBitsExact(events, HasRead(registered), HasWrite(registered));
  }

  /** mnthr_wait_for_events registers READ and WRITE, so it always reports both. */
  lemma WaitForEventsReportsBoth(events: bv32)
    ensures HasRead(KindEvents(WaitForEvents)) && HasWrite(KindEvents(WaitForEvents))
    ensures EventsResult(events, KindEvents(WaitForEvents)) == events | WAIT_EVENT_READ | WAIT_EVENT_WRITE
  {
  }
}
