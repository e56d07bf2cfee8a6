/**
 * The `struct kevent` helpers of the kqueue backend (src/kevent_util.c):
 * the empty-slot sentinel, the filter and flag names, and the size clamps
 * of kev_read/kev_write.  The numeric values of the `EVFILT_*` and `EV_*`
 * constants are those of FreeBSD's <sys/event.h>.
 */
module KeventUtil {
  import opened Wrappers
  import opened Machine

  /** A `struct kevent`; `udata` is the waiting thread, if any. */
  datatype Kevent = Kevent(ident: u64, filter: int, flags: bv16, fflags: bv32, data: int, udata: Option<nat>)

  /** `(uintptr_t)(-1)`: the ident of an unused slot. */
  const EMPTY_IDENT: u64 := TWO64 - 1

  /** `(uintptr_t)fd`: an `int` widened to a pointer-sized unsigned integer. */
  function IdentOf(fd: i32): (r: u64)
    ensures fd >= 0 ==> r == fd
    ensures fd < 0 ==> r == TWO64 + fd
  {
    Wrap64(fd)
  }

  /** `(int)ident`: the low 32 bits, read as a signed `int`. */
  function FdOf(ident: u64): (r: i32)
  {
    var lo := ident % 0x1_0000_0000;
    if lo < TWO31 then lo else lo - 0x1_0000_0000
  }

  /** An ident that was made from some `int`. */
  predicate FromFd(ident: u64)
  {
    ident < TWO31 || ident >= TWO64 - TWO31
  }

  /** Widening an `int` and narrowing it back gives the `int` again, and the other way round. */
  lemma FdRoundTrip(fd: i32, ident: u64)
    ensures FromFd(IdentOf(fd)) && FdOf(IdentOf(fd)) == fd
    ensures FromFd(ident) ==> IdentOf(FdOf(ident)) == ident
  {
    if fd < 0 {
      assert IdentOf(fd) % 0x1_0000_0000 == 0x1_0000_0000 + fd;
    }
    if FromFd(ident) && ident >= TWO31 {
      assert ident % 0x1_0000_0000 == ident - (TWO64 - 0x1_0000_0000);
    }
  }

  /** kevent_isempty. */
  predicate IsEmpty(k: Kevent)
  {
    k.ident == EMPTY_IDENT
  }

  /** What kevent_init leaves in a slot: `EV_SET(kev, -1, 0, 0, 0, 0, NULL)`. */
  const INITIAL: Kevent := Kevent(IdentOf(-1), 0, 0, 0, 0, None)

  /** kevent_init leaves a slot that kevent_isempty accepts, with every other field cleared. */
  lemma InitIsEmpty()
    ensures IsEmpty(INITIAL)
    ensures INITIAL.filter == 0 && INITIAL.flags == 0 && INITIAL.fflags == 0 && INITIAL.data == 0
    ensures INITIAL.udata == None && FromFd(INITIAL.ident)
  {
  }

  /**
   * kevent_copy: the destination is set field by field from the source, so
   * it equals the source, an empty slot copying to an empty slot.
   */
  function Copy(src: Kevent): (dst: Kevent)
    ensures dst == src
    ensures IsEmpty(dst) <==> IsEmpty(src)
  {
    Kevent(src.ident, src.filter, src.flags, src.fflags, src.data, src.udata)
  }

  // ---------------------------------------------------------------------
  // Filters

  const EVFILT_READ: int := -1
  const EVFILT_WRITE: int := -2
  const EVFILT_AIO: int := -3
  const EVFILT_VNODE: int := -4
  const EVFILT_PROC: int := -5
  const EVFILT_SIGNAL: int := -6
  const EVFILT_TIMER: int := -7
  const EVFILT_USER: int := -11

  /** The filters kevent_filter_str knows, in the order it tests them. */
  const Filters: seq<int> :=
    [EVFILT_READ, EVFILT_WRITE, EVFILT_AIO, EVFILT_VNODE, EVFILT_PROC, EVFILT_SIGNAL, EVFILT_TIMER, EVFILT_USER]

  const FilterNames: seq<string> :=
    ["EVFILT_READ", "EVFILT_WRITE", "EVFILT_AIO", "EVFILT_VNODE", "EVFILT_PROC", "EVFILT_SIGNAL",
     "EVFILT_TIMER", "EVFILT_USER"]

  const UNKNOWN_FILTER: string := "<UNKNOWN>"

  /** kevent_filter_str. */
  function FilterStr(filter: int): string
  {
    if filter == EVFILT_READ then "EVFILT_READ"
    else if filter == EVFILT_WRITE then "EVFILT_WRITE"
    else if filter == EVFILT_AIO then "EVFILT_AIO"
    else if filter == EVFILT_VNODE then "EVFILT_VNODE"
    else if filter == EVFILT_PROC then "EVFILT_PROC"
    else if filter == EVFILT_SIGNAL then "EVFILT_SIGNAL"
    else if filter == EVFILT_TIMER then "EVFILT_TIMER"
    else if filter == EVFILT_USER then "EVFILT_USER"
    else UNKNOWN_FILTER
  }

  /**
   * Each known filter gets its own name from the table, anything else
   * "<UNKNOWN>", which is not the name of a filter: the name determines
   * the filter.
   */
  lemma FilterStrTable(filter: int, other: int)
    ensures forall i :: 0 <= i < |Filters| && Filters[i] == filter ==> FilterStr(filter) == FilterNames[i]
    ensures filter !in Filters <==> FilterStr(filter) == UNKNOWN_FILTER
    ensures filter in Filters && FilterStr(filter) == FilterStr(other) ==> filter == other
  {
  }

  // ---------------------------------------------------------------------
  // Flags

  const EV_ADD: bv16 := 0x0001
  const EV_DELETE: bv16 := 0x0002
  const EV_ENABLE: bv16 := 0x0004
  const EV_DISABLE: bv16 := 0x0008
  const EV_ONESHOT: bv16 := 0x0010
  const EV_CLEAR: bv16 := 0x0020
  const EV_RECEIPT: bv16 := 0x0040
  const EV_DISPATCH: bv16 := 0x0080
  const EV_ERROR: bv16 := 0x4000
  const EV_EOF: bv16 := 0x8000

  /** kevent_flags_str's table, in its order. */
  const FlagBits: seq<bv16> :=
    [EV_ADD, EV_ENABLE, EV_DISABLE, EV_DISPATCH, EV_DELETE, EV_RECEIPT, EV_ONESHOT, EV_CLEAR, EV_EOF, EV_ERROR]

  const FlagNames: seq<string> :=
    ["EV_ADD", "EV_ENABLE", "EV_DISABLE", "EV_DISPATCH", "EV_DELETE", "EV_RECEIPT", "EV_ONESHOT", "EV_CLEAR",
     "EV_EOF", "EV_ERROR"]

  /** The names of the flags of `f` among the first `i` table entries, in table order. */
  function Picked(f: bv16, i: nat): (r: seq<string>)
    requires i <= |FlagBits|
    ensures |r| <= i
    ensures forall n :: n in r ==> n in FlagNames[..i]
  {
    if i == 0 then []
    else Picked(f, i - 1) + (if f & FlagBits[i - 1] != 0 then [FlagNames[i - 1]] else [])
  }

  /** The names joined with `sep` between them. */
  function Join(ns: seq<string>, sep: string): (r: string)
  {
    if ns == [] then ""
    else if |ns| == 1 then ns[0]
    else Join(ns[..|ns| - 1], sep) + sep + ns[|ns| - 1]
  }

  /** Every name followed by a comma: what the loop of kevent_flags_str writes. */
  function Terminated(ns: seq<string>): (r: string)
  {
    if ns == [] then "" else Terminated(ns[..|ns| - 1]) + ns[|ns| - 1] + ","
  }

  /** The names with a comma after each are the joined names and one comma more. */
  lemma {:induction false} TerminatedJoin(ns: seq<string>)
    requires ns != []
    ensures Terminated(ns) == Join(ns, ",") + ","
  {
    var init := ns[..|ns| - 1];
    if init != [] {
      TerminatedJoin(init);
    }
  }

  /** A table name is never empty, so nothing but "<" means no flag was named. */
  lemma TerminatedEmpty(ns: seq<string>)
    ensures Terminated(ns) == "" <==> ns == []
  {
    if ns != [] {
      assert |Terminated(ns)| > 0;
    }
  }

  /** What one table entry adds to the buffer: its name and a comma when its flag is set. */
  function Piece(f: bv16, i: nat): string
    requires i < |FlagBits|
  {
    if f & FlagBits[i] != 0 then FlagNames[i] + "," else ""
  }

  /** Appending a name appends it and a comma. */
  lemma TerminatedSnoc(pre: string, ns: seq<string>, n: string)
    ensures pre + Terminated(ns + [n]) == pre + Terminated(ns) + (n + ",")
  {
    assert (ns + [n])[..|ns|] == ns;
  }

  /** One iteration of the loop keeps the buffer equal to "<" and the pieces so far. */
  lemma PickedStep(f: bv16, i: nat, s: string)
    requires i < |FlagBits| && s == "<" + Terminated(Picked(f, i))
    ensures s + Piece(f, i) == "<" + Terminated(Picked(f, i + 1))
  {
    var q := Picked(f, i);
    if f & FlagBits[i] != 0 {
      assert Picked(f, i + 1) == q + [FlagNames[i]];
      TerminatedSnoc("<", q, FlagNames[i]);
    } else {
      assert Picked(f, i + 1) == q;
    }
  }

  /**
   * kevent_flags_str: "<", the names of the set flags in table order with
   * commas between them, then ">" (the last comma is overwritten).
   */
  method FlagsStr(f: bv16) returns (s: string)
    ensures s == "<" + Join(Picked(f, |FlagBits|), ",") + ">"
  {
    s := "<";
    var i := 0;
    while i < |FlagBits|
      invariant 0 <= i <= |FlagBits|
      invariant s == "<" + Terminated(Picked(f, i))
    {
      PickedStep(f, i, s);
      s := s + Piece(f, i);
      i := i + 1;
    }
    var ns := Picked(f, |FlagBits|);
    TerminatedEmpty(ns);
    if |s| == 1 {
      s := s + ">";
    } else {
      TerminatedJoin(ns);
      assert s == "<" + Join(ns, ",") + ",";
      s := s[..|s| - 1] + ">";
    }
  }

  /** A flag is named exactly when it is set, each at most once, in table order. */
  lemma {:induction false} PickedExactly(f: bv16, i: nat, j: nat)
    requires j < i <= |FlagBits|
    ensures FlagNames[j] in Picked(f, i) <==> f & FlagBits[j] != 0
  {
    if j < i - 1 {
      PickedExactly(f, i - 1, j);
      assert FlagNames[j] != FlagNames[i - 1];
    } else {
      assert FlagNames[j] !in FlagNames[..i - 1];
    }
  }

  /** No flag of the table set: "<>". */
  lemma FlagsStrNone(f: bv16)
    requires forall i :: 0 <= i < |FlagBits| ==> f & FlagBits[i] == 0
    ensures "<" + Join(Picked(f, |FlagBits|), ",") + ">" == "<>"
  {
    var k := 0;
    while k < |FlagBits|
      invariant k <= |FlagBits| && Picked(f, k) == []
    {
      k := k + 1;
    }
  }

  // ---------------------------------------------------------------------
  // Size clamps

  /** kev_write: the number of bytes it hands to write(2), at most `kev->data`. */
  function WriteCount(navail: int, sz: int): (n: int)
    ensures n <= sz && n <= navail
    ensures sz > navail ==> n == navail
  {
    if sz > navail then navail else sz
  }

  /**
   * kev_write's result, given what write(2) returned: -1 on a short write,
   * the clamped count when the request was larger than the space, else 0.
   */
  function KevWrite(navail: int, sz: int, written: int): (r: int)
    ensures written != WriteCount(navail, sz) ==> r == -1
    ensures written == WriteCount(navail, sz) && sz > navail ==> r == navail
    ensures written == WriteCount(navail, sz) && sz <= navail ==> r == 0
  {
    if written != WriteCount(navail, sz) then -1
    else if sz > navail then navail
    else 0
  }

  /** kev_read: the number of bytes it asks read(2) for, at most `kev->data`. */
  function ReadCount(navail: int, sz: int): (n: int)
    ensures sz < navail ==> n == sz
    ensures sz >= navail ==> n == navail
  {
    if sz < navail then sz else navail
  }

  /**
   * kev_read's result, given what read(2) returned: -1 on a short read,
   * `sz` when more data remain than were asked for, else 0.
   */
  function KevRead(navail: int, sz: int, nread: int): (r: int)
    ensures nread != ReadCount(navail, sz) ==> r == -1
    ensures nread == ReadCount(navail, sz) && sz < navail ==> r == sz
    ensures nread == ReadCount(navail, sz) && sz >= navail ==> r == 0
  {
    if nread != ReadCount(navail, sz) then -1
    else if sz < navail then sz
    else 0
  }

  /**
   * A completed kev_write either wrote the whole request (result 0) or
   * exactly the space there was, shorter than the request, and says how
   * much; the same for kev_read with the roles of the two results swapped.
   */
  lemma ClampsComplete(navail: int, sz: int)
    requires 0 <= navail && 0 <= sz
    ensures var w := KevWrite(navail, sz, WriteCount(navail, sz));
      (w == 0 && WriteCount(navail, sz) == sz) || (w == navail && WriteCount(navail, sz) == navail < sz)
    ensures var r := KevRead(navail, sz, ReadCount(navail, sz));
      (r == sz && ReadCount(navail, sz) == sz < navail) || (r == 0 && ReadCount(navail, sz) == navail <= sz)
  {
  }
}
