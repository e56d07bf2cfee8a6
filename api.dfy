/**
 * Public return codes, their names, the clock-reading macros and the
 * wait-event bits of mnthr (src/mnthr.h).
 *
 * A return code is either a plain `int` chosen by user code or by the
 * library (0 is success), or a library diagnostic code built by
 * MNDIAG_PUBLIC_CODE(library, class, index).  The numeric encoding of the
 * latter belongs to the external mndiag library; the model keeps the
 * (class, index) pair and treats diagnostic codes as distinct from each
 * other and from plain integers.
 */
module Api {
  /**
   * A return code; Traced(site, k) is the internal code TRRET(site + k)
   * of the library's generated diagnostics table, whose numbering is not
   * part of this model.
   */
  datatype Rc = Int(v: int) | Diag(cls: nat, index: nat) | Traced(site: string, offset: nat)

  const OK: Rc := Int(0)

  const WAIT_TIMEOUT: Rc := Diag(129, 1)
  const JOIN_FAILURE: Rc := Diag(129, 2)
  const RWLOCK_TRY_ACQUIRE_READ_FAIL: Rc := Diag(129, 3)
  const RWLOCK_TRY_ACQUIRE_WRITE_FAIL: Rc := Diag(129, 4)
  const SEMA_TRY_ACQUIRE_FAIL: Rc := Diag(129, 5)

  /** TRRET(RESUME + 1): poller_resume refused a context that is not resumable. */
  const RESUME_FAILED: Rc := Traced("RESUME", 1)

  const CO_RC_EXITED: Rc := Diag(130, 1)
  const CO_RC_USER_INTERRUPTED: Rc := Diag(130, 2)
  const CO_RC_TIMEDOUT: Rc := Diag(130, 3)
  const CO_RC_SIMULTANEOUS: Rc := Diag(130, 4)
  const CO_RC_POLLER: Rc := Diag(130, 5)

  /** The thread return codes that have a name, in MNTHR_CO_RC_STR order. */
  const NamedCoRcs: seq<Rc> :=
    [OK, CO_RC_EXITED, CO_RC_USER_INTERRUPTED, CO_RC_TIMEDOUT, CO_RC_SIMULTANEOUS, CO_RC_POLLER]
  const CoRcNames: seq<string> :=
    ["OK", "EXITED", "USER_INTERRUPTED", "TIMEDOUT", "SIMULTANEOUS", "POLLER"]

  /** MNTHR_CO_RC_STR: the name of a thread return code, "UD" for any other. */
  function CoRcStr(rc: Rc): (r: string)
    ensures forall i :: 0 <= i < |NamedCoRcs| && NamedCoRcs[i] == rc ==> r == CoRcNames[i]
    ensures rc !in NamedCoRcs <==> r == "UD"
  {
    if rc == OK then "OK"
    else if rc == CO_RC_EXITED then "EXITED"
    else if rc == CO_RC_USER_INTERRUPTED then "USER_INTERRUPTED"
    else if rc == CO_RC_TIMEDOUT then "TIMEDOUT"
    else if rc == CO_RC_SIMULTANEOUS then "SIMULTANEOUS"
    else if rc == CO_RC_POLLER then "POLLER"
    else "UD"
  }

  /** Different named codes get different names, and none of them is "UD". */
  lemma CoRcStrInjective(a: Rc, b: Rc)
    requires a in NamedCoRcs && b in NamedCoRcs && a != b
    ensures CoRcStr(a) != CoRcStr(b)
    ensures CoRcStr(a) != "UD"
  {
  }

  /** Bits reported by mnthr_wait_for_events. */
  const WAIT_EVENT_READ: bv32 := 0x01
  const WAIT_EVENT_WRITE: bv32 := 0x02

  lemma WaitEventBitsDisjoint()
    ensures WAIT_EVENT_READ & WAIT_EVENT_WRITE == 0
    ensures WAIT_EVENT_READ != 0 && WAIT_EVENT_WRITE != 0
  {
  }

  const NSEC_PER_SEC: nat := 1_000_000_000
  const NSEC_PER_MSEC: nat := 1_000_000
  const NSEC_PER_USEC: nat := 1_000

  /**
   * MNTHR_GET_NOW_SEC / _MSEC / _USEC and their _PRECISE forms: a nanosecond
   * clock reading (uint64, so never negative) divided by a power of ten.  The
   * normal and precise forms differ only in which clock they read; the
   * reading is a parameter here.
   */
  function NowSec(nsec: nat): (r: nat)
    ensures r * NSEC_PER_SEC <= nsec < (r + 1) * NSEC_PER_SEC
  {
    nsec / NSEC_PER_SEC
  }

  function NowMsec(nsec: nat): (r: nat)
    ensures r * NSEC_PER_MSEC <= nsec < (r + 1) * NSEC_PER_MSEC
  {
    nsec / NSEC_PER_MSEC
  }

  function NowUsec(nsec: nat): (r: nat)
    ensures r * NSEC_PER_USEC <= nsec < (r + 1) * NSEC_PER_USEC
  {
    nsec / NSEC_PER_USEC
  }

  /** Integer division by q is floor division: q*d <= n < q*(d+1) pins d down. */
  lemma FloorUnique(n: nat, q: nat, d: nat, e: nat)
    requires q > 0
    requires d * q <= n < (d + 1) * q
    requires e * q <= n < (e + 1) * q
    ensures d == e
  {
    if d < e {
      assert (d + 1) * q <= e * q by { MulMono(d + 1, e, q); }
    } else if e < d {
      assert (e + 1) * q <= d * q by { MulMono(e + 1, d, q); }
    }
  }

  lemma MulMono(a: nat, b: nat, q: nat)
    requires a <= b
    ensures a * q <= b * q
  {
  }

  /** The three readings of one clock value agree with each other. */
  lemma NowUnitsNest(nsec: nat)
    ensures NowSec(nsec) == NowMsec(nsec) / 1000
    ensures NowMsec(nsec) == NowUsec(nsec) / 1000
  {
    var s, m, u := NowSec(nsec), NowMsec(nsec), NowUsec(nsec);
    var m1 := m / 1000;
    assert m1 * 1000 <= m < (m1 + 1) * 1000;
    assert m1 * NSEC_PER_SEC <= nsec < (m1 + 1) * NSEC_PER_SEC by {
      MulMono(m1 * 1000, m, NSEC_PER_MSEC);
      MulMono(m + 1, (m1 + 1) * 1000, NSEC_PER_MSEC);
    }
    FloorUnique(nsec, NSEC_PER_SEC, s, m1);
    var u1 := u / 1000;
    assert u1 * 1000 <= u < (u1 + 1) * 1000;
    assert u1 * NSEC_PER_MSEC <= nsec < (u1 + 1) * NSEC_PER_MSEC by {
      MulMono(u1 * 1000, u, NSEC_PER_USEC);
      MulMono(u + 1, (u1 + 1) * 1000, NSEC_PER_USEC);
    }
    FloorUnique(nsec, NSEC_PER_MSEC, m, u1);
  }
}
