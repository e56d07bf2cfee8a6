/**
 * Tick bookkeeping of the libev poller that mnthr is built with
 * (src/ev_poller.c).  A tick is a nanosecond of `timecounter_now`; every sum
 * and product is `uint64_t` arithmetic and wraps modulo 2^64.
 */
module EvTicks {
  import opened Machine

  /** poller_usec2ticks_absolute: now + usec * 1000. */
  function Usec2TicksAbsolute(now: u64, usec: u64): (r: u64)
    ensures now + usec * 1000 < TWO64 ==> r == now + usec * 1000
    ensures (r - (now + usec * 1000)) % TWO64 == 0
  {
    WrapAddMod(now, usec * 1000);
    AddU64(now, MulU64(usec, 1000))
  }

  /** poller_msec2ticks_absolute: now + msec * 1000000. */
  function Msec2TicksAbsolute(now: u64, msec: u64): (r: u64)
    ensures now + msec * 1_000_000 < TWO64 ==> r == now + msec * 1_000_000
    ensures (r - (now + msec * 1_000_000)) % TWO64 == 0
  {
    WrapAddMod(now, msec * 1_000_000);
    AddU64(now, MulU64(msec, 1_000_000))
  }

  /** mnthr_msec2ticks: a duration, not a point in time. */
  function Msec2Ticks(msec: u64): (r: u64)
    ensures msec * 1_000_000 < TWO64 ==> r == msec * 1_000_000
    ensures (r - msec * 1_000_000) % TWO64 == 0
  {
    MulU64(msec, 1_000_000)
  }

  /** poller_ticks_absolute: now + ticks. */
  function TicksAbsolute(now: u64, ticks: u64): (r: u64)
    ensures now + ticks < TWO64 ==> r == now + ticks
    ensures now + ticks >= TWO64 ==> r == now + ticks - TWO64
  {
    AddU64(now, ticks)
  }

  /** An absolute deadline in milliseconds is the relative duration added to now. */
  lemma MsecAbsoluteIsNowPlusDuration(now: u64, msec: u64)
    ensures Msec2TicksAbsolute(now, msec) == TicksAbsolute(now, Msec2Ticks(msec))
  {
  }

  /** A millisecond is a thousand microseconds, wrap-around included. */
  lemma MsecIsThousandUsec(now: u64, msec: u64)
    requires msec * 1000 < TWO64
    ensures Msec2TicksAbsolute(now, msec) == Usec2TicksAbsolute(now, msec * 1000)
  {
    assert msec * 1_000_000 == (msec * 1000) * 1000;
  }

  /** A deadline is never earlier than now unless the sum wraps. */
  lemma DeadlineNotBeforeNow(now: u64, ticks: u64)
    requires now + ticks < TWO64
    ensures now <= TicksAbsolute(now, ticks)
  {
  }

  /**
   * mnthr_get_now_nsec, mnthr_get_now_nsec_precise, mnthr_get_now_ticks and
   * mnthr_get_now_ticks_precise all read the poller's `timecounter_now`.
   */
  function GetNowNsec(timecounter: u64): (r: u64) ensures r == timecounter { timecounter }
  function GetNowNsecPrecise(timecounter: u64): (r: u64) ensures r == timecounter { timecounter }
  function GetNowTicks(timecounter: u64): (r: u64) ensures r == timecounter { timecounter }
  function GetNowTicksPrecise(timecounter: u64): (r: u64) ensures r == timecounter { timecounter }

  /** All four clocks agree, and a tick is a nanosecond. */
  lemma NowClocksAgree(timecounter: u64)
    ensures GetNowNsec(timecounter) == GetNowNsecPrecise(timecounter)
      == GetNowTicks(timecounter) == GetNowTicksPrecise(timecounter)
  {
  }
}
