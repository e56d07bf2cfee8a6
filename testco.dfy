/**
 * The latency harness of test/testco.c: `bar` spawns the `baz` tasks and
 * then polls their running total, each `baz` times one call of the
 * recursive `r`, and `shut_me_down` raises the `_shutdown` flag.
 *
 * Threads and clocks are parameters.  What another thread does while the
 * caller yields or sleeps is an input: whether it raised `_shutdown`
 * during a yield of `r`, and what the monitor sees after each sleep of
 * `bar`.  The two clock readings of `baz` are inputs as well.
 */
module LatencyHarness {
  import opened Wrappers
  import opened Machine

  const NTHREADS: nat := 100000
  const NITER: nat := 1
  const NRECUR: nat := 50

  // ---------------------------------------------------------------------
  // r

  /** The test of r(n) as written: it recurses unless it is deep enough and no shutdown is asked for. */
  predicate RecursesAsWritten(n: nat, shutdown: bool)
  {
    !(n >= NRECUR && !shutdown)
  }

  /**
   * The number of nested calls r(n) makes, as written, before it reaches
   * its yield loop, with at most `fuel` calls; None when the fuel runs out.
   */
  function DepthAsWritten(n: nat, shutdown: bool, fuel: nat): (r: Option<nat>)
    ensures r.Some? ==> r.value <= fuel
    decreases fuel
  {
    if !RecursesAsWritten(n, shutdown) then Some(0)
    else if fuel == 0 then None
    else match DepthAsWritten(n + 1, shutdown, fuel - 1)
      case None => None
      case Some(d) => Some(d + 1)
  }

  /**
   * With `_shutdown` set, r as written never reaches its loop: whatever
   * depth one allows, it recurses past it.  A baz that starts after the
   * shutdown thus recurses until the stack is gone.
   */
  lemma {:induction false} DepthAsWrittenUnbounded(n: nat, fuel: nat)
    ensures DepthAsWritten(n, true, fuel) == None
    decreases fuel
  {
    if fuel > 0 {
      DepthAsWrittenUnbounded(n + 1, fuel - 1);
    }
  }

  /** The nested calls of r(n) as intended: down to depth NRECUR, shutdown or not. */
  function Depth(n: nat): (d: nat)
    ensures n >= NRECUR ==> d == 0
    ensures n < NRECUR ==> d == NRECUR - n
    decreases NRECUR - n
  {
    if n >= NRECUR then 0 else 1 + Depth(n + 1)
  }

  /** Without a shutdown the written test and the intended one agree. */
  lemma {:induction false} DepthAgrees(n: nat, fuel: nat)
    requires fuel >= Depth(n)
    ensures DepthAsWritten(n, false, fuel) == Some(Depth(n))
    decreases NRECUR - n
  {
    if n < NRECUR {
      DepthAgrees(n + 1, fuel - 1);
    }
  }

  /**
   * The yields of r's loop, `while (nn-- && !_shutdown)` with nn =
   * `budget`: `env[i]` says whether another thread raised `_shutdown`
   * during the i-th yield.  At most `budget` yields, none once the flag
   * is up, and at least one when it is down.
   */
  function Yields(shutdown: bool, env: seq<bool>, budget: nat): (k: nat)
    requires |env| >= budget
    ensures k <= budget
    ensures shutdown ==> k == 0
    ensures !shutdown && budget > 0 ==> k >= 1
    ensures !shutdown && 0 < k < budget ==> env[k - 1]
    decreases budget
  {
    if budget == 0 || shutdown then 0
    else 1 + Yields(env[0], env[1..], budget - 1)
  }

  /** The flag after the first `k` yields of the loop. */
  function RaisedBy(shutdown: bool, env: seq<bool>, k: nat): bool
    requires k <= |env|
  {
    shutdown || true in env[..k]
  }

  // ---------------------------------------------------------------------
  // bar's monitor

  /** What bar sees after one mrkthr_sleep(wt): total, ntotal and whether `_shutdown` was raised. */
  datatype Poll = Poll(total: int, ntotal: nat, shutdown: bool)

  /**
   * How bar's polling ends: `_shutdown` seen after `polls` polls, the
   * total unchanged at poll `polls`, or the polls given ran out first.
   */
  datatype MonitorEnd = ShutDown(polls: nat) | Settled(polls: nat) | Polling

  function Shift(e: MonitorEnd, d: nat): MonitorEnd
  {
    match e
    case ShutDown(k) => ShutDown(k + d)
    case Settled(k) => Settled(k + d)
    case Polling => Polling
  }

  /**
   * The polling loop of bar from `oldtotal` and the flag: a poll with
   * ntotal 0 is skipped; a poll whose total equals a non-zero oldtotal
   * ends it; any other poll sets oldtotal to its total.  The flag is
   * tested before each sleep.
   */
  function Monitor(polls: seq<Poll>, oldtotal: int, shutdown: bool): (r: MonitorEnd)
    ensures shutdown ==> r == ShutDown(0)
    ensures r.ShutDown? || r.Settled? ==> r.polls <= |polls|
    ensures r.Settled? ==> r.polls >= 1
    decreases |polls|
  {
    if shutdown then ShutDown(0)
    else if polls == [] then Polling
    else
      var p := polls[0];
      if p.ntotal == 0 then Shift(Monitor(polls[1..], oldtotal, p.shutdown), 1)
      else if oldtotal != 0 && p.total == oldtotal then Settled(1)
      else Shift(Monitor(polls[1..], p.total, p.shutdown), 1)
  }

  /** oldtotal before poll `j`: the total of the last poll before it with ntotal non-zero. */
  function OldTotalAt(polls: seq<Poll>, oldtotal: int, j: nat): int
    requires j <= |polls|
    decreases j
  {
    if j == 0 then oldtotal
    else OldTotalAt(polls[1..], if polls[0].ntotal == 0 then oldtotal else polls[0].total, j - 1)
  }

  /** Poll `j` would end the polling. */
  predicate SettlesAt(polls: seq<Poll>, oldtotal: int, j: nat)
    requires j < |polls|
  {
    polls[j].ntotal != 0 && OldTotalAt(polls, oldtotal, j) != 0 && polls[j].total == OldTotalAt(polls, oldtotal, j)
  }

  /** A poll with ntotal 0 leaves oldtotal alone; any other sets it to the poll's total. */
  lemma {:induction false} OldTotalStep(polls: seq<Poll>, oldtotal: int, j: nat)
    requires j < |polls|
    ensures OldTotalAt(polls, oldtotal, j + 1)
      == if polls[j].ntotal == 0 then OldTotalAt(polls, oldtotal, j) else polls[j].total
    decreases j
  {
    if j > 0 {
      OldTotalStep(polls[1..], if polls[0].ntotal == 0 then oldtotal else polls[0].total, j - 1);
    }
  }

  /**
   * The polling stops with Settled(k) exactly when poll k - 1 is the
   * first one that settles, and no poll before it raised the flag.
   */
  lemma {:induction false} MonitorSettled(polls: seq<Poll>, oldtotal: int, k: nat)
    ensures Monitor(polls, oldtotal, false) == Settled(k) <==>
      && 1 <= k <= |polls| && SettlesAt(polls, oldtotal, k - 1)
      && forall j :: 0 <= j < k - 1 ==> !polls[j].shutdown && !SettlesAt(polls, oldtotal, j)
    decreases |polls|
  {
    if polls != [] {
      var p := polls[0];
      var o1 := if p.ntotal == 0 then oldtotal else p.total;
      var rest := polls[1..];
      assert forall j :: 0 <= j < |rest| ==> rest[j] == polls[j + 1];
      assert forall j :: 0 <= j < |rest| ==> OldTotalAt(polls, oldtotal, j + 1) == OldTotalAt(rest, o1, j);
      assert forall j :: 0 <= j < |rest| ==> (SettlesAt(polls, oldtotal, j + 1) <==> SettlesAt(rest, o1, j));
      var settles0 := p.ntotal != 0 && oldtotal != 0 && p.total == oldtotal;
      assert SettlesAt(polls, oldtotal, 0) <==> settles0;
      if !settles0 && 2 <= k <= |polls| {
        if !p.shutdown {
          MonitorSettled(rest, o1, k - 1);
        }
        assert (forall j :: 0 <= j < k - 1 ==> !polls[j].shutdown && !SettlesAt(polls, oldtotal, j)) <==>
          (!p.shutdown && forall j :: 0 <= j < k - 2 ==> !rest[j].shutdown && !SettlesAt(rest, o1, j));
      }
    }
  }

  // ---------------------------------------------------------------------
  // The harness state

  class Harness {
    /** `_shutdown`. */
    var shutdown: bool
    /** `total`: the sum of the samples. */
    var total: int
    /** `ntotal`: the number of samples. */
    var ntotal: nat

    /** The statics before the test runs. */
    constructor ()
      ensures !shutdown && total == 0 && ntotal == 0
    {
      shutdown, total, ntotal := false, 0, 0;
    }

    /** shut_me_down: `_shutdown` = 1 and return 0. */
    method ShutMeDown() returns (rc: int)
      modifies this
      ensures shutdown && rc == 0
      ensures total == old(total) && ntotal == old(ntotal)
    {
      shutdown := true;
      rc := 0;
    }

    /** mrkthr_yield in r: another thread may run shut_me_down meanwhile (`raised`). */
    method Yield(raised: bool)
      modifies this
      ensures shutdown == (old(shutdown) || raised)
      ensures total == old(total) && ntotal == old(ntotal)
    {
      if raised {
        shutdown := true;
      }
    }

    /**
     * r(n), with the depth test that does not look at `_shutdown` (see
     * DepthAsWritten): it recurses down to depth NRECUR and then nyield
     * at most NITER times, stopping once `_shutdown` is up.
     */
    method R(n: nat, env: seq<bool>) returns (depth: nat, nyield: nat)
      requires |env| >= NITER
      modifies this
      ensures depth == Depth(n)
      ensures nyield == Yields(old(shutdown), env, NITER)
      ensures shutdown == RaisedBy(old(shutdown), env, nyield)
      ensures total == old(total) && ntotal == old(ntotal)
      decreases NRECUR - n
    {
      if n >= NRECUR {
        var nn := NITER;
        nyield := 0;
        while nn > 0 && !shutdown
          invariant nyield + nn == NITER
          invariant shutdown == RaisedBy(old(shutdown), env, nyield)
          invariant nyield + Yields(shutdown, env[nyield..], nn) == Yields(old(shutdown), env, NITER)
          invariant total == old(total) && ntotal == old(ntotal)
        {
          assert env[nyield..][0] == env[nyield] && env[nyield..][1..] == env[nyield + 1..];
          assert env[..nyield + 1] == env[..nyield] + [env[nyield]];
          nn := nn - 1;
          Yield(env[nyield]);
          nyield := nyield + 1;
        }
        depth := 0;
      } else {
        depth, nyield := R(n + 1, env);
        depth := depth + 1;
      }
    }

    /**
     * baz: time one call of r(0) between the clock readings `n1` and
     * `n2`, and add the sample: one more in ntotal, n2 - n1 (a uint64_t
     * difference) more in total.
     */
    method Baz(n1: u64, n2: u64, env: seq<bool>) returns (rc: int)
      requires |env| >= NITER
      modifies this
      ensures rc == 0
      ensures ntotal == old(ntotal) + 1 && total == old(total) + Wrap64(n2 - n1)
    {
      var depth, nyield := R(0, env);
      var t := Wrap64(n2 - n1);
      ntotal := ntotal + 1;
      total := total + t;
      rc := 0;
    }

    /** mrkthr_sleep(wt) in bar: what the monitor sees when it wakes. */
    method Sleep(p: Poll)
      modifies this
      ensures total == p.total && ntotal == p.ntotal && shutdown == (old(shutdown) || p.shutdown)
    {
      total, ntotal := p.total, p.ntotal;
      if p.shutdown {
        shutdown := true;
      }
    }

    /**
     * bar: spawn up to NTHREADS tasks while `_shutdown` is down, then poll
     * until it is up or the total stops changing.  Returns the number of
     * tasks spawned and how the polling ended; `polls` is what the
     * successive sleeps bring.
     */
    method Bar(polls: seq<Poll>) returns (spawned: nat, end: MonitorEnd)
      modifies this
      ensures spawned == if old(shutdown) then 0 else NTHREADS
      ensures end == Monitor(polls, old(total), old(shutdown))
    {
      var oldtotal := total;
      var n := NTHREADS;
      spawned := 0;
      while n > 0 && !shutdown
        invariant spawned + n == NTHREADS
        invariant shutdown == old(shutdown) && total == old(total)
        invariant old(shutdown) ==> spawned == 0
      {
        n := n - 1;
        spawned := spawned + 1;
      }
      var i := 0;
      while i < |polls| && !shutdown
        invariant i <= |polls|
        invariant Shift(Monitor(polls[i..], oldtotal, shutdown), i) == Monitor(polls, old(total), old(shutdown))
      {
        var p := polls[i];
        assert polls[i..][0] == p && polls[i..][1..] == polls[i + 1..];
        Sleep(p);
        i := i + 1;
        if ntotal == 0 {
          continue;
        }
        if oldtotal != 0 && total == oldtotal {
          return spawned, Settled(i);
        }
        oldtotal := total;
      }
      end := if shutdown then ShutDown(i) else Polling;
    }
  }
}
