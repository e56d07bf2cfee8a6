/**
 * Context state bits, the resumable sets, the state names, the
 * expire-ticks sentinels and the stack-size constants of mnthr
 * (src/mnthr_private.h).  `co.state` is an `unsigned int`, so the bits are
 * `bv32`; `expire_ticks` is a `uint64_t`, modelled as a `nat` below 2^64.
 */
module CoStates {
  import opened Wrappers

  /** PAGE_SIZE is forced to 4096 when the platform has no constant for it. */
  const PAGE_SIZE: nat := 4096
  /** Default stack size of a new thread. */
  const STACKSIZE: nat := PAGE_SIZE * 8

  const DORMANT: bv32 := 0x01
  const RESUMED: bv32 := 0x02
  const READ: bv32 := 0x04
  const WRITE: bv32 := 0x08
  const SLEEP: bv32 := 0x10
  const OTHER_POLLER: bv32 := 0x20
  const SET_RESUME: bv32 := 0x40
  const SET_INTERRUPT: bv32 := 0x80
  const SIGNAL_SUBSCRIBE: bv32 := 0x100
  const JOIN: bv32 := 0x200
  const JOIN_INTERRUPTED: bv32 := 0x400
  const CONDWAIT: bv32 := 0x800
  const WAITFOR: bv32 := 0x1000
  const PEEK: bv32 := 0x2000

  /** States from which another thread (or the sleep queue) may wake a context. */
  const RESUMABLE_EXTERNALLY: bv32 :=
    SLEEP | SET_RESUME | SET_INTERRUPT | SIGNAL_SUBSCRIBE | JOIN |
    JOIN_INTERRUPTED | CONDWAIT | WAITFOR | PEEK

  /** All states in which a context may be switched to. */
  const RESUMABLE: bv32 := READ | WRITE | OTHER_POLLER | RESUMABLE_EXTERNALLY

  /** The fourteen states in declaration order. */
  const AllStates: seq<bv32> :=
    [DORMANT, RESUMED, READ, WRITE, SLEEP, OTHER_POLLER, SET_RESUME,
     SET_INTERRUPT, SIGNAL_SUBSCRIBE, JOIN, JOIN_INTERRUPTED, CONDWAIT,
     WAITFOR, PEEK]

  /** The name of each state, index-aligned with AllStates. */
  const StateNames: seq<string> :=
    ["DORMANT", "RESUMED", "READ", "WRITE", "SLEEP", "OTHER_POLLER",
     "SET_RESUME", "SET_INTERRUPT", "SIGNAL_SUBSCRIBE", "JOIN",
     "JOIN_INTERRUPTED", "CONDWAIT", "WAITFOR", "PEEK"]

  const UNKNOWN_STATE: string := "<unknown>"

  /** expire_ticks sentinels. */
  const U64: nat := 0x1_0000_0000_0000_0000
  const SLEEP_UNDEFINED: nat := 0
  const SLEEP_RESUME_NOW: nat := 1
  const SLEEP_FOREVER: nat := U64 - 1

  predicate IsResumable(st: bv32) { st & RESUMABLE != 0 }

  /** Exactly one bit is set. */
  predicate SingleBit(x: bv32) { x != 0 && x & (x - 1) == 0 }

  /** The bit numbers 0 .. 13 hold the fourteen states, one each. */
  lemma StatesAreDistinctBits()
    ensures |AllStates| == 14
    ensures forall i :: 0 <= i < 14 ==> AllStates[i] == (1 as bv32) << i
    ensures forall i :: 0 <= i < 14 ==> SingleBit(AllStates[i])
    ensures forall i, j :: 0 <= i < j < 14 ==> AllStates[i] & AllStates[j] == 0
  {
  }

  /** RESUMABLE is every state bit except DORMANT and RESUMED. */
  lemma ResumableSet()
    ensures RESUMABLE == 0x3FFC
    ensures !IsResumable(DORMANT) && !IsResumable(RESUMED)
    ensures forall i :: 2 <= i < 14 ==> IsResumable(AllStates[i])
    ensures RESUMABLE_EXTERNALLY & (READ | WRITE | OTHER_POLLER) == 0
  {
  }

  /**
   * CO_STATE_STR: the name of a state; "<unknown>" for any value that is not
   * exactly one of the fourteen states (including combinations of bits).
   */
  function StateStr(st: bv32): (r: string)
    ensures forall i :: 0 <= i < |AllStates| && AllStates[i] == st ==> r == StateNames[i]
    ensures st !in AllStates <==> r == UNKNOWN_STATE
  {
    if st == DORMANT then "DORMANT"
    else if st == RESUMED then "RESUMED"
    else if st == READ then "READ"
    else if st == WRITE then "WRITE"
    else if st == OTHER_POLLER then "OTHER_POLLER"
    else if st == SLEEP then "SLEEP"
    else if st == SET_RESUME then "SET_RESUME"
    else if st == SET_INTERRUPT then "SET_INTERRUPT"
    else if st == SIGNAL_SUBSCRIBE then "SIGNAL_SUBSCRIBE"
    else if st == JOIN then "JOIN"
    else if st == JOIN_INTERRUPTED then "JOIN_INTERRUPTED"
    else if st == CONDWAIT then "CONDWAIT"
    else if st == WAITFOR then "WAITFOR"
    else if st == PEEK then "PEEK"
    else UNKNOWN_STATE
  }

  /** Reads a state back from its name (the partner of StateStr). */
  function StateOfName(name: string): (r: Option<bv32>)
  {
    if name == "DORMANT" then Some(DORMANT)
    else if name == "RESUMED" then Some(RESUMED)
    else if name == "READ" then Some(READ)
    else if name == "WRITE" then Some(WRITE)
    else if name == "OTHER_POLLER" then Some(OTHER_POLLER)
    else if name == "SLEEP" then Some(SLEEP)
    else if name == "SET_RESUME" then Some(SET_RESUME)
    else if name == "SET_INTERRUPT" then Some(SET_INTERRUPT)
    else if name == "SIGNAL_SUBSCRIBE" then Some(SIGNAL_SUBSCRIBE)
    else if name == "JOIN" then Some(JOIN)
    else if name == "JOIN_INTERRUPTED" then Some(JOIN_INTERRUPTED)
    else if name == "CONDWAIT" then Some(CONDWAIT)
    else if name == "WAITFOR" then Some(WAITFOR)
    else if name == "PEEK" then Some(PEEK)
    else None
  }

  /** The names are pairwise different: every state is recovered from its name. */
  lemma StateStrRoundTrip(st: bv32)
    ensures StateOfName(StateStr(st)) == if st in AllStates then Some(st) else None
  {
  }

  /** The sentinels are distinct and FOREVER is UINTMAX_MAX on a 64-bit target. */
  lemma SentinelsDistinct()
    ensures SLEEP_UNDEFINED < SLEEP_RESUME_NOW < SLEEP_FOREVER
    ensures SLEEP_FOREVER == 0xFFFF_FFFF_FFFF_FFFF
  {
  }

  /** The default stack is eight pages, a page multiple inside the clamp range. */
  lemma DefaultStack()
    ensures STACKSIZE == 32768 && STACKSIZE % PAGE_SIZE == 0
    ensures 2 * PAGE_SIZE <= STACKSIZE <= 2048 * PAGE_SIZE
  {
  }
}
