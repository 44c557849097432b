/** The election timer: the randomized timeout, the elapsed-time measure and the fire test of the
    polling loop, on an integer clock of milliseconds counted from the Unix epoch. */
module ElectionTimer {

  /** The timeout is `300 + rand.Intn(900)` milliseconds, drawn once per peer. */
  const TimeoutBase: int := 300
  const TimeoutSpread: int := 900
  const MinTimeout: int := 300
  const MaxTimeout: int := 1199

  /** The largest magnitude `time.Duration.Milliseconds()` can return: a duration saturates at
      2^63 - 1 nanoseconds (and at -2^63), whose millisecond count truncates to this. */
  const MaxIntervalMs: int := 9_223_372_036_854

  /** Go's zero `time.Time` (January 1 of year 1, UTC), in milliseconds from the Unix epoch:
      the value of `lastTime` in a peer that has never heard from a leader or granted a vote. */
  const ZeroTime: int := -62_135_596_800_000

  predicate ValidTimeout(timeout: int) {
    MinTimeout <= timeout <= MaxTimeout
  }

  /** The timeout drawn from the random value r, where `rand.Intn(900)` yields 0 <= r < 900. */
  function DrawTimeout(r: int): (timeout: int)
    requires 0 <= r < TimeoutSpread
    ensures ValidTimeout(timeout)
    ensures timeout - TimeoutBase == r
  {
    TimeoutBase + r
  }

  /** Every timeout of the range is drawn by exactly one random value. */
  lemma DrawTimeoutOnto(timeout: int)
    requires ValidTimeout(timeout)
    ensures exists r :: 0 <= r < TimeoutSpread && DrawTimeout(r) == timeout
  {
    assert DrawTimeout(timeout - TimeoutBase) == timeout;
  }

  /** `int(now.Sub(last).Milliseconds())`: the elapsed milliseconds, saturated the way a Go
      duration saturates. */
  function Interval(now: int, last: int): (d: int)
    ensures -MaxIntervalMs <= d <= MaxIntervalMs
    ensures -MaxIntervalMs <= now - last <= MaxIntervalMs ==> d == now - last
    ensures now - last > MaxIntervalMs ==> d == MaxIntervalMs
    ensures now - last < -MaxIntervalMs ==> d == -MaxIntervalMs
  {
    var diff := now - last;
    if diff > MaxIntervalMs then MaxIntervalMs
    else if diff < -MaxIntervalMs then -MaxIntervalMs
    else diff
  }

  /** The poll of `electionTask` launches an election when `interval >= timeout`. */
  function Fires(interval: int, timeout: int): (b: bool)
    // below the shortest timeout no peer fires; from the longest one on every peer does
    ensures ValidTimeout(timeout) && interval < MinTimeout ==> !b
    ensures ValidTimeout(timeout) && interval >= MaxTimeout ==> b
  {
    interval >= timeout
  }

  /** A peer that has never reset its timer fires on its first poll at any clock reading after
      the Unix epoch, whatever its timeout. */
  lemma InitialPollFires(now: int, timeout: int)
    requires now >= 0 && ValidTimeout(timeout)
    ensures Fires(Interval(now, ZeroTime), timeout)
  {
  }

  /** After `lastTime` is reset at `reset`, the poll fires at `now` exactly when a full
      timeout has gone by since then. */
  lemma FiresIffTimeoutElapsed(reset: int, now: int, timeout: int)
    requires reset <= now && ValidTimeout(timeout)
    ensures Fires(Interval(now, reset), timeout) <==> now - reset >= timeout
  {
  }
}
