/**
 * How long IOManager::idle sleeps (duan_src/iomanager.cc): a 64-bit wait, clamped after a
 * narrowing cast, handed to epoll_wait as an int, and recomputed after every interruption.
 */
module IdleWait {
  import opened Common
  import T = TimerModel

  const TWO_TO_THE_31: int := 0x8000_0000
  const TWO_TO_THE_32: int := 0x1_0000_0000
  const MAX_TIMEOUT: Word := 3000

  /** The cast to int: the low 32 bits, read as a signed number. */
  function ToInt32(w: Word): int {
    var low := w % TWO_TO_THE_32;
    if low < TWO_TO_THE_31 then low else low - TWO_TO_THE_32
  }

  /** What one round of the do loop makes of next_timeout. */
  function Clamped(wait: Word): Word {
    if wait == ALL_ONES then MAX_TIMEOUT
    else if ToInt32(wait) > MAX_TIMEOUT then MAX_TIMEOUT
    else wait
  }

  /** The do loop, interrupted `interrupts` times: the timeout of the last epoll_wait. */
  method EpollTimeout(wait: Word, interrupts: nat) returns (timeout: int)
    ensures timeout == ToInt32(Clamped(wait))
  {
    var nextTimeout: Word := wait;
    var left := interrupts;
    ClampedTwice(wait);
    while true
      invariant Clamped(nextTimeout) == Clamped(wait)
      decreases left
    {
      if nextTimeout != ALL_ONES {
        nextTimeout := if ToInt32(nextTimeout) > MAX_TIMEOUT then MAX_TIMEOUT else nextTimeout;
      } else {
        nextTimeout := MAX_TIMEOUT;
      }
      timeout := ToInt32(nextTimeout);
      if left == 0 {
        return;
      }
      left := left - 1;
    }
  }

  /** An interrupted wait is retried with the same timeout. */
  lemma ClampedTwice(wait: Word)
    ensures Clamped(Clamped(wait)) == Clamped(wait)
    ensures Clamped(wait) != ALL_ONES
  {
  }

  /**
   * The timeout is a proper one exactly when the cast loses no sign; otherwise epoll_wait is
   * handed a negative number and blocks without limit. Up to 2^31 it is the smaller of the
   * wait and three seconds, and a proper timeout is never longer than the wait.
   */
  lemma TimeoutIff(wait: Word)
    ensures var timeout := ToInt32(Clamped(wait));
      && (0 <= timeout <= 3000 <==> wait == ALL_ONES || wait % TWO_TO_THE_32 < TWO_TO_THE_31)
      && (wait < TWO_TO_THE_31 ==> timeout == if wait < 3000 then wait else 3000)
      && (wait == ALL_ONES ==> timeout == 3000)
      && (0 <= timeout && wait != ALL_ONES ==> timeout <= wait)
  {
    if wait < TWO_TO_THE_32 {
      assert wait % TWO_TO_THE_32 == wait;
    }
    assert ToInt32(wait) <= wait;
  }

  /** The repair: compare before the cast. */
  function ClampedFirst(wait: Word): Word {
    if wait > MAX_TIMEOUT then MAX_TIMEOUT else wait
  }

  /**
   * Comparing first makes the timeout the smaller of the wait and three seconds, for every
   * wait; the code gets there exactly when it need not clamp or the cast keeps the comparison.
   */
  lemma ComparedFirstIff(wait: Word)
    ensures var smaller := if wait < 3000 then wait else 3000;
      && ToInt32(ClampedFirst(wait)) == smaller
      && (ToInt32(Clamped(wait)) == smaller <==>
            wait == ALL_ONES || wait <= 3000 || 3000 <= wait % TWO_TO_THE_32 < TWO_TO_THE_31)
  {
    if wait < TWO_TO_THE_32 {
      assert wait % TWO_TO_THE_32 == wait;
    }
    assert 0 <= wait % TWO_TO_THE_32 < TWO_TO_THE_32;
    assert MAX_TIMEOUT % TWO_TO_THE_32 == MAX_TIMEOUT;
  }

  /** A timer 2^31 ms away makes the idle thread block without limit; one 2^32 ms away makes it spin. */
  lemma FarTimerExamples()
    ensures ToInt32(Clamped(TWO_TO_THE_31)) == -TWO_TO_THE_31
    ensures ToInt32(Clamped(TWO_TO_THE_32)) == 0
  {
  }

  /** Whoever sleeps for a proper timeout from the reading of getNextTimer wakes before any timer is overdue. */
  lemma NeverOversleeps(s: T.State, now: Word, later: Word)
    requires T.Sorted(s.timers, s.order) && s.order != [] && !T.Rollover(s.previous, now)
    requires var d := T.GetNextTimer(s, now).1; d == ALL_ONES || d % TWO_TO_THE_32 < TWO_TO_THE_31
    requires var d := T.GetNextTimer(s, now).1; now <= later < now + ToInt32(Clamped(d))
    ensures T.Due(s.timers, s.order, later) == []
  {
    var d := T.GetNextTimer(s, now).1;
    TimeoutIff(d);
    T.WaitIsExact(s, now, 0);
  }
}
