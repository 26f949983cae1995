/**
 * IOManager::stopping (duan_src/iomanager.cc), evaluated at one instant: no timer, no pending
 * event and a stopping scheduler, and what those three tests leave possible.
 */
module IoStopping {
  import opened Common
  import C = EventCounter
  import S = SchedulerModel
  import SC = SchedulerCounts
  import SH = SchedulerHistory
  import T = TimerModel

  predicate IsStopping(timers: T.State, now: Word, pending: int, s: S.State)
    requires T.Sorted(timers.timers, timers.order)
  {
    T.GetNextTimer(timers, now).1 == ALL_ONES && pending == 0 && S.Stopping(s)
  }

  /**
   * The manager takes itself for stopped exactly when stop was called, nothing is queued or
   * held, every set bit is one that a delEvent is about to clear, no addEvent or delivery is
   * between its writes, as written no fiber was ever dispatched, and no timer is set, except
   * at time zero one for the last millisecond there is.
   */
  lemma StoppingMeansIff(code: S.Code, timers: T.State, now: Word, counter: C.Counter, h: SH.History)
    requires T.Sorted(timers.timers, timers.order) && C.Counted(counter) && SC.Counted(code, h)
    ensures IsStopping(timers, now, counter.pending, h.s) <==>
      && (timers.order == [] || (now == 0 && timers.timers[timers.order[0]].next == ALL_ONES))
      && counter.bits == C.DeletedBits(counter)
      && C.Adders(counter.threads) == {} && C.Firers(counter.threads) == {}
      && h.s.autoStop && h.s.stopping && h.s.queue == []
      && (forall w :: w in h.s.workers ==> !S.Busy(h.s.workers[w].place))
      && (code.extra == 0 || h.begun == 0)
  {
    C.CoversBitsIff(counter);
    SC.StoppingIff(code, h);
  }
}
