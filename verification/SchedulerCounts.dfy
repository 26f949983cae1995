/**
 * The two counters of the scheduler over whole runs: what they count, when stopping() can hold
 * at all, and whom a tickle wakes.
 */
module SchedulerCounts {
  import opened Common
  import opened SchedulerModel
  import opened SchedulerHistory
  import F = FiberModel

  ghost function BusyWorkers(ws: map<nat, Worker>): set<nat> { set w | w in ws && Busy(ws[w].place) }
  ghost function IdleWorkers(ws: map<nat, Worker>): set<nat> { set w | w in ws && ws[w].place.Idling? }

  /**
   * m_activeThreadCount is the number of workers that hold a task plus, as written, one for
   * every fiber dispatch that ever began; m_idleThreadCount is the number of idle workers.
   */
  ghost predicate Counted(code: Code, h: History) {
    && h.s.active == |BusyWorkers(h.s.workers)| + code.extra * h.begun
    && h.s.idle == |IdleWorkers(h.s.workers)|
  }

  lemma BusyMoves(ws: map<nat, Worker>, w: nat, worker: Worker)
    requires w in ws
    ensures |BusyWorkers(ws[w := worker])| ==
      |BusyWorkers(ws)| - (if Busy(ws[w].place) then 1 else 0) + (if Busy(worker.place) then 1 else 0)
  {
    var ws' := ws[w := worker];
    assert BusyWorkers(ws') == if Busy(worker.place) then BusyWorkers(ws) + {w} else BusyWorkers(ws) - {w};
    ElementMoves(BusyWorkers(ws), BusyWorkers(ws'), w, Busy(worker.place));
  }

  lemma IdleMoves(ws: map<nat, Worker>, w: nat, worker: Worker)
    requires w in ws
    ensures |IdleWorkers(ws[w := worker])| ==
      |IdleWorkers(ws)| - (if ws[w].place.Idling? then 1 else 0) + (if worker.place.Idling? then 1 else 0)
  {
    var ws' := ws[w := worker];
    assert IdleWorkers(ws') == if worker.place.Idling? then IdleWorkers(ws) + {w} else IdleWorkers(ws) - {w};
    ElementMoves(IdleWorkers(ws), IdleWorkers(ws'), w, worker.place.Idling?);
  }

  lemma WorkerMoves(ws: map<nat, Worker>, w: nat, worker: Worker)
    requires w in ws
    ensures |BusyWorkers(ws[w := worker])| ==
      |BusyWorkers(ws)| - (if Busy(ws[w].place) then 1 else 0) + (if Busy(worker.place) then 1 else 0)
    ensures |IdleWorkers(ws[w := worker])| ==
      |IdleWorkers(ws)| - (if ws[w].place.Idling? then 1 else 0) + (if worker.place.Idling? then 1 else 0)
  {
    hide BusyWorkers, IdleWorkers;
    BusyMoves(ws, w, worker);
    IdleMoves(ws, w, worker);
  }

  lemma CountedTurn(code: Code, h: History, w: nat, spare: nat)
    requires Counted(code, h) && CanGo(code, h, TurnOf(w, spare))
    ensures Counted(code, Record(code, h, TurnOf(w, spare)))
  {
    var s, s' := h.s, Turn(code, h.s, w, spare).s;
    TurnEffect(code, s, w, spare);
    hide BusyWorkers, IdleWorkers, Turn, FirstEligible, Handles;
    WorkerMoves(s.workers, w, s'.workers[w]);
    assert code.extra * (h.begun + 1) == code.extra * h.begun + code.extra;
  }

  lemma CountedStep(code: Code, h: History, a: Action)
    requires Counted(code, h) && CanGo(code, h, a)
    ensures Counted(code, Record(code, h, a))
  {
    var s, s' := h.s, Apply(code, h.s, a).s;
    match a {
      case TurnOf(w, spare) => CountedTurn(code, h, w, spare);
      case BackTo(w, how) => WorkerMoves(s.workers, w, s'.workers[w]);
      case RequeueOf(w) => WorkerMoves(s.workers, w, s'.workers[w]);
      case IdleBackTo(w, done) => WorkerMoves(s.workers, w, s'.workers[w]);
      case _ =>
    }
    hide BusyWorkers, IdleWorkers, Turn, FirstEligible, Handles;
  }

  lemma {:induction false} CountersAreExact(code: Code, h0: History, acts: seq<Action>, h: History)
    requires Counted(code, h0) && Reaches(code, h0, acts, h)
    ensures Counted(code, h)
    decreases |acts|
  {
    if acts != [] {
      CountedStep(code, h0, acts[0]);
      CountersAreExact(code, Record(code, h0, acts[0]), acts[1..], h);
    }
  }

  /** From the start, with workers of any threads. */
  lemma CountersFromTheStart(code: Code, threads: set<nat>, acts: seq<Action>, h: History)
    requires Reaches(code, Begin(threads), acts, h)
    ensures Counted(code, h)
  {
    BeginIsCounted(code, threads);
    CountersAreExact(code, Begin(threads), acts, h);
  }

  /**
   * stopping() holds exactly when it was asked for, the queue is empty, no worker is between
   * taking a task and counting down, and, as the code is written, no fiber was ever dispatched.
   */
  lemma StoppingIff(code: Code, h: History)
    requires Counted(code, h)
    ensures Stopping(h.s) <==>
      && h.s.autoStop && h.s.stopping && h.s.queue == []
      && (forall w :: w in h.s.workers ==> !Busy(h.s.workers[w].place))
      && (code.extra == 0 || h.begun == 0)
  {
    var busy := BusyWorkers(h.s.workers);
    assert code.extra * h.begun >= 0 && (code.extra * h.begun == 0 <==> code.extra == 0 || h.begun == 0);
    if busy == {} {
      forall w | w in h.s.workers ensures !Busy(h.s.workers[w].place) { assert w !in busy; }
    } else {
      var w :| w in busy;
      assert |busy| > 0 && Busy(h.s.workers[w].place);
    }
  }

  /** No idle fiber has ended, so no worker is on its way out. */
  ghost predicate NobodyLeaves(h: History) {
    forall w :: w in h.s.workers ==> h.s.workers[w].idle != F.TERM && !h.s.workers[w].place.Left?
  }

  /**
   * As written, one dispatched fiber keeps every worker that has not yet seen stopping() from
   * ever leaving.
   */
  lemma {:induction false} FiberDispatchPreventsStop(h0: History, acts: seq<Action>, h: History)
    requires Counted(AS_WRITTEN, h0) && h0.begun > 0 && NobodyLeaves(h0) && Reaches(AS_WRITTEN, h0, acts, h)
    ensures NobodyLeaves(h) && !Stopping(h.s)
    decreases |acts|
  {
    StoppingIff(AS_WRITTEN, h0);
    if acts != [] {
      CountedStep(AS_WRITTEN, h0, acts[0]);
      NobodyLeavesStep(AS_WRITTEN, h0, acts[0]);
      FiberDispatchPreventsStop(Record(AS_WRITTEN, h0, acts[0]), acts[1..], h);
    }
  }

  lemma NobodyLeavesStep(code: Code, h: History, a: Action)
    requires NobodyLeaves(h) && CanGo(code, h, a) && !Stopping(h.s)
    ensures NobodyLeaves(Record(code, h, a))
    ensures Record(code, h, a).begun >= h.begun
  {
    match a
    case TurnOf(w, spare) =>
      TurnEffect(code, h.s, w, spare);
      hide Turn, FirstEligible, Without, Handles;
    case _ =>
  }

  /** IOManager::tickle writes to the pipe, as written unless some thread is idle. */
  function TickleWrites(inverted: bool, s: State): bool {
    if inverted then !(s.idle > 0) else s.idle > 0
  }

  /**
   * As written a tickle is written exactly when nobody sleeps who could be woken; with the
   * guard the right way round, exactly when somebody does.
   */
  lemma TickleWakesIff(code: Code, h: History)
    requires Counted(code, h)
    ensures TickleWrites(true, h.s) <==> forall w :: w in h.s.workers ==> !h.s.workers[w].place.Idling?
    ensures TickleWrites(false, h.s) <==> exists w :: w in h.s.workers && h.s.workers[w].place.Idling?
  {
    var idle := IdleWorkers(h.s.workers);
    if idle == {} {
      forall w | w in h.s.workers ensures !h.s.workers[w].place.Idling? { assert w !in idle; }
    } else {
      var w :| w in idle;
      assert |idle| > 0 && h.s.workers[w].place.Idling?;
    }
  }

  lemma BeginIsCounted(code: Code, threads: set<nat>)
    ensures Counted(code, Begin(threads)) && NobodyLeaves(Begin(threads))
  {
    assert BusyWorkers(Start(threads).workers) == {} && IdleWorkers(Start(threads).workers) == {};
  }
}
