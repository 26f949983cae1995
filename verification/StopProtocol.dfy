/**
 * How the workers of an IOManager come to stop (duan_src/iomanager.cc, duan_src/scheduler.cc):
 * IOManager::stopping reads the timers, then the event count, then the scheduler, under three
 * different locks, while other workers are between writes of their own. Nothing is submitted
 * from outside and stop has been called; what tasks, timers and events do is arbitrary.
 */
module StopProtocol {

  /**
   * Where a worker is: at the loop head; in a task; counted down but still to re-enqueue a READY
   * fiber; in idle before any reading, after one, after two; waiting; with the callbacks of `n`
   * expired timers in a local vector; serving events, also between the submission and the
   * count-down of one; gone.
   */
  datatype Place =
    | Head
    | InTask
    | Yielded
    | Idling
    | SawNoTimer
    | SawNoEvent
    | Waiting
    | Carrying(n: nat)
    | Serving
    | Fired
    | Left

  /** `ended` says that the worker's idle fiber is over. */
  datatype Worker = Worker(place: Place, ended: bool)

  /** `events` is the number of registered events; the pending counter also has those being delivered. */
  datatype State = State(timers: nat, events: nat, queue: nat, workers: map<nat, Worker>)

  /**
   * As written the readings are not joint, and work a worker carries is not counted as active;
   * counting it is the repair (count up around the collecting and delivering of callbacks, and
   * count down after the re-enqueueing instead of before).
   */
  datatype Variant = Variant(joint: bool, counted: bool)

  datatype Step =
    | Take(w: nat)
    | SetTimer(w: nat)
    | CancelTimer(w: nat)
    | Register(w: nat)
    | DropEvent(w: nat)
    | Submit(w: nat)
    | Finish(w: nat)
    | Yield(w: nat)
    | Requeue(w: nat)
    | FindNothing(w: nat)
    | ReadTimers(w: nat)
    | ReadEvents(w: nat)
    | ReadScheduler(w: nat)
    | ReadAll(w: nat)
    | Collect(w: nat, fired: nat, again: nat)
    | Deliver(w: nat)
    | Trigger(w: nat)
    | CountDown(w: nat)
    | Rest(w: nat)

  /** Work that neither the queue nor, as written, the active count shows. */
  predicate Hidden(p: Place) {
    p.Yielded? || p.Carrying?
  }

  ghost predicate NothingHidden(s: State) {
    forall w :: w in s.workers ==> !Hidden(s.workers[w].place)
  }

  /** The active count is zero. */
  ghost predicate NoneActive(v: Variant, s: State) {
    forall w :: w in s.workers ==> !s.workers[w].place.InTask? && (v.counted ==> !Hidden(s.workers[w].place))
  }

  /** The pending counter is zero. */
  ghost predicate NonePending(s: State) {
    s.events == 0 && forall w :: w in s.workers ==> !s.workers[w].place.Fired?
  }

  ghost predicate Enabled(v: Variant, s: State, a: Step) {
    && a.w in s.workers
    && var place := s.workers[a.w].place;
    match a
    case Take(_) => place.Head? && s.queue > 0
    case SetTimer(_) => place.InTask?
    case CancelTimer(_) => place.InTask? && s.timers > 0
    case Register(_) => place.InTask?
    case DropEvent(_) => place.InTask? && s.events > 0
    case Submit(_) => place.InTask?
    case Finish(_) => place.InTask?
    case Yield(_) => place.InTask?
    case Requeue(_) => place.Yielded?
    case FindNothing(_) => place.Head?
    case ReadTimers(_) => !v.joint && place.Idling?
    case ReadEvents(_) => !v.joint && place.SawNoTimer?
    case ReadScheduler(_) => !v.joint && place.SawNoEvent?
    case ReadAll(_) => v.joint && place.Idling?
    case Collect(_, fired, again) => place.Waiting? && again <= fired <= s.timers
    case Deliver(_) => place.Carrying?
    case Trigger(_) => place.Serving? && s.events > 0
    case CountDown(_) => place.Fired?
    case Rest(_) => place.Serving?
  }

  function At(s: State, w: nat, place: Place): State
    requires w in s.workers
  {
    s.(workers := s.workers[w := s.workers[w].(place := place)])
  }

  /** The last reading finds nothing: the idle fiber ends. */
  ghost predicate Decides(v: Variant, s: State, a: Step) {
    match a
    case ReadScheduler(_) => s.queue == 0 && NoneActive(v, s)
    case ReadAll(_) => s.timers == 0 && NonePending(s) && s.queue == 0 && NoneActive(v, s)
    case _ => false
  }

  ghost function Next(v: Variant, s: State, a: Step): State
    requires Enabled(v, s, a)
  {
    match a
    case Take(w) => At(s.(queue := s.queue - 1), w, InTask)
    case SetTimer(_) => s.(timers := s.timers + 1)
    case CancelTimer(_) => s.(timers := s.timers - 1)
    case Register(_) => s.(events := s.events + 1)
    case DropEvent(_) => s.(events := s.events - 1)
    case Submit(_) => s.(queue := s.queue + 1)
    case Finish(w) => At(s, w, Head)
    case Yield(w) => At(s, w, Yielded)
    case Requeue(w) => At(s.(queue := s.queue + 1), w, Head)
    case FindNothing(w) => At(s, w, if s.workers[w].ended then Left else Idling)
    case ReadTimers(w) => At(s, w, if s.timers == 0 then SawNoTimer else Waiting)
    case ReadEvents(w) => At(s, w, if NonePending(s) then SawNoEvent else Waiting)
    case ReadScheduler(w) =>
      if Decides(v, s, a) then s.(workers := s.workers[w := Worker(Head, true)]) else At(s, w, Waiting)
    case ReadAll(w) => if Decides(v, s, a) then s.(workers := s.workers[w := Worker(Head, true)]) else At(s, w, Waiting)
    case Collect(w, fired, again) =>
      At(s.(timers := s.timers - fired + again), w, if fired == 0 then Serving else Carrying(fired))
    case Deliver(w) => At(s.(queue := s.queue + s.workers[w].place.n), w, Serving)
    case Trigger(w) => At(s.(events := s.events - 1, queue := s.queue + 1), w, Fired)
    case CountDown(w) => At(s, w, Serving)
    case Rest(w) => At(s, w, Head)
  }

  ghost predicate Runs(v: Variant, s0: State, steps: seq<Step>, s: State)
    decreases |steps|
  {
    if steps == [] then s == s0
    else Enabled(v, s0, steps[0]) && Runs(v, Next(v, s0, steps[0]), steps[1..], s)
  }

  /** Nothing is set, registered, queued, in execution or under way. */
  ghost predicate Quiet(s: State) {
    && s.timers == 0 && NonePending(s) && s.queue == 0 && NothingHidden(s)
    && forall w :: w in s.workers ==> !s.workers[w].place.InTask?
  }

  ghost predicate AllLeft(s: State) {
    s.workers != map[] && forall w :: w in s.workers ==> s.workers[w].place.Left?
  }

  // ---------------------------------------------- what keeps decisions right

  /** Nobody has decided to stop while there was anything to do, and only those who decided leave. */
  ghost predicate Sound(s: State) {
    forall w :: w in s.workers ==>
      && (s.workers[w].ended ==> Quiet(s))
      && (s.workers[w].place.Left? ==> s.workers[w].ended)
  }

  /** What a worker between its readings has seen is still so. */
  ghost predicate ReadingsHold(s: State) {
    forall w :: w in s.workers ==>
      && (s.workers[w].place.SawNoTimer? ==> s.timers == 0)
      && (s.workers[w].place.SawNoEvent? ==> s.timers == 0 && NonePending(s))
  }

  /** No task sets a timer or registers an event behind the back of a worker that has read there is none. */
  ghost predicate Undisturbed(s: State, a: Step) {
    && (a.SetTimer? ==>
          forall w :: w in s.workers ==> !s.workers[w].place.SawNoTimer? && !s.workers[w].place.SawNoEvent?)
    && (a.Register? ==> forall w :: w in s.workers ==> !s.workers[w].place.SawNoEvent?)
  }

  /** Readings stay true through a step exactly when it does not disturb them. */
  lemma ReadingsHoldIff(v: Variant, s: State, a: Step)
    requires ReadingsHold(s) && Enabled(v, s, a)
    ensures ReadingsHold(Next(v, s, a)) <==> Undisturbed(s, a)
  {
    var s' := Next(v, s, a);
    if a.SetTimer? || a.Register? {
      assert s'.workers == s.workers;
    }
    if a.Trigger? {
      assert forall w :: w in s.workers ==> !s.workers[w].place.SawNoEvent?;
    }
  }

  /** A quiet state stays quiet. */
  lemma QuietStays(v: Variant, s: State, a: Step)
    requires Quiet(s) && Enabled(v, s, a)
    ensures Quiet(Next(v, s, a))
  {
    var place := s.workers[a.w].place;
    assert !place.InTask? && !place.Yielded? && !place.Carrying? && !place.Fired?;
  }

  /** A step keeps decisions right exactly when it is no decision, or nobody carries hidden work. */
  lemma SoundIff(v: Variant, s: State, a: Step)
    requires Sound(s) && ReadingsHold(s) && Enabled(v, s, a)
    ensures Sound(Next(v, s, a)) <==> (Decides(v, s, a) ==> NothingHidden(s))
  {
    var s' := Next(v, s, a);
    if Quiet(s) {
      QuietStays(v, s, a);
    } else if Decides(v, s, a) {
      assert s'.workers[a.w].ended;
      DecidingChanges(v, s, a);
    }
  }

  /** Deciding changes nothing but the worker, and finds everything quiet but for hidden work. */
  lemma DecidingChanges(v: Variant, s: State, a: Step)
    requires ReadingsHold(s) && Enabled(v, s, a) && Decides(v, s, a)
    ensures Quiet(s) <==> NothingHidden(s)
    ensures Quiet(Next(v, s, a)) <==> NothingHidden(s)
  {
    var s' := Next(v, s, a);
    assert forall w :: w in s.workers && w != a.w ==> s'.workers[w] == s.workers[w];
    assert !Hidden(s.workers[a.w].place) && !s.workers[a.w].place.Fired?;
    assert NothingHidden(s') <==> NothingHidden(s);
  }

  ghost predicate Careful(v: Variant, s: State, a: Step) {
    Undisturbed(s, a) && (Decides(v, s, a) ==> NothingHidden(s))
  }

  /** The exact condition for a step, in every variant. */
  lemma CarefulIff(v: Variant, s: State, a: Step)
    requires Sound(s) && ReadingsHold(s) && Enabled(v, s, a)
    ensures Sound(Next(v, s, a)) && ReadingsHold(Next(v, s, a)) <==> Careful(v, s, a)
  {
    SoundIff(v, s, a);
    ReadingsHoldIff(v, s, a);
    hide Sound, ReadingsHold;
  }

  ghost predicate AllCareful(v: Variant, s: State, steps: seq<Step>)
    decreases |steps|
  {
    steps == [] || (Enabled(v, s, steps[0]) && Careful(v, s, steps[0])
      && AllCareful(v, Next(v, s, steps[0]), steps[1..]))
  }

  /**
   * In every variant and over every run: as long as no reading is disturbed and no decision
   * falls while work is hidden, nobody leaves while anything is left to do.
   */
  lemma {:induction false} CarefulStopIsFinal(v: Variant, s0: State, steps: seq<Step>, s: State)
    requires Sound(s0) && ReadingsHold(s0) && Runs(v, s0, steps, s) && AllCareful(v, s0, steps)
    ensures Sound(s) && ReadingsHold(s)
    ensures (exists w :: w in s.workers && s.workers[w].place.Left?) ==> Quiet(s)
    ensures AllLeft(s) ==> Quiet(s)
    decreases |steps|
  {
    if steps == [] {
      if AllLeft(s) {
        var w :| w in s.workers;
        assert s.workers[w].place.Left?;
      }
    } else {
      CarefulIff(v, s0, steps[0]);
      CarefulStopIsFinal(v, Next(v, s0, steps[0]), steps[1..], s);
    }
  }

  // ----------------------------------------------------- nothing is lost

  /** Work a worker carries. */
  function Weight(p: Place): nat {
    match p
    case Yielded => 1
    case Carrying(n) => n
    case _ => 0
  }

  ghost function Carried(ws: map<nat, Worker>): nat
    decreases |ws|
  {
    if ws == map[] then 0
    else
      var w :| w in ws;
      Smaller(ws, w);
      Weight(ws[w].place) + Carried(ws - {w})
  }

  lemma Smaller(ws: map<nat, Worker>, w: nat)
    requires w in ws
    ensures |ws - {w}| < |ws|
  {
    assert (ws - {w}).Keys == ws.Keys - {w};
    assert |ws.Keys - {w}| < |ws.Keys|;
    assert |ws - {w}| == |(ws - {w}).Keys| && |ws| == |ws.Keys|;
  }

  lemma {:induction false} CarriedBy(ws: map<nat, Worker>, w: nat)
    requires w in ws
    ensures Carried(ws) == Weight(ws[w].place) + Carried(ws - {w})
    decreases |ws|
  {
    var v :| v in ws && Carried(ws) == Weight(ws[v].place) + Carried(ws - {v});
    if v != w {
      Smaller(ws, v);
      Smaller(ws, w);
      CarriedBy(ws - {v}, w);
      CarriedBy(ws - {w}, v);
      assert ws - {v} - {w} == ws - {w} - {v};
    }
  }

  /** Everything set, registered, queued or carried. */
  ghost function Work(s: State): nat {
    s.timers + s.events + s.queue + Carried(s.workers)
  }

  /** Work a step brings in: a recurring timer that fires is set again, a fiber that yields is to go on. */
  function Made(a: Step): nat {
    match a
    case SetTimer(_) => 1
    case Register(_) => 1
    case Submit(_) => 1
    case Yield(_) => 1
    case Collect(_, _, again) => again
    case _ => 0
  }

  /** Work a step takes out: a task begun, a timer cancelled, an event deleted. */
  function Done(a: Step): nat {
    if a.Take? || a.CancelTimer? || a.DropEvent? then 1 else 0
  }

  function AllMade(steps: seq<Step>): nat {
    if steps == [] then 0 else Made(steps[0]) + AllMade(steps[1..])
  }

  function AllDone(steps: seq<Step>): nat {
    if steps == [] then 0 else Done(steps[0]) + AllDone(steps[1..])
  }

  lemma CarriedMoves(ws: map<nat, Worker>, w: nat, worker: Worker)
    requires w in ws
    ensures Carried(ws[w := worker]) + Weight(ws[w].place) == Carried(ws) + Weight(worker.place)
  {
    CarriedBy(ws, w);
    CarriedBy(ws[w := worker], w);
    assert ws[w := worker] - {w} == ws - {w};
  }

  lemma WorkMoves(v: Variant, s: State, a: Step)
    requires Enabled(v, s, a)
    ensures Work(Next(v, s, a)) + Done(a) == Work(s) + Made(a)
  {
    var s' := Next(v, s, a);
    CarriedMoves(s.workers, a.w, s'.workers[a.w]);
    assert s'.workers == s.workers[a.w := s'.workers[a.w]];
    hide Carried;
  }

  /** In every variant and over every run no work appears or disappears but by what the steps do. */
  lemma {:induction false} WorkIsConserved(v: Variant, s0: State, steps: seq<Step>, s: State)
    requires Runs(v, s0, steps, s)
    ensures Work(s) + AllDone(steps) == Work(s0) + AllMade(steps)
    decreases |steps|
  {
    if steps != [] {
      WorkMoves(v, s0, steps[0]);
      WorkIsConserved(v, Next(v, s0, steps[0]), steps[1..], s);
    }
  }

  lemma {:induction false} NothingCarried(ws: map<nat, Worker>)
    requires forall w :: w in ws ==> Weight(ws[w].place) == 0
    ensures Carried(ws) == 0
    decreases |ws|
  {
    if ws != map[] {
      var w :| w in ws;
      CarriedBy(ws, w);
      Smaller(ws, w);
      NothingCarried(ws - {w});
    }
  }

  /** When all have left after a careful run, everything there ever was to do has been done, exactly once. */
  lemma AllIsDone(v: Variant, s0: State, steps: seq<Step>, s: State)
    requires Sound(s0) && ReadingsHold(s0) && Runs(v, s0, steps, s) && AllCareful(v, s0, steps) && AllLeft(s)
    ensures AllDone(steps) == Work(s0) + AllMade(steps)
  {
    CarefulStopIsFinal(v, s0, steps, s);
    WorkIsConserved(v, s0, steps, s);
    NothingCarried(s.workers);
  }

  // ------------------------------------------------------------- the repairs

  ghost predicate AllUndisturbed(v: Variant, s: State, steps: seq<Step>)
    decreases |steps|
  {
    steps == [] || (Enabled(v, s, steps[0]) && Undisturbed(s, steps[0])
      && AllUndisturbed(v, Next(v, s, steps[0]), steps[1..]))
  }

  /** With carried work counted, three readings one by one are safe as long as nothing disturbs them. */
  lemma {:induction false} UndisturbedStopIsFinal(v: Variant, s0: State, steps: seq<Step>, s: State)
    requires v.counted && Sound(s0) && ReadingsHold(s0) && Runs(v, s0, steps, s) && AllUndisturbed(v, s0, steps)
    ensures Sound(s) && (AllLeft(s) ==> Quiet(s))
  {
    CountedIsCareful(v, s0, steps);
    CarefulStopIsFinal(v, s0, steps, s);
  }

  lemma {:induction false} CountedIsCareful(v: Variant, s: State, steps: seq<Step>)
    requires v.counted && AllUndisturbed(v, s, steps)
    ensures AllCareful(v, s, steps)
    decreases |steps|
  {
    if steps != [] {
      CountedIsCareful(v, Next(v, s, steps[0]), steps[1..]);
    }
  }

  ghost predicate NobodyReads(s: State) {
    forall w :: w in s.workers ==> !s.workers[w].place.SawNoTimer? && !s.workers[w].place.SawNoEvent?
  }

  /** With carried work counted and one joint reading nothing is asked of the run. */
  lemma {:induction false} JointCountedStopIsFinal(s0: State, steps: seq<Step>, s: State)
    requires Sound(s0) && NobodyReads(s0) && Runs(Variant(true, true), s0, steps, s)
    ensures Sound(s) && (AllLeft(s) ==> Quiet(s))
  {
    JointIsUndisturbed(true, s0, steps, s);
    UndisturbedStopIsFinal(Variant(true, true), s0, steps, s);
  }

  lemma {:induction false} JointIsUndisturbed(counted: bool, s0: State, steps: seq<Step>, s: State)
    requires NobodyReads(s0) && Runs(Variant(true, counted), s0, steps, s)
    ensures AllUndisturbed(Variant(true, counted), s0, steps)
    decreases |steps|
  {
    if steps != [] {
      var s1 := Next(Variant(true, counted), s0, steps[0]);
      assert NobodyReads(s1);
      JointIsUndisturbed(counted, s1, steps[1..], s);
    }
  }
}
