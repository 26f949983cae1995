/**
 * Scheduler (duan_src/scheduler.cc, duan_src/scheduler.h) as a step system: any number of
 * workers share one queue. A step is a lock region with the state change behind it: from the
 * head of the loop until a fiber runs, or from a fiber giving up control to the loop head.
 */
module SchedulerModel {
  import opened Common
  import opened FiberModel

  /** FiberAndThread; without a pin any thread may take it. */
  datatype Entry = Entry(task: Task, pin: Option<nat>)

  /**
   * Where a worker's run() is: at the loop head, in a fiber, in a callback inside fiber `f`,
   * about to re-enqueue the READY fiber `f` after counting down, idle, gone.
   */
  datatype Place = Head | InFiber(f: nat) | InCallback(f: nat, c: nat) | Requeueing(f: nat) | Idling | Left

  /** `cbFiber` is the fiber kept for callbacks, `idle` the state of the idle fiber. */
  datatype Worker = Worker(place: Place, cbFiber: Option<nat>, idle: FiberState)

  /** `hollow` are the fibers whose function is empty: used up, or reset with none. */
  datatype State = State(
    queue: seq<Entry>,
    fibers: map<nat, FiberState>,
    hollow: set<nat>,
    workers: map<nat, Worker>,
    active: int,
    idle: int,
    autoStop: bool,
    stopping: bool)

  /**
   * The two places where the code departs from its intent. As written `extra` is 1, the second
   * increment for a fiber (line 199), and `guarded` is false, the test at line 198 that no
   * state fails.
   */
  datatype Code = Code(extra: nat, guarded: bool)

  const AS_WRITTEN := Code(1, false)
  const REPAIRED := Code(0, true)

  /** A step runs, or a failed assertion of fiber.cc stops the process. */
  datatype Outcome = Ran(s: State) | Aborted(line: nat)

  predicate Executing(fibers: map<nat, FiberState>, task: Task) {
    task.FiberTask? && task.f in fibers && fibers[task.f] == EXEC
  }

  /** The scan passes over entries for other threads and over fibers in execution. */
  predicate Eligible(fibers: map<nat, FiberState>, e: Entry, w: nat) {
    (e.pin == None || e.pin == Some(w)) && !Executing(fibers, e.task)
  }

  /** Index of the first entry the scan of worker `w` takes, or the length of the queue. */
  function FirstEligible(queue: seq<Entry>, fibers: map<nat, FiberState>, w: nat): (i: nat)
    ensures i <= |queue|
    ensures forall k :: 0 <= k < i ==> !Eligible(fibers, queue[k], w)
    ensures i < |queue| ==> Eligible(fibers, queue[i], w)
  {
    if queue == [] || Eligible(fibers, queue[0], w) then 0
    else
      var rest := FirstEligible(queue[1..], fibers, w);
      assert forall k :: 0 < k < 1 + rest ==> queue[k] == queue[1..][k - 1];
      1 + rest
  }

  function Without<T>(s: seq<T>, i: nat): seq<T>
    requires i < |s|
  {
    s[..i] + s[i + 1..]
  }

  predicate Finished(state: FiberState) {
    state.TERM? || state.EXCEPT?
  }

  /** Holding a task, between taking it and counting down. */
  predicate Busy(p: Place) {
    p.InFiber? || p.InCallback?
  }

  function At(s: State, w: nat, place: Place): State
    requires w in s.workers
  {
    s.(workers := s.workers[w := s.workers[w].(place := place)])
  }

  /** scheduleNoLock. */
  function Submit(s: State, task: Task, pin: Option<nat>): State {
    s.(queue := s.queue + [Entry(task, pin)])
  }

  function Stopping(s: State): bool {
    s.autoStop && s.stopping && s.queue == [] && s.active == 0
  }

  /** A task fiber's turn; a finished one that is resumed runs into the end of MainFunc. */
  function EnterFiber(code: Code, s: State, w: nat, f: nat): Outcome
    requires w in s.workers && f in s.fibers
  {
    if code.guarded && Finished(s.fibers[f]) then Ran(s.(active := s.active - 1))
    else if s.fibers[f] == EXEC then Aborted(140)
    else if Finished(s.fibers[f]) then Aborted(236)
    else Ran(At(s.(active := s.active + code.extra, fibers := s.fibers[f := EXEC]), w, InFiber(f)))
  }

  /** A callback's turn in the fiber the worker keeps, or else in the new fiber `spare`. */
  function EnterCallback(s: State, w: nat, c: nat, spare: nat): Outcome
    requires w in s.workers
    requires s.workers[w].cbFiber.Some? ==> s.workers[w].cbFiber.value in s.fibers
  {
    match s.workers[w].cbFiber
    case Some(f) =>
      if !Resettable(s.fibers[f]) then Aborted(107)
      else Ran(At(s.(fibers := s.fibers[f := EXEC], hollow := s.hollow - {f}), w, InCallback(f, c)))
    case None =>
      Ran(s.(fibers := s.fibers[spare := EXEC], hollow := s.hollow - {spare},
              workers := s.workers[w := s.workers[w].(place := InCallback(spare, c), cbFiber := Some(spare))]))
  }

  /** From the head of the loop to the next fiber, or out of the loop. */
  function Turn(code: Code, s: State, w: nat, spare: nat): Outcome
    requires w in s.workers
    requires forall e :: e in s.queue && e.task.FiberTask? ==> e.task.f in s.fibers
    requires s.workers[w].cbFiber.Some? ==> s.workers[w].cbFiber.value in s.fibers
  {
    var i := FirstEligible(s.queue, s.fibers, w);
    if i < |s.queue| then
      var s1 := s.(queue := Without(s.queue, i), active := s.active + 1);
      match s.queue[i].task
      case FiberTask(f) => EnterFiber(code, s1, w, f)
      case CallTask(c) => EnterCallback(s1, w, c, spare)
    else if s.workers[w].idle == TERM then Ran(At(s, w, Left))
    else
      var worker := s.workers[w].(place := Idling, idle := EXEC);
      Ran(s.(idle := s.idle + 1, workers := s.workers[w := worker]))
  }

  /**
   * The fiber in execution gives up control in state `how`, and the worker counts down: READY
   * is to go back into the queue, a finished callback fiber is kept and reset, everything else
   * is on hold.
   */
  function Back(s: State, w: nat, how: FiberState): State
    requires w in s.workers && Busy(s.workers[w].place)
  {
    var f := s.workers[w].place.f;
    var keeps := s.workers[w].place.InFiber? || Finished(how);
    var state :=
      if how == READY then READY
      else if !Finished(how) then HOLD
      else if s.workers[w].place.InFiber? then how
      else INIT;
    var place := if how == READY then Requeueing(f) else Head;
    var worker := Worker(place, if keeps then s.workers[w].cbFiber else None, s.workers[w].idle);
    var empty := how == TERM || (s.workers[w].place.InCallback? && Finished(how));
    s.(active := s.active - 1,
       fibers := s.fibers[f := state],
       hollow := if empty then s.hollow + {f} else s.hollow,
       workers := s.workers[w := worker])
  }

  /** The READY fiber goes back into the queue, under the lock. */
  function Requeue(s: State, w: nat): State
    requires w in s.workers && s.workers[w].place.Requeueing?
  {
    Submit(At(s, w, Head), FiberTask(s.workers[w].place.f), None)
  }

  /** The idle fiber gives up control; `done` when it saw stopping() and ended. */
  function IdleBack(s: State, w: nat, done: bool): State
    requires w in s.workers
  {
    var worker := s.workers[w].(place := Head, idle := if done then TERM else HOLD);
    s.(idle := s.idle - 1, workers := s.workers[w := worker])
  }

  datatype Action =
    | CreateFiber(f: nat)
    | Schedule(task: Task, pin: Option<nat>)
    | Stop
    | TurnOf(w: nat, spare: nat)
    | BackTo(w: nat, how: FiberState)
    | RequeueOf(w: nat)
    | IdleBackTo(w: nat, done: bool)

  /** Handles in the queue and in workers are those of existing fibers. */
  predicate Handles(s: State) {
    && (forall e :: e in s.queue && e.task.FiberTask? ==> e.task.f in s.fibers)
    && (forall w :: w in s.workers && s.workers[w].cbFiber.Some? ==> s.workers[w].cbFiber.value in s.fibers)
    && (forall w :: w in s.workers && s.workers[w].place.Requeueing? ==> s.workers[w].place.f in s.fibers)
  }

  /**
   * A fiber that gives up control is READY, on HOLD, over, or still marked EXEC by a bare
   * swapOut; but one without a function throws at once (duan_src/fiber.cc:210-217).
   */
  predicate Enabled(s: State, a: Action) {
    match a
    case CreateFiber(f) => f !in s.fibers
    case Schedule(task, _) => task.FiberTask? ==> task.f in s.fibers
    case Stop => true
    case TurnOf(w, spare) => w in s.workers && s.workers[w].place.Head? && spare !in s.fibers && Handles(s)
    case BackTo(w, how) => w in s.workers && Busy(s.workers[w].place) && how != INIT
      && (s.workers[w].place.f in s.hollow ==> how == EXCEPT)
    case RequeueOf(w) => w in s.workers && s.workers[w].place.Requeueing?
    case IdleBackTo(w, done) => w in s.workers && s.workers[w].place.Idling? && (done ==> Stopping(s))
  }

  function Apply(code: Code, s: State, a: Action): Outcome
    requires Enabled(s, a)
  {
    match a
    case CreateFiber(f) => Ran(s.(fibers := s.fibers[f := INIT], hollow := s.hollow - {f}))
    case Schedule(task, pin) => Ran(Submit(s, task, pin))
    case Stop => Ran(s.(autoStop := true, stopping := true))
    case TurnOf(w, spare) => Turn(code, s, w, spare)
    case BackTo(w, how) => Ran(Back(s, w, how))
    case RequeueOf(w) => Ran(Requeue(s, w))
    case IdleBackTo(w, done) => Ran(IdleBack(s, w, done))
  }

  /** What a turn does besides the states of fibers: one worker moves and at most one entry goes. */
  lemma TurnEffect(code: Code, s: State, w: nat, spare: nat)
    requires Enabled(s, TurnOf(w, spare)) && Turn(code, s, w, spare).Ran?
    ensures var s' := Turn(code, s, w, spare).s;
      var i := FirstEligible(s.queue, s.fibers, w);
      && w in s'.workers && s'.workers == s.workers[w := s'.workers[w]]
      && s'.autoStop == s.autoStop && s'.stopping == s.stopping
      && var worker := s'.workers[w];
      if i < |s.queue| then
        && s'.queue == Without(s.queue, i)
        && worker.idle == s.workers[w].idle && s'.idle == s.idle
        && match s.queue[i].task
           case FiberTask(f) =>
             if worker.place == InFiber(f) then s'.active == s.active + 1 + code.extra
             else worker == s.workers[w] && s'.active == s.active
           case CallTask(c) => worker.place.InCallback? && worker.place.c == c && s'.active == s.active + 1
      else
        && s'.queue == s.queue && s'.fibers == s.fibers && s'.hollow == s.hollow && s'.active == s.active
        && if s.workers[w].idle == TERM then worker.place == Left && worker.idle == TERM && s'.idle == s.idle
           else worker.place == Idling && worker.idle == EXEC && s'.idle == s.idle + 1
  {
    var i := FirstEligible(s.queue, s.fibers, w);
    if i < |s.queue| { assert s.queue[i] in s.queue; }
    hide FirstEligible, Without, Handles;
  }

  ghost predicate Runs(code: Code, s0: State, acts: seq<Action>, s: State)
    decreases |acts|
  {
    if acts == [] then s == s0
    else Enabled(s0, acts[0]) && var o := Apply(code, s0, acts[0]); o.Ran? && Runs(code, o.s, acts[1..], s)
  }

  /** A turn on a queue of one. */
  lemma TakesTheOnlyEntry(code: Code, s: State, w: nat, spare: nat, e: Entry)
    requires w in s.workers && Handles(s) && s.queue == [e]
    ensures Turn(code, s, w, spare) ==
      if Eligible(s.fibers, e, w) then
        var s1 := s.(queue := [], active := s.active + 1);
        match e.task
        case FiberTask(f) => EnterFiber(code, s1, w, f)
        case CallTask(c) => EnterCallback(s1, w, c, spare)
      else if s.workers[w].idle == TERM then Ran(At(s, w, Left))
      else Ran(s.(idle := s.idle + 1, workers := s.workers[w := s.workers[w].(place := Idling, idle := EXEC)]))
  {
    assert FirstEligible([e][1..], s.fibers, w) == 0;
    assert e in s.queue && Without([e], 0) == [];
    hide EnterFiber, EnterCallback;
  }

  lemma RunsNone(code: Code, s: State)
    ensures Runs(code, s, [], s)
  {
  }

  lemma RunsStep(code: Code, s0: State, a: Action, s1: State, acts: seq<Action>, s: State)
    requires Enabled(s0, a) && Apply(code, s0, a) == Ran(s1) && Runs(code, s1, acts, s)
    ensures Runs(code, s0, [a] + acts, s)
  {
    assert ([a] + acts)[1..] == acts;
  }

  /** Just started, with workers of any set of threads. */
  function Start(threads: set<nat>): State {
    State([], map[], {}, map w | w in threads :: Worker(Head, None, INIT), 0, 0, false, false)
  }
}
