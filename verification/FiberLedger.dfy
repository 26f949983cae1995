/**
 * What the scheduler does with fibers, as a log of who entered what and how it came back: the
 * log tells the state of every fiber, whether it has a function, which fiber every worker
 * keeps for callbacks, and where every worker is.
 */
module FiberLedger {
  import opened Common
  import opened SchedulerModel
  import F = FiberModel

  /** CameBack is the return from swapIn, with the state the fiber gave up control in. */
  datatype Event =
    | Created(f: nat)
    | EnteredFiber(w: nat, f: nat)
    | EnteredCallback(w: nat, f: nat, c: nat)
    | CameBack(w: nat, f: nat, how: F.FiberState, fromCallback: bool)
    | Requeued(w: nat, f: nat)
    | WentIdle(w: nat)
    | IdleCameBack(w: nat, done: bool)
    | WentAway(w: nat)

  datatype Ledger = Ledger(s: State, log: seq<Event>)

  /** The one event of an action, if it has to do with fibers at all. */
  function Noted(code: Code, s: State, a: Action): Option<Event>
    requires Enabled(s, a) && Apply(code, s, a).Ran?
  {
    match a
    case CreateFiber(f) => Some(Created(f))
    case TurnOf(w, _) =>
      var i := FirstEligible(s.queue, s.fibers, w);
      var s' := Apply(code, s, a).s;
      if i == |s.queue| then
        if w in s'.workers && s'.workers[w].place.Left? then Some(WentAway(w)) else Some(WentIdle(w))
      else
        (match s.queue[i].task
         case FiberTask(f) => if code.guarded && Finished(s.fibers[f]) then None else Some(EnteredFiber(w, f))
         case CallTask(c) =>
           if w in s'.workers && s'.workers[w].place.InCallback? then Some(EnteredCallback(w, s'.workers[w].place.f, c))
           else None)
    case BackTo(w, how) => Some(CameBack(w, s.workers[w].place.f, how, s.workers[w].place.InCallback?))
    case RequeueOf(w) => Some(Requeued(w, s.workers[w].place.f))
    case IdleBackTo(w, done) => Some(IdleCameBack(w, done))
    case _ => None
  }

  function Next(code: Code, l: Ledger, a: Action): Ledger
    requires Enabled(l.s, a) && Apply(code, l.s, a).Ran?
  {
    var e := Noted(code, l.s, a);
    Ledger(Apply(code, l.s, a).s, if e.Some? then l.log + [e.value] else l.log)
  }

  ghost predicate Reaches(code: Code, l0: Ledger, acts: seq<Action>, l: Ledger)
    decreases |acts|
  {
    if acts == [] then l == l0
    else
      && Enabled(l0.s, acts[0]) && Apply(code, l0.s, acts[0]).Ran?
      && Reaches(code, Next(code, l0, acts[0]), acts[1..], l)
  }

  // ------------------------------------------------------- what a log tells

  predicate About(e: Event, f: nat) {
    match e
    case Created(g) => g == f
    case EnteredFiber(_, g) => g == f
    case EnteredCallback(_, g, _) => g == f
    case CameBack(_, g, _, _) => g == f
    case _ => false
  }

  predicate By(e: Event, w: nat) {
    !e.Created? && e.w == w
  }

  /** The state of a fiber somebody made or entered; None for one that was never heard of. */
  function StateTold(log: seq<Event>, f: nat): Option<F.FiberState> {
    if log == [] then None
    else
      var (e, before) := (log[|log| - 1], log[..|log| - 1]);
      if !About(e, f) then StateTold(before, f)
      else
        match e
        case Created(_) => Some(F.INIT)
        case CameBack(_, _, how, fromCallback) =>
          if how == F.READY then Some(F.READY)
          else if how == F.TERM || how == F.EXCEPT then Some(if fromCallback then F.INIT else how)
          else Some(F.HOLD)
        case _ => Some(F.EXEC)
  }

  /** Whether a fiber is without a function: it returned from it, or ended a callback and was reset. */
  predicate HollowTold(log: seq<Event>, f: nat) {
    log != []
    && var (e, before) := (log[|log| - 1], log[..|log| - 1]);
    if !About(e, f) || e.EnteredFiber? then HollowTold(before, f)
    else if e.CameBack? then
      e.how == F.TERM || (e.fromCallback && e.how == F.EXCEPT) || HollowTold(before, f)
    else false
  }

  /** The fiber of the last callback, unless that gave up control without ending. */
  function KeptTold(log: seq<Event>, w: nat): Option<nat> {
    if log == [] then None
    else
      var (e, before) := (log[|log| - 1], log[..|log| - 1]);
      if e.EnteredCallback? && e.w == w then Some(e.f)
      else if e.CameBack? && e.w == w && e.fromCallback && e.how != F.TERM && e.how != F.EXCEPT then None
      else KeptTold(before, w)
  }

  /** A worker is where its last event put it. */
  function PlaceTold(log: seq<Event>, w: nat): Place {
    if log == [] then Head
    else
      var (e, before) := (log[|log| - 1], log[..|log| - 1]);
      if !By(e, w) then PlaceTold(before, w)
      else
        match e
        case EnteredFiber(_, f) => InFiber(f)
        case EnteredCallback(_, f, c) => InCallback(f, c)
        case CameBack(_, f, how, _) => if how == F.READY then Requeueing(f) else Head
        case WentIdle(_) => Idling
        case WentAway(_) => Left
        case _ => Head
  }

  /** The state of a worker's idle fiber. */
  function IdleTold(log: seq<Event>, w: nat): F.FiberState {
    if log == [] then F.INIT
    else
      var (e, before) := (log[|log| - 1], log[..|log| - 1]);
      if e == WentIdle(w) then F.EXEC
      else if e.IdleCameBack? && e.w == w then if e.done then F.TERM else F.HOLD
      else IdleTold(before, w)
  }

  lemma FiberTells(log: seq<Event>, e: Event, f: nat)
    ensures StateTold(log + [e], f) ==
      if !About(e, f) then StateTold(log, f)
      else match e
           case Created(_) => Some(F.INIT)
           case CameBack(_, _, how, fromCallback) =>
             if how == F.READY then Some(F.READY)
             else if how == F.TERM || how == F.EXCEPT then Some(if fromCallback then F.INIT else how)
             else Some(F.HOLD)
           case _ => Some(F.EXEC)
    ensures HollowTold(log + [e], f) ==
      if !About(e, f) || e.EnteredFiber? then HollowTold(log, f)
      else e.CameBack? && (e.how == F.TERM || (e.fromCallback && e.how == F.EXCEPT) || HollowTold(log, f))
  {
    assert (log + [e])[..|log|] == log;
  }

  lemma WorkerTells(log: seq<Event>, e: Event, w: nat)
    ensures KeptTold(log + [e], w) ==
      if e.EnteredCallback? && e.w == w then Some(e.f)
      else if e.CameBack? && e.w == w && e.fromCallback && e.how != F.TERM && e.how != F.EXCEPT then None
      else KeptTold(log, w)
    ensures PlaceTold(log + [e], w) ==
      if !By(e, w) then PlaceTold(log, w)
      else match e
           case EnteredFiber(_, f) => InFiber(f)
           case EnteredCallback(_, f, c) => InCallback(f, c)
           case CameBack(_, f, how, _) => if how == F.READY then Requeueing(f) else Head
           case WentIdle(_) => Idling
           case WentAway(_) => Left
           case _ => Head
    ensures IdleTold(log + [e], w) ==
      if e == WentIdle(w) then F.EXEC
      else if e.IdleCameBack? && e.w == w then if e.done then F.TERM else F.HOLD
      else IdleTold(log, w)
  {
    assert (log + [e])[..|log|] == log;
  }

  // ------------------------------------------------------------ every run

  ghost predicate FiberTold(l: Ledger, f: nat) {
    && StateTold(l.log, f) == (if f in l.s.fibers then Some(l.s.fibers[f]) else None)
    && (HollowTold(l.log, f) <==> f in l.s.hollow)
  }

  ghost predicate WorkerTold(l: Ledger, w: nat)
    requires w in l.s.workers
  {
    l.s.workers[w] == Worker(PlaceTold(l.log, w), KeptTold(l.log, w), IdleTold(l.log, w))
  }

  /** A callback is run in the fiber its worker keeps, or else in one never heard of before. */
  ghost predicate CallbacksPlaced(log: seq<Event>) {
    forall i :: 0 <= i < |log| && log[i].EnteredCallback? ==>
      var kept := KeptTold(log[..i], log[i].w);
      if kept.Some? then log[i].f == kept.value else StateTold(log[..i], log[i].f) == None
  }

  ghost predicate Told(l: Ledger) {
    (forall f :: FiberTold(l, f)) && (forall w :: w in l.s.workers ==> WorkerTold(l, w)) && CallbacksPlaced(l.log)
  }

  /** What a turn writes to any fiber, by the event it is noted as. */
  lemma TurnWritesFiber(code: Code, s: State, w: nat, spare: nat, f: nat)
    requires Enabled(s, TurnOf(w, spare)) && Turn(code, s, w, spare).Ran?
    ensures var (s', e) := (Turn(code, s, w, spare).s, Noted(code, s, TurnOf(w, spare)));
      && (f in s'.fibers <==> f in s.fibers || (e.Some? && About(e.value, f)))
      && (f in s'.fibers ==> s'.fibers[f] == if e.Some? && About(e.value, f) then F.EXEC else s.fibers[f])
      && (f in s'.hollow <==> f in s.hollow && !(e.Some? && e.value.EnteredCallback? && e.value.f == f))
      && (e.Some? ==> !e.value.Created? && !e.value.CameBack? && !e.value.Requeued? && !e.value.IdleCameBack?)
  {
    hide FirstEligible, Without;
    var i := FirstEligible(s.queue, s.fibers, w);
    if i < |s.queue| { assert s.queue[i] in s.queue; }
  }

  /** What a turn writes to its worker. */
  lemma TurnWritesWorker(code: Code, s: State, w: nat, spare: nat)
    requires Enabled(s, TurnOf(w, spare)) && Turn(code, s, w, spare).Ran?
    ensures var (s', e) := (Turn(code, s, w, spare).s, Noted(code, s, TurnOf(w, spare)));
      && w in s'.workers
      && match e
         case None => s'.workers[w] == s.workers[w]
         case Some(EnteredFiber(v, g)) => v == w && s'.workers[w] == s.workers[w].(place := InFiber(g))
         case Some(EnteredCallback(v, g, c)) =>
           && v == w && s'.workers[w] == s.workers[w].(place := InCallback(g, c), cbFiber := Some(g))
           && (if s.workers[w].cbFiber.Some? then s.workers[w].cbFiber == Some(g) else g !in s.fibers)
         case Some(WentIdle(v)) => v == w && s'.workers[w] == s.workers[w].(place := Idling, idle := F.EXEC)
         case Some(WentAway(v)) => v == w && s'.workers[w] == s.workers[w].(place := Left)
         case _ => false
  {
    hide FirstEligible, Without;
    var i := FirstEligible(s.queue, s.fibers, w);
    if i < |s.queue| { assert s.queue[i] in s.queue; }
  }

  lemma FiberToldStep(code: Code, l: Ledger, a: Action, f: nat)
    requires FiberTold(l, f) && Enabled(l.s, a) && Apply(code, l.s, a).Ran?
    ensures FiberTold(Next(code, l, a), f)
  {
    hide FirstEligible, Without, Handles, StateTold, HollowTold;
    var e := Noted(code, l.s, a);
    if e.Some? { FiberTells(l.log, e.value, f); }
    if a.TurnOf? {
      TurnWritesFiber(code, l.s, a.w, a.spare, f);
      hide Turn, Noted;
    }
  }

  lemma WorkerToldStep(code: Code, l: Ledger, a: Action, v: nat)
    requires v in l.s.workers && WorkerTold(l, v) && Enabled(l.s, a) && Apply(code, l.s, a).Ran?
    ensures v in Apply(code, l.s, a).s.workers && WorkerTold(Next(code, l, a), v)
  {
    hide FirstEligible, Without, Handles, PlaceTold, KeptTold, IdleTold;
    var e := Noted(code, l.s, a);
    if e.Some? { WorkerTells(l.log, e.value, v); }
    if a.TurnOf? {
      TurnWritesWorker(code, l.s, a.w, a.spare);
      TurnEffect(code, l.s, a.w, a.spare);
      hide Turn, Noted;
    }
  }

  lemma CallbacksPlacedStep(code: Code, l: Ledger, a: Action)
    requires Told(l) && Enabled(l.s, a) && Apply(code, l.s, a).Ran?
    ensures CallbacksPlaced(Next(code, l, a).log)
  {
    var log' := Next(code, l, a).log;
    forall i | 0 <= i < |log'| && log'[i].EnteredCallback?
      ensures var kept := KeptTold(log'[..i], log'[i].w);
        if kept.Some? then log'[i].f == kept.value else StateTold(log'[..i], log'[i].f) == None
    {
      if i < |l.log| {
        assert log'[..i] == l.log[..i] && log'[i] == l.log[i];
      } else {
        assert log'[..i] == l.log && a.TurnOf?;
        TurnWritesWorker(code, l.s, a.w, a.spare);
        assert WorkerTold(l, a.w) && FiberTold(l, log'[i].f);
      }
    }
  }

  lemma SameWorkers(code: Code, s: State, a: Action)
    requires Enabled(s, a) && Apply(code, s, a).Ran?
    ensures Apply(code, s, a).s.workers.Keys == s.workers.Keys
  {
    if a.TurnOf? {
      TurnEffect(code, s, a.w, a.spare);
      hide Turn;
    }
  }

  lemma {:induction false} StaysTold(code: Code, l0: Ledger, acts: seq<Action>, l: Ledger)
    requires Told(l0) && Reaches(code, l0, acts, l)
    ensures Told(l)
    decreases |acts|
  {
    if acts != [] {
      var l1 := Next(code, l0, acts[0]);
      SameWorkers(code, l0.s, acts[0]);
      forall f ensures FiberTold(l1, f) { FiberToldStep(code, l0, acts[0], f); }
      forall w | w in l1.s.workers ensures WorkerTold(l1, w) { WorkerToldStep(code, l0, acts[0], w); }
      CallbacksPlacedStep(code, l0, acts[0]);
      StaysTold(code, l1, acts[1..], l);
    }
  }

  /**
   * Over every run from the start, with workers of any threads: which fibers there are, in
   * which state and whether with a function, where every worker is, which fiber it keeps, and
   * the state of its idle fiber, are all as the log tells; and a callback is always run in the
   * fiber its worker keeps, or else in a new one.
   */
  lemma LedgerTells(code: Code, threads: set<nat>, acts: seq<Action>, l: Ledger)
    requires Reaches(code, Ledger(Start(threads), []), acts, l)
    ensures forall f :: StateTold(l.log, f) == if f in l.s.fibers then Some(l.s.fibers[f]) else None
    ensures forall f :: f in l.s.hollow <==> HollowTold(l.log, f)
    ensures forall w :: w in l.s.workers ==>
      l.s.workers[w] == Worker(PlaceTold(l.log, w), KeptTold(l.log, w), IdleTold(l.log, w))
    ensures forall i :: 0 <= i < |l.log| && l.log[i].EnteredCallback? ==>
      var kept := KeptTold(l.log[..i], l.log[i].w);
      if kept.Some? then l.log[i].f == kept.value else StateTold(l.log[..i], l.log[i].f) == None
  {
    StaysTold(code, Ledger(Start(threads), []), acts, l);
    hide StateTold, HollowTold, PlaceTold, KeptTold, IdleTold;
    forall f ensures StateTold(l.log, f) == (if f in l.s.fibers then Some(l.s.fibers[f]) else None)
      && (f in l.s.hollow <==> HollowTold(l.log, f))
    {
      assert FiberTold(l, f);
    }
    forall w | w in l.s.workers
      ensures l.s.workers[w] == Worker(PlaceTold(l.log, w), KeptTold(l.log, w), IdleTold(l.log, w))
    {
      assert WorkerTold(l, w);
    }
  }
}
