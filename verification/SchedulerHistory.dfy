/**
 * Runs of the scheduler with their history: every submission gets the next ticket, and the
 * history knows which ticket every queue entry has and who took which ticket.
 */
module SchedulerHistory {
  import opened Common
  import opened SchedulerModel
  import F = FiberModel

  datatype Taking = Taking(ticket: nat, worker: nat)

  /**
   * `submitted` holds the entry of every ticket, `tickets` goes along with the queue, `begun`
   * counts fiber dispatches and `late` has the tickets submitted after the last worker left.
   */
  datatype History = History(
    s: State,
    submitted: seq<Entry>,
    tickets: seq<nat>,
    taken: seq<Taking>,
    begun: nat,
    late: set<nat>)

  ghost predicate AllLeft(s: State) {
    forall w :: w in s.workers ==> s.workers[w].place.Left?
  }

  /** The entry an action appends to the queue. */
  function Appended(s: State, a: Action): Option<Entry>
    requires Enabled(s, a)
  {
    match a
    case Schedule(task, pin) => Some(Entry(task, pin))
    case RequeueOf(w) => Some(Entry(FiberTask(s.workers[w].place.f), None))
    case _ => None
  }

  /** The index of the entry an action takes out of the queue. */
  function TakenAt(s: State, a: Action): Option<nat> {
    if a.TurnOf? && FirstEligible(s.queue, s.fibers, a.w) < |s.queue|
    then Some(FirstEligible(s.queue, s.fibers, a.w)) else None
  }

  ghost predicate CanGo(code: Code, h: History, a: Action) {
    Enabled(h.s, a) && Apply(code, h.s, a).Ran? && |h.tickets| == |h.s.queue|
  }

  ghost function Record(code: Code, h: History, a: Action): History
    requires CanGo(code, h, a)
  {
    var s' := Apply(code, h.s, a).s;
    var at := TakenAt(h.s, a);
    var added := Appended(h.s, a);
    History(
      s',
      if added.Some? then h.submitted + [added.value] else h.submitted,
      if added.Some? then h.tickets + [|h.submitted|] else if at.Some? then Without(h.tickets, at.value) else h.tickets,
      if at.Some? then h.taken + [Taking(h.tickets[at.value], a.w)] else h.taken,
      h.begun + if a.TurnOf? && a.w in s'.workers && s'.workers[a.w].place.InFiber? then 1 else 0,
      if added.Some? && AllLeft(h.s) then h.late + {|h.submitted|} else h.late)
  }

  ghost predicate Reaches(code: Code, h0: History, acts: seq<Action>, h: History)
    decreases |acts|
  {
    if acts == [] then h == h0
    else CanGo(code, h0, acts[0]) && Reaches(code, Record(code, h0, acts[0]), acts[1..], h)
  }

  function Begin(threads: set<nat>): History {
    History(Start(threads), [], [], [], 0, {})
  }

  // --------------------------------------------------------- queue effect

  /** What an action does to the queue, and to which workers. */
  lemma QueueEffect(code: Code, s: State, a: Action)
    requires Enabled(s, a) && Apply(code, s, a).Ran?
    ensures var s' := Apply(code, s, a).s;
      && s'.queue == (if Appended(s, a).Some? then s.queue + [Appended(s, a).value]
                      else if TakenAt(s, a).Some? then Without(s.queue, TakenAt(s, a).value)
                      else s.queue)
      && !(Appended(s, a).Some? && TakenAt(s, a).Some?)
      && s'.workers.Keys == s.workers.Keys
      && (forall w :: w in s.workers && s.workers[w].place.Left? ==> s'.workers[w].place.Left?)
      && (forall w :: w in s.workers && !s.workers[w].place.Left? && s'.workers[w].place.Left? ==>
            a.TurnOf? && a.w == w && TakenAt(s, a).None?)
  {
    match a
    case TurnOf(w, spare) =>
      TurnEffect(code, s, w, spare);
      hide Turn, FirstEligible, Without, Handles;
    case _ =>
  }
}
