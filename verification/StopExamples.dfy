/**
 * How a timer gets lost when an IOManager stops: two complete runs of two workers, one with
 * the readings as written, one with a joint reading. The two workers are written out as a
 * pair, on which a run can be computed.
 */
module StopExamples {
  import opened Common
  import opened StopProtocol

  /** Two workers and no events. */
  datatype Duo = Duo(timers: nat, queue: nat, first: Worker, second: Worker)

  ghost function StateOf(d: Duo): State {
    State(d.timers, 0, d.queue, map[0 := d.first, 1 := d.second])
  }

  function Put(d: Duo, w: nat, place: Place): Duo {
    if w == 0 then d.(first := d.first.(place := place)) else d.(second := d.second.(place := place))
  }

  /** The idle fiber of a worker ends, or waits. */
  function Settle(d: Duo, w: nat, stops: bool): Duo {
    if !stops then Put(d, w, Waiting)
    else if w == 0 then d.(first := Worker(Head, true))
    else d.(second := Worker(Head, true))
  }

  /** Nothing is queued, and the other worker is not active. */
  function FindsNothing(v: Variant, d: Duo, other: Place): bool {
    d.queue == 0 && !other.InTask? && (v.counted ==> !Hidden(other))
  }

  /** A step of worker 0 or 1, if it is one that can be taken here. */
  function Act(v: Variant, d: Duo, a: Step): Option<Duo> {
    if a.w > 1 then None
    else
      var me := if a.w == 0 then d.first else d.second;
      var other := if a.w == 0 then d.second.place else d.first.place;
      match a
      case Take(w) => if me.place.Head? && d.queue > 0 then Some(Put(d.(queue := d.queue - 1), w, InTask)) else None
      case SetTimer(_) => if me.place.InTask? then Some(d.(timers := d.timers + 1)) else None
      case Finish(w) => if me.place.InTask? then Some(Put(d, w, Head)) else None
      case Yield(w) => if me.place.InTask? then Some(Put(d, w, Yielded)) else None
      case Requeue(w) => if me.place.Yielded? then Some(Put(d.(queue := d.queue + 1), w, Head)) else None
      case FindNothing(w) => if me.place.Head? then Some(Put(d, w, if me.ended then Left else Idling)) else None
      case ReadTimers(w) =>
        if !v.joint && me.place.Idling? then Some(Put(d, w, if d.timers == 0 then SawNoTimer else Waiting)) else None
      case ReadEvents(w) =>
        if !v.joint && me.place.SawNoTimer? && !other.Fired? then Some(Put(d, w, SawNoEvent)) else None
      case ReadScheduler(w) =>
        if !v.joint && me.place.SawNoEvent? then Some(Settle(d, w, FindsNothing(v, d, other))) else None
      case ReadAll(w) =>
        if v.joint && me.place.Idling? && !other.Fired?
        then Some(Settle(d, w, d.timers == 0 && FindsNothing(v, d, other))) else None
      case Collect(w, fired, again) =>
        if me.place.Waiting? && again == 0 < fired <= d.timers
        then Some(Put(d.(timers := d.timers - fired), w, Carrying(fired))) else None
      case Deliver(w) =>
        if me.place.Carrying? then Some(Put(d.(queue := d.queue + me.place.n), w, Serving)) else None
      case Rest(w) => if me.place.Serving? then Some(Put(d, w, Head)) else None
      case _ => None
  }

  lemma PutIsAt(d: Duo, w: nat, place: Place)
    requires w <= 1
    ensures StateOf(Put(d, w, place)) == At(StateOf(d), w, place)
  {
  }

  lemma SettleIsDecide(d: Duo, w: nat)
    requires w <= 1
    ensures StateOf(Settle(d, w, true)) == StateOf(d).(workers := StateOf(d).workers[w := Worker(Head, true)])
  {
  }

  /** A step on the pair is the step of the protocol. */
  lemma ActIsStep(v: Variant, d: Duo, a: Step)
    requires Act(v, d, a).Some?
    ensures Enabled(v, StateOf(d), a) && Next(v, StateOf(d), a) == StateOf(Act(v, d, a).value)
  {
    var d' := Act(v, d, a).value;
    if a.ReadEvents? || a.ReadScheduler? || a.ReadAll? {
      ReadingIsStep(v, d, a);
    } else if !a.SetTimer? {
      var place := (if a.w == 0 then d'.first else d'.second).place;
      PutIsAt(d.(timers := d'.timers, queue := d'.queue), a.w, place);
    }
  }

  lemma ReadingIsStep(v: Variant, d: Duo, a: Step)
    requires Act(v, d, a).Some? && (a.ReadEvents? || a.ReadScheduler? || a.ReadAll?)
    ensures Enabled(v, StateOf(d), a) && Next(v, StateOf(d), a) == StateOf(Act(v, d, a).value)
  {
    PutIsAt(d, a.w, if a.ReadEvents? then SawNoEvent else Waiting);
    SettleIsDecide(d, a.w);
    var other := if a.w == 0 then d.second.place else d.first.place;
    assert a.w == 0 ==> StateOf(d).workers[1].place == other;
    assert a.w == 1 ==> StateOf(d).workers[0].place == other;
    assert NonePending(StateOf(d)) <==> !other.Fired?;
    assert StateOf(d).queue == 0 && NoneActive(v, StateOf(d)) <==> FindsNothing(v, d, other);
    hide NonePending, NoneActive, FindsNothing, StateOf, At;
  }

  /** Steps to be taken one after the other. */
  datatype Plan = Done | Then(step: Step, rest: Plan)

  function Steps(plan: Plan): seq<Step> {
    if plan.Done? then [] else [plan.step] + Steps(plan.rest)
  }

  /** Where a plan leads; nowhere if one of its steps cannot be taken. */
  function ActAll(v: Variant, d: Duo, plan: Plan): Option<Duo>
    decreases plan
  {
    if plan.Done? then Some(d)
    else
      var next := Act(v, d, plan.step);
      if next.None? then None else ActAll(v, next.value, plan.rest)
  }

  lemma {:induction false} ActAllIsRun(v: Variant, d: Duo, plan: Plan)
    requires ActAll(v, d, plan).Some?
    ensures Runs(v, StateOf(d), Steps(plan), StateOf(ActAll(v, d, plan).value))
    decreases plan
  {
    if plan.Then? {
      ActIsStep(v, d, plan.step);
      ActAllIsRun(v, Act(v, d, plan.step).value, plan.rest);
      assert Steps(plan)[1..] == Steps(plan.rest);
    }
    hide Enabled, Next, Act, StateOf;
  }

  /** A worker whose idle fiber is still there, and one whose idle fiber has ended. */
  function On(place: Place): Worker {
    Worker(place, false)
  }

  function Over(place: Place): Worker {
    Worker(place, true)
  }

  /** Both workers at their loop heads, and one task. */
  const BEGIN := Duo(0, 1, On(Head), On(Head))

  /** Both gone, with a timer set. */
  const LOST := Duo(1, 0, Over(Left), Over(Left))

  lemma NoPlan(v: Variant) returns (p: Plan)
    ensures p == Done && ActAll(v, LOST, p) == Some(LOST)
  {
    p := Done;
  }

  /** A plan that leads to the lost timer, with one more step in front. */
  lemma Before(v: Variant, d: Duo, a: Step, rest: Plan) returns (p: Plan)
    requires Act(v, d, a).Some? && ActAll(v, Act(v, d, a).value, rest) == Some(LOST)
    ensures p == Then(a, rest) && ActAll(v, d, p) == Some(LOST)
  {
    p := Then(a, rest);
  }

  // Worker 0 reads that there is no timer before a task on worker 1 sets one, and decides; it
  // takes the callback of that timer on its last scan, and does the same to worker 1.

  const TORN_4 :=
    Then(SetTimer(0), Then(Finish(0), Then(ReadEvents(1), Then(ReadScheduler(1), Then(FindNothing(0),
    Then(FindNothing(1), Done))))))

  const TORN_3 :=
    Then(Deliver(1), Then(Rest(1), Then(Take(0), Then(FindNothing(1), Then(ReadTimers(1), TORN_4)))))

  const TORN_2 :=
    Then(ReadEvents(0), Then(ReadScheduler(0),
      Then(FindNothing(1), Then(ReadTimers(1), Then(Collect(1, 1, 0), TORN_3)))))

  const TORN :=
    Then(Take(1), Then(FindNothing(0), Then(ReadTimers(0), Then(SetTimer(1), Then(Finish(1), TORN_2)))))

  // Worker 1 carries the callback of the only timer while worker 0 reads, and decides; worker 0
  // takes the callback on its last scan, counts down as it yields, and then worker 1 decides.

  const JOINT_4 :=
    Then(Take(0), Then(SetTimer(0), Then(Finish(0), Then(FindNothing(0), Then(FindNothing(1), Done)))))

  const JOINT_3 :=
    Then(Take(0), Then(FindNothing(1), Then(Yield(0), Then(ReadAll(1), Then(Requeue(0), JOINT_4)))))

  const JOINT_2 :=
    Then(Collect(1, 1, 0), Then(FindNothing(0), Then(ReadAll(0), Then(Deliver(1), Then(Rest(1), JOINT_3)))))

  const JOINT :=
    Then(Take(1), Then(SetTimer(1), Then(Finish(1), Then(FindNothing(1), Then(ReadAll(1), JOINT_2)))))

  lemma LostIsLost()
    ensures Sound(StateOf(BEGIN)) && ReadingsHold(StateOf(BEGIN))
    ensures AllLeft(StateOf(LOST)) && !Quiet(StateOf(LOST))
  {
    assert StateOf(LOST).workers[0].place.Left?;
  }

  lemma TornLeadsToLoss4(counted: bool)
    ensures ActAll(Variant(false, counted), Duo(0, 0, Over(InTask), On(SawNoTimer)), TORN_4) == Some(LOST)
  {
    hide ActAll;
    var v := Variant(false, counted);
    var p := NoPlan(v);
    p := Before(v, Duo(1, 0, Over(Left), Over(Head)), FindNothing(1), p);
    p := Before(v, Duo(1, 0, Over(Head), Over(Head)), FindNothing(0), p);
    p := Before(v, Duo(1, 0, Over(Head), On(SawNoEvent)), ReadScheduler(1), p);
    p := Before(v, Duo(1, 0, Over(Head), On(SawNoTimer)), ReadEvents(1), p);
    p := Before(v, Duo(1, 0, Over(InTask), On(SawNoTimer)), Finish(0), p);
    p := Before(v, Duo(0, 0, Over(InTask), On(SawNoTimer)), SetTimer(0), p);
  }

  lemma TornLeadsToLoss3(counted: bool)
    ensures ActAll(Variant(false, counted), Duo(0, 0, Over(Head), On(Carrying(1))), TORN_3) == Some(LOST)
  {
    hide ActAll;
    var v := Variant(false, counted);
    var p := TORN_4;
    TornLeadsToLoss4(counted);
    p := Before(v, Duo(0, 0, Over(InTask), On(Idling)), ReadTimers(1), p);
    p := Before(v, Duo(0, 0, Over(InTask), On(Head)), FindNothing(1), p);
    p := Before(v, Duo(0, 1, Over(Head), On(Head)), Take(0), p);
    p := Before(v, Duo(0, 1, Over(Head), On(Serving)), Rest(1), p);
    p := Before(v, Duo(0, 0, Over(Head), On(Carrying(1))), Deliver(1), p);
  }

  lemma TornLeadsToLoss2(counted: bool)
    ensures ActAll(Variant(false, counted), Duo(1, 0, On(SawNoTimer), On(Head)), TORN_2) == Some(LOST)
  {
    hide ActAll;
    var v := Variant(false, counted);
    var p := TORN_3;
    TornLeadsToLoss3(counted);
    p := Before(v, Duo(1, 0, Over(Head), On(Waiting)), Collect(1, 1, 0), p);
    p := Before(v, Duo(1, 0, Over(Head), On(Idling)), ReadTimers(1), p);
    p := Before(v, Duo(1, 0, Over(Head), On(Head)), FindNothing(1), p);
    p := Before(v, Duo(1, 0, On(SawNoEvent), On(Head)), ReadScheduler(0), p);
    p := Before(v, Duo(1, 0, On(SawNoTimer), On(Head)), ReadEvents(0), p);
  }

  lemma TornLeadsToLoss(counted: bool)
    ensures ActAll(Variant(false, counted), BEGIN, TORN) == Some(LOST)
  {
    hide ActAll;
    var v := Variant(false, counted);
    var p := TORN_2;
    TornLeadsToLoss2(counted);
    p := Before(v, Duo(1, 0, On(SawNoTimer), On(InTask)), Finish(1), p);
    p := Before(v, Duo(0, 0, On(SawNoTimer), On(InTask)), SetTimer(1), p);
    p := Before(v, Duo(0, 0, On(Idling), On(InTask)), ReadTimers(0), p);
    p := Before(v, Duo(0, 0, On(Head), On(InTask)), FindNothing(0), p);
    p := Before(v, Duo(0, 1, On(Head), On(Head)), Take(1), p);
  }

  lemma JointLeadsToLoss4()
    ensures ActAll(Variant(true, false), Duo(0, 1, Over(Head), Over(Head)), JOINT_4) == Some(LOST)
  {
    hide ActAll;
    var v := Variant(true, false);
    var p := NoPlan(v);
    p := Before(v, Duo(1, 0, Over(Left), Over(Head)), FindNothing(1), p);
    p := Before(v, Duo(1, 0, Over(Head), Over(Head)), FindNothing(0), p);
    p := Before(v, Duo(1, 0, Over(InTask), Over(Head)), Finish(0), p);
    p := Before(v, Duo(0, 0, Over(InTask), Over(Head)), SetTimer(0), p);
    p := Before(v, Duo(0, 1, Over(Head), Over(Head)), Take(0), p);
  }

  lemma JointLeadsToLoss3()
    ensures ActAll(Variant(true, false), Duo(0, 1, Over(Head), On(Head)), JOINT_3) == Some(LOST)
  {
    hide ActAll;
    var v := Variant(true, false);
    var p := JOINT_4;
    JointLeadsToLoss4();
    p := Before(v, Duo(0, 0, Over(Yielded), Over(Head)), Requeue(0), p);
    p := Before(v, Duo(0, 0, Over(Yielded), On(Idling)), ReadAll(1), p);
    p := Before(v, Duo(0, 0, Over(InTask), On(Idling)), Yield(0), p);
    p := Before(v, Duo(0, 0, Over(InTask), On(Head)), FindNothing(1), p);
    p := Before(v, Duo(0, 1, Over(Head), On(Head)), Take(0), p);
  }

  lemma JointLeadsToLoss2()
    ensures ActAll(Variant(true, false), Duo(1, 0, On(Head), On(Waiting)), JOINT_2) == Some(LOST)
  {
    hide ActAll;
    var v := Variant(true, false);
    var p := JOINT_3;
    JointLeadsToLoss3();
    p := Before(v, Duo(0, 1, Over(Head), On(Serving)), Rest(1), p);
    p := Before(v, Duo(0, 0, Over(Head), On(Carrying(1))), Deliver(1), p);
    p := Before(v, Duo(0, 0, On(Idling), On(Carrying(1))), ReadAll(0), p);
    p := Before(v, Duo(0, 0, On(Head), On(Carrying(1))), FindNothing(0), p);
    p := Before(v, Duo(1, 0, On(Head), On(Waiting)), Collect(1, 1, 0), p);
  }

  lemma JointLeadsToLoss()
    ensures ActAll(Variant(true, false), BEGIN, JOINT) == Some(LOST)
  {
    hide ActAll;
    var v := Variant(true, false);
    var p := JOINT_2;
    JointLeadsToLoss2();
    p := Before(v, Duo(1, 0, On(Head), On(Idling)), ReadAll(1), p);
    p := Before(v, Duo(1, 0, On(Head), On(Head)), FindNothing(1), p);
    p := Before(v, Duo(1, 0, On(Head), On(InTask)), Finish(1), p);
    p := Before(v, Duo(0, 0, On(Head), On(InTask)), SetTimer(1), p);
    p := Before(v, Duo(0, 1, On(Head), On(Head)), Take(1), p);
  }

  /** Readings one by one, even with carried work counted: both workers leave with a timer set. */
  lemma TornStopLosesTimerExample(counted: bool)
    ensures Runs(Variant(false, counted), StateOf(BEGIN), Steps(TORN), StateOf(LOST))
    ensures Sound(StateOf(BEGIN)) && ReadingsHold(StateOf(BEGIN)) && AllLeft(StateOf(LOST)) && !Quiet(StateOf(LOST))
  {
    hide ActAll, Runs, Steps;
    LostIsLost();
    TornLeadsToLoss(counted);
    ActAllIsRun(Variant(false, counted), BEGIN, TORN);
  }

  /** One joint reading is not enough while carried work is not counted. */
  lemma JointStopLosesTimerExample()
    ensures Runs(Variant(true, false), StateOf(BEGIN), Steps(JOINT), StateOf(LOST))
    ensures Sound(StateOf(BEGIN)) && ReadingsHold(StateOf(BEGIN)) && AllLeft(StateOf(LOST)) && !Quiet(StateOf(LOST))
  {
    hide ActAll, Runs, Steps;
    LostIsLost();
    JointLeadsToLoss();
    ActAllIsRun(Variant(true, false), BEGIN, JOINT);
  }
}
