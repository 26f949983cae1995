/**
 * The timer set of TimerManager (duan_src/timer.cc) on values: timers by address, the
 * ordered set as the list of addresses in comparator order, and every operation on it.
 */
module TimerModel {
  import opened Common

  /** What the comparator looks at: the deadline, then the address. */
  datatype Key = Key(next: Word, addr: nat)

  predicate KeyLess(a: Key, b: Key) {
    a.next < b.next || (a.next == b.next && a.addr < b.addr)
  }

  /** Timer::Comparator, null handles included. */
  predicate Compare(lhs: Option<Key>, rhs: Option<Key>) {
    if lhs.None? && rhs.None? then false
    else if lhs.None? then true
    else if rhs.None? then false
    else if lhs.value.next < rhs.value.next then true
    else if rhs.value.next < lhs.value.next then false
    else lhs.value.addr < rhs.value.addr
  }

  /** The comparator is a strict total order, so an ordered set over it is well defined. */
  lemma CompareIsStrictTotalOrder(a: Option<Key>, b: Option<Key>, c: Option<Key>)
    ensures !Compare(a, a)
    ensures Compare(a, b) && Compare(b, c) ==> Compare(a, c)
    ensures a != b ==> Compare(a, b) != Compare(b, a)
    ensures a.Some? && b.Some? ==> Compare(a, b) == KeyLess(a.value, b.value)
  {
  }

  /** Fields of one Timer; `cb` is None for the empty function. */
  datatype Timer = Timer(recurring: bool, ms: Word, next: Word, cb: Option<nat>)

  type Timers = map<nat, Timer>

  datatype State = State(timers: Timers, order: seq<nat>, tickled: bool, previous: Word)

  // ---------------------------------------------------------- the ordered set

  function KeyOf(ts: Timers, a: nat): Key
    requires a in ts
  {
    Key(ts[a].next, a)
  }

  ghost predicate Sorted(ts: Timers, order: seq<nat>) {
    && (forall i :: 0 <= i < |order| ==> order[i] in ts)
    && (forall i, j :: 0 <= i < j < |order| ==> KeyLess(KeyOf(ts, order[i]), KeyOf(ts, order[j])))
  }

  /** set::lower_bound: the first position whose key is not less than `k`. */
  function LowerBound(ts: Timers, order: seq<nat>, k: Key): (i: nat)
    requires Sorted(ts, order)
    ensures i <= |order|
    ensures forall j :: 0 <= j < i ==> KeyLess(KeyOf(ts, order[j]), k)
    ensures forall j :: i <= j < |order| ==> !KeyLess(KeyOf(ts, order[j]), k)
  {
    if order == [] || !KeyLess(KeyOf(ts, order[0]), k) then 0
    else
      assert Sorted(ts, order[1..]);
      1 + LowerBound(ts, order[1..], k)
  }

  /** set::find: the position of an equivalent element, or the end. */
  function Find(ts: Timers, order: seq<nat>, a: nat): (i: nat)
    requires Sorted(ts, order) && a in ts
    ensures i <= |order|
    ensures i < |order| <==> a in order
    ensures i < |order| ==> order[i] == a
  {
    var i := LowerBound(ts, order, KeyOf(ts, a));
    if i < |order| && !KeyLess(KeyOf(ts, a), KeyOf(ts, order[i])) then i else |order|
  }

  function EraseAt(order: seq<nat>, i: nat): seq<nat>
    requires i < |order|
  {
    order[..i] + order[i + 1..]
  }

  /** set::insert: the new order and where the element is; nothing is added when it is there already. */
  function Insert(ts: Timers, order: seq<nat>, a: nat): (seq<nat>, nat)
    requires Sorted(ts, order) && a in ts
  {
    var i := LowerBound(ts, order, KeyOf(ts, a));
    if i < |order| && order[i] == a then (order, i) else (order[..i] + [a] + order[i..], i)
  }

  lemma SortedFrame(ts: Timers, ts': Timers, order: seq<nat>)
    requires Sorted(ts, order)
    requires forall a :: a in order ==> a in ts' && ts'[a].next == ts[a].next
    ensures Sorted(ts', order)
  {
  }

  lemma EraseSorted(ts: Timers, order: seq<nat>, i: nat)
    requires Sorted(ts, order) && i < |order|
    ensures Sorted(ts, EraseAt(order, i))
    ensures forall a :: a in EraseAt(order, i) <==> a in order && a != order[i]
  {
    var e := EraseAt(order, i);
    assert forall j :: 0 <= j < |e| ==> e[j] == if j < i then order[j] else order[j + 1];
    forall a | a in order && a != order[i] ensures a in e {
      var j :| 0 <= j < |order| && order[j] == a;
      assert e[if j < i then j else j - 1] == a;
    }
    assert forall j :: 0 <= j < |order| && j != i ==> order[j] != order[i];
  }

  lemma SpliceSorted(ts: Timers, order: seq<nat>, a: nat, i: nat)
    requires Sorted(ts, order) && a in ts && i <= |order|
    requires forall j :: 0 <= j < i ==> KeyLess(KeyOf(ts, order[j]), KeyOf(ts, a))
    requires forall j :: i <= j < |order| ==> KeyLess(KeyOf(ts, a), KeyOf(ts, order[j]))
    ensures Sorted(ts, order[..i] + [a] + order[i..])
    ensures forall b :: b in order[..i] + [a] + order[i..] <==> b in order || b == a
  {
    var r := order[..i] + [a] + order[i..];
    assert forall j :: 0 <= j < |r| ==> r[j] == if j < i then order[j] else if j == i then a else order[j - 1];
    assert order == order[..i] + order[i..];
  }

  lemma InsertSorted(ts: Timers, order: seq<nat>, a: nat)
    requires Sorted(ts, order) && a in ts
    ensures var (order', i) := Insert(ts, order, a);
      && Sorted(ts, order')
      && (forall b :: b in order' <==> b in order || b == a)
      && i < |order'| && order'[i] == a
      && (i > 0 ==> !KeyLess(KeyOf(ts, a), KeyOf(ts, order'[0])))
  {
    var i := LowerBound(ts, order, KeyOf(ts, a));
    if !(i < |order| && order[i] == a) {
      forall j | i <= j < |order| ensures KeyLess(KeyOf(ts, a), KeyOf(ts, order[j])) {
        if i < j { assert KeyLess(KeyOf(ts, order[i]), KeyOf(ts, order[j])); }
      }
      SpliceSorted(ts, order, a, i);
    }
  }

  // ------------------------------------------------------------- operations

  /**
   * A published timer has its callback exactly while it is in the set; `born` says
   * which callback it was created with (the empty function is possible).
   */
  ghost predicate Valid(s: State, born: map<nat, Option<nat>>) {
    && Sorted(s.timers, s.order)
    && born.Keys == s.timers.Keys
    && (forall a :: a in s.timers ==> s.timers[a].cb == if a in s.order then born[a] else None)
  }

  /** The protected addTimer: insert, and say whether the front notification fires. */
  function AddAndNotify(s: State, a: nat): (State, bool)
    requires Sorted(s.timers, s.order) && a in s.timers
  {
    var (order, i) := Insert(s.timers, s.order, a);
    var atFront := i == 0 && !s.tickled;
    (s.(order := order, tickled := s.tickled || atFront), atFront)
  }

  /** The public addTimer: `now` is the clock reading of the Timer constructor. */
  function AddTimer(s: State, a: nat, ms: Word, cb: Option<nat>, recurring: bool, now: Word): (State, bool)
    requires Sorted(s.timers, s.order) && a !in s.timers
  {
    var ts := s.timers[a := Timer(recurring, ms, Add64(now, ms), cb)];
    SortedFrame(s.timers, ts, s.order);
    AddAndNotify(s.(timers := ts), a)
  }

  function Cancel(s: State, a: nat, ghost born: map<nat, Option<nat>>): (State, bool)
    requires Valid(s, born) && a in s.timers
  {
    if s.timers[a].cb.Some? then
      var ts := s.timers[a := s.timers[a].(cb := None)];
      SortedFrame(s.timers, ts, s.order);
      (s.(timers := ts, order := EraseAt(s.order, Find(ts, s.order, a))), true)
    else
      (s, false)
  }

  function Refresh(s: State, a: nat, now: Word): (State, bool)
    requires Sorted(s.timers, s.order) && a in s.timers
  {
    if s.timers[a].cb.None? then (s, false)
    else
      var i := Find(s.timers, s.order, a);
      if i == |s.order| then (s, false)
      else
        var order := EraseAt(s.order, i);
        var ts := s.timers[a := s.timers[a].(next := Add64(now, s.timers[a].ms))];
        EraseSorted(s.timers, s.order, i);
        SortedFrame(s.timers, ts, order);
        (s.(timers := ts, order := Insert(ts, order, a).0), true)
  }

  /** Result of Timer::reset: the state, what it returned, and whether the front notification fired. */
  function Reset(s: State, a: nat, ms: Word, fromNow: bool, now: Word): (State, bool, bool)
    requires Sorted(s.timers, s.order) && a in s.timers
  {
    if ms == s.timers[a].ms && !fromNow then (s, true, false)
    else if s.timers[a].cb.None? then (s, false, false)
    else
      var i := Find(s.timers, s.order, a);
      if i == |s.order| then (s, false, false)
      else
        var order := EraseAt(s.order, i);
        var t := s.timers[a];
        var start := if fromNow then now else Sub64(t.next, t.ms);
        var ts := s.timers[a := t.(ms := ms, next := Add64(start, ms))];
        EraseSorted(s.timers, s.order, i);
        SortedFrame(s.timers, ts, order);
        var (s', front) := AddAndNotify(s.(timers := ts, order := order), a);
        (s', true, front)
  }

  function GetNextTimer(s: State, now: Word): (State, Word)
    requires Sorted(s.timers, s.order)
  {
    var s' := s.(tickled := false);
    if s.order == [] then (s', ALL_ONES)
    else
      var next := s.timers[s.order[0]].next;
      (s', if now >= next then 0 else next - now)
  }

  const ONE_HOUR: Word := 60 * 60 * 1000

  /** detectClockRollover; the subtraction wraps when the previous reading is within the first hour. */
  predicate Rollover(previous: Word, now: Word) {
    now < previous && now < Sub64(previous, ONE_HOUR)
  }

  /** When a rollover is detected: a reading set back by more than an hour, or at all within the first hour. */
  lemma RolloverIff(previous: Word, now: Word)
    ensures previous >= 3_600_000 ==> (Rollover(previous, now) <==> now + 3_600_000 < previous)
    ensures previous < 3_600_000 ==> (Rollover(previous, now) <==> now < previous)
  {
  }

  /** How far listExpiredCb's iterator gets: lower_bound of a probe timer, then past equal deadlines. */
  function ExpiredEnd(ts: Timers, order: seq<nat>, rollover: bool, now: Word, probe: nat): (i: nat)
    requires Sorted(ts, order)
    ensures i <= |order|
  {
    SkipEqual(ts, order, now, if rollover then |order| else LowerBound(ts, order, Key(now, probe)))
  }

  function SkipEqual(ts: Timers, order: seq<nat>, now: Word, i: nat): (j: nat)
    requires Sorted(ts, order) && i <= |order|
    ensures i <= j <= |order|
    ensures forall k :: i <= k < j ==> ts[order[k]].next == now
    ensures j < |order| ==> ts[order[j]].next != now
    decreases |order| - i
  {
    if i < |order| && ts[order[i]].next == now then SkipEqual(ts, order, now, i + 1) else i
  }

  /** What the loop over the expired timers does to one of them. */
  function Fired(t: Timer, now: Word): Timer {
    if t.recurring then t.(next := Add64(now, t.ms)) else t.(cb := None)
  }

  /** The loop over the expired timers: collect callbacks, re-insert the recurring ones. */
  function FireAll(ts: Timers, order: seq<nat>, expired: seq<nat>, now: Word): (Timers, seq<nat>)
    requires Sorted(ts, order)
    requires forall a :: a in expired ==> a in ts && a !in order
    requires forall i, j :: 0 <= i < j < |expired| ==> expired[i] != expired[j]
    decreases |expired|
  {
    if expired == [] then (ts, order)
    else
      var a := expired[0];
      assert a in expired;
      var ts' := ts[a := Fired(ts[a], now)];
      SortedFrame(ts, ts', order);
      InsertSorted(ts', order, a);
      FireAll(ts', if ts[a].recurring then Insert(ts', order, a).0 else order, expired[1..], now)
  }

  datatype Expired = Expired(s: State, fired: seq<nat>, rollover: bool)

  /**
   * listExpiredCb with both emptiness tests: the first one, under the read lock, returns
   * early; `probe` is the address of the temporary timer.
   */
  function ListExpired(s: State, now: Word, probe: nat): Expired
    requires Sorted(s.timers, s.order)
  {
    if s.order == [] then Expired(s, [], false)
    else
      var rollover := Rollover(s.previous, now);
      var s1 := s.(previous := now);
      if !rollover && s.timers[s.order[0]].next > now then Expired(s1, [], rollover)
      else
        var i := ExpiredEnd(s.timers, s.order, rollover, now, probe);
        SplitSorted(s.timers, s.order, i);
        var (ts, order) := FireAll(s.timers, s.order[i..], s.order[..i], now);
        Expired(s1.(timers := ts, order := order), s.order[..i], rollover)
  }

  /** The second lock region gets through, or dereferences begin() of an empty set at line 158. */
  datatype Swept = Swept(r: Expired) | Dereferenced

  /**
   * listExpiredCb from its second lock on, when other threads may have come in since the first
   * emptiness test; `rechecked` is the repair, the test made again under this lock.
   */
  function Sweep(rechecked: bool, s: State, now: Word, probe: nat): Swept
    requires Sorted(s.timers, s.order)
  {
    if s.order != [] then Swept(ListExpired(s, now, probe))
    else if rechecked then Swept(Expired(s, [], false))
    else if Rollover(s.previous, now) then Swept(Expired(s.(previous := now), [], true))
    else Dereferenced
  }

  /** What the second region leaves when it gets through. */
  function Collected(s: State, now: Word, probe: nat): Expired
    requires Sorted(s.timers, s.order)
  {
    if s.order != [] then ListExpired(s, now, probe)
    else Expired(s.(previous := now), [], Rollover(s.previous, now))
  }

  /** The three ways through listExpiredCb. */
  lemma ListExpiredCases(s: State, now: Word, probe: nat)
    requires Sorted(s.timers, s.order)
    ensures var r := ListExpired(s, now, probe);
      if s.order == [] then r == Expired(s, [], false)
      else if !Rollover(s.previous, now) && s.timers[s.order[0]].next > now then
        r == Expired(s.(previous := now), [], false)
      else
        && r.fired == s.order[..ExpiredEnd(s.timers, s.order, Rollover(s.previous, now), now, probe)]
        && var rest := s.order[|r.fired|..];
        && Sorted(s.timers, rest)
        && (forall a :: a in r.fired ==> a in s.timers && a !in rest)
        && (forall i, j :: 0 <= i < j < |r.fired| ==> r.fired[i] != r.fired[j])
        && var (ts, order) := FireAll(s.timers, rest, r.fired, now);
        && r.s == s.(previous := now, timers := ts, order := order)
  {
    if s.order != [] {
      SplitSorted(s.timers, s.order, ExpiredEnd(s.timers, s.order, Rollover(s.previous, now), now, probe));
      hide FireAll, Sorted, Rollover, ExpiredEnd;
    }
  }

  lemma SplitSorted(ts: Timers, order: seq<nat>, i: nat)
    requires Sorted(ts, order) && i <= |order|
    ensures Sorted(ts, order[i..]) && Sorted(ts, order[..i])
    ensures forall a :: a in order[..i] ==> a in ts && a !in order[i..]
    ensures forall j, k :: 0 <= j < k < |order[..i]| ==> order[..i][j] != order[..i][k]
  {
    forall j, k | 0 <= j < k < |order| ensures order[j] != order[k] {
      assert KeyLess(KeyOf(ts, order[j]), KeyOf(ts, order[k]));
    }
  }

  // -------------------------------------------------- what the operations do

  /** Callbacks due at `now`, picked out by a plain filter over the set in order. */
  function Due(ts: Timers, order: seq<nat>, now: Word): seq<nat>
    requires forall a :: a in order ==> a in ts
  {
    if order == [] then []
    else
      assert order[0] in order;
      (if ts[order[0]].next <= now then [order[0]] else []) + Due(ts, order[1..], now)
  }

  lemma DuePrefix(ts: Timers, order: seq<nat>, now: Word, i: nat)
    requires forall a :: a in order ==> a in ts
    requires i <= |order|
    requires forall k :: 0 <= k < i ==> ts[order[k]].next <= now
    requires forall k :: i <= k < |order| ==> ts[order[k]].next > now
    ensures Due(ts, order, now) == order[..i]
  {
    if order != [] {
      if i > 0 {
        DuePrefix(ts, order[1..], now, i - 1);
        assert order[..i] == [order[0]] + order[1..][..i - 1];
      } else {
        DuePrefix(ts, order[1..], now, 0);
      }
    }
  }

  /** lower_bound and the skip loop stop exactly behind the last due timer, wherever the probe lives. */
  lemma ExpiredEndIsDue(ts: Timers, order: seq<nat>, now: Word, probe: nat)
    requires Sorted(ts, order)
    ensures order[..ExpiredEnd(ts, order, false, now, probe)] == Due(ts, order, now)
  {
    var i := LowerBound(ts, order, Key(now, probe));
    var j := SkipEqual(ts, order, now, i);
    forall k | 0 <= k < j ensures ts[order[k]].next <= now {
      if k < i { assert KeyLess(KeyOf(ts, order[k]), Key(now, probe)); }
    }
    forall k | j <= k < |order| ensures ts[order[k]].next > now {
      assert !KeyLess(KeyOf(ts, order[j]), Key(now, probe));
      if j < k { assert KeyLess(KeyOf(ts, order[j]), KeyOf(ts, order[k])); }
    }
    DuePrefix(ts, order, now, j);
  }

  lemma NothingDue(ts: Timers, order: seq<nat>, now: Word)
    requires Sorted(ts, order) && order != [] && ts[order[0]].next > now
    ensures Due(ts, order, now) == []
  {
    forall k | 0 <= k < |order| ensures ts[order[k]].next > now {
      if 0 < k { assert KeyLess(KeyOf(ts, order[0]), KeyOf(ts, order[k])); }
    }
    DuePrefix(ts, order, now, 0);
  }

  /** The loop over expired timers, described one timer at a time. */
  lemma {:induction false} FireAllEffect(ts: Timers, order: seq<nat>, expired: seq<nat>, now: Word)
    requires Sorted(ts, order)
    requires forall a :: a in expired ==> a in ts && a !in order
    requires forall i, j :: 0 <= i < j < |expired| ==> expired[i] != expired[j]
    ensures var (ts', order') := FireAll(ts, order, expired, now);
      && Sorted(ts', order')
      && ts'.Keys == ts.Keys
      && (forall a :: a in ts ==> ts'[a] == if a in expired then Fired(ts[a], now) else ts[a])
      && (forall a :: a in order' <==> a in order || (a in expired && ts[a].recurring))
    decreases |expired|
  {
    if expired != [] {
      var a, rest := expired[0], expired[1..];
      assert forall b :: b in expired <==> b == a || b in rest;
      assert forall j :: 0 <= j < |rest| ==> rest[j] == expired[j + 1] && expired[0] != expired[j + 1];
      var ts1 := ts[a := Fired(ts[a], now)];
      SortedFrame(ts, ts1, order);
      InsertSorted(ts1, order, a);
      FireAllEffect(ts1, if ts[a].recurring then Insert(ts1, order, a).0 else order, rest, now);
    }
  }

  lemma FirePrefix(ts: Timers, order: seq<nat>, i: nat, now: Word)
    requires Sorted(ts, order) && i <= |order|
    ensures Sorted(ts, order[i..])
    ensures forall a :: a in order[..i] ==> a in ts && a !in order[i..]
    ensures forall j, k :: 0 <= j < k < |order[..i]| ==> order[..i][j] != order[..i][k]
    ensures var (ts', order') := FireAll(ts, order[i..], order[..i], now);
      && Sorted(ts', order')
      && ts'.Keys == ts.Keys
      && (forall a :: a in ts ==> ts'[a] == if a in order[..i] then Fired(ts[a], now) else ts[a])
      && (forall a :: a in ts ==> (a in order' <==> a in order && (a in order[..i] ==> ts[a].recurring)))
  {
    SplitSorted(ts, order, i);
    FireAllEffect(ts, order[i..], order[..i], now);
    assert order == order[..i] + order[i..];
    assert forall a :: a in order <==> a in order[..i] || a in order[i..];
  }

  /** What listExpiredCb does, against the plain filter. */
  lemma ListExpiredEffect(s: State, now: Word, probe: nat)
    requires Sorted(s.timers, s.order)
    ensures var r := ListExpired(s, now, probe);
      && r.rollover == (s.order != [] && Rollover(s.previous, now))
      && r.fired == (if r.rollover then s.order else Due(s.timers, s.order, now))
      && r.fired <= s.order
      && Sorted(r.s.timers, r.s.order)
      && r.s.timers.Keys == s.timers.Keys
      && (forall a :: a in s.timers ==> r.s.timers[a] == if a in r.fired then Fired(s.timers[a], now) else s.timers[a])
      && (forall a :: a in s.timers ==> (a in r.s.order <==> a in s.order && (a in r.fired ==> s.timers[a].recurring)))
      && r.s.tickled == s.tickled
      && r.s.previous == if s.order == [] then s.previous else now
  {
    if s.order != [] {
      var ts, order := s.timers, s.order;
      var rollover := Rollover(s.previous, now);
      if !rollover && ts[order[0]].next > now {
        NothingDue(ts, order, now);
      } else {
        var i := ExpiredEnd(ts, order, rollover, now, probe);
        assert order[..i] == if rollover then order else Due(ts, order, now) by {
          if rollover {
            assert i == |order|;
          } else {
            ExpiredEndIsDue(ts, order, now, probe);
          }
        }
        FirePrefix(ts, order, i, now);
      }
    }
  }

  /** The second region, against the plain filter; it may find the set empty. */
  lemma CollectedEffect(s: State, now: Word, probe: nat)
    requires Sorted(s.timers, s.order)
    ensures var r := Collected(s, now, probe);
      && r.rollover == Rollover(s.previous, now)
      && r.fired == (if r.rollover then s.order else Due(s.timers, s.order, now))
      && r.fired <= s.order
      && Sorted(r.s.timers, r.s.order)
      && r.s.timers.Keys == s.timers.Keys
      && (forall a :: a in s.timers ==> r.s.timers[a] == if a in r.fired then Fired(s.timers[a], now) else s.timers[a])
      && (forall a :: a in s.timers ==> (a in r.s.order <==> a in s.order && (a in r.fired ==> s.timers[a].recurring)))
      && r.s.tickled == s.tickled
      && r.s.previous == now
  {
    ListExpiredEffect(s, now, probe);
    hide ListExpired, Rollover;
  }

  /**
   * Everything listExpiredCb promises. A clock set back by more than an hour, or at all within
   * the first hour, fires every timer in the set; otherwise those fire whose deadline has come.
   * They fire in the order of the set, recurring ones anew from `now` on.
   */
  lemma ListExpiredSpec(s: State, now: Word, probe: nat)
    requires Sorted(s.timers, s.order)
    ensures var r := ListExpired(s, now, probe);
      && r.rollover == (s.order != [] && now < s.previous && (s.previous < 3_600_000 || now + 3_600_000 < s.previous))
      && ExpiryIs(s, r, now)
      && r.s.previous == if s.order == [] then s.previous else now
  {
    hide ListExpired, Rollover, Sorted;
    ListExpiredEffect(s, now, probe);
    RolloverIff(s.previous, now);
    ExpiryByFilter(s, ListExpired(s, now, probe), now);
    hide ExpiryIs, Due;
  }

  /** The second region promises the same; it may find the set empty. */
  lemma CollectedSpec(s: State, now: Word, probe: nat)
    requires Sorted(s.timers, s.order)
    ensures var r := Collected(s, now, probe);
      && r.rollover == (now < s.previous && (s.previous < 3_600_000 || now + 3_600_000 < s.previous))
      && ExpiryIs(s, r, now)
      && r.s.previous == now
  {
    hide Collected, Rollover, Sorted;
    CollectedEffect(s, now, probe);
    RolloverIff(s.previous, now);
    ExpiryByFilter(s, Collected(s, now, probe), now);
    hide ExpiryIs, Due;
  }

  /** Who fires, what becomes of each timer, and who is left in the set. */
  ghost predicate ExpiryIs(s: State, r: Expired, now: Word)
    requires Sorted(s.timers, s.order)
  {
    && r.fired <= s.order
    && (forall a :: a in r.fired <==> a in s.order && (r.rollover || s.timers[a].next <= now))
    && Sorted(r.s.timers, r.s.order)
    && r.s.timers.Keys == s.timers.Keys
    && (forall a :: a in s.timers ==>
          var t := s.timers[a];
          r.s.timers[a] == if a !in r.fired then t
                           else if t.recurring then t.(next := Add64(now, t.ms))
                           else t.(cb := None))
    && (forall a :: a in s.timers ==> (a in r.s.order <==> a in s.order && (a in r.fired ==> s.timers[a].recurring)))
    && r.s.tickled == s.tickled
  }

  lemma ExpiryByFilter(s: State, r: Expired, now: Word)
    requires Sorted(s.timers, s.order) && Sorted(r.s.timers, r.s.order)
    requires r.fired == (if r.rollover then s.order else Due(s.timers, s.order, now)) && r.fired <= s.order
    requires r.s.timers.Keys == s.timers.Keys && r.s.tickled == s.tickled
    requires forall a :: a in s.timers ==>
      r.s.timers[a] == if a in r.fired then Fired(s.timers[a], now) else s.timers[a]
    requires forall a :: a in s.timers ==>
      (a in r.s.order <==> a in s.order && (a in r.fired ==> s.timers[a].recurring))
    ensures ExpiryIs(s, r, now)
  {
    DueMembers(s.timers, s.order, now);
    hide Add64, Sorted, Due;
  }

  lemma DueMembers(ts: Timers, order: seq<nat>, now: Word)
    requires forall a :: a in order ==> a in ts
    ensures forall a :: a in Due(ts, order, now) <==> a in order && ts[a].next <= now
  {
    if order != [] {
      DueMembers(ts, order[1..], now);
      assert forall a :: a in order <==> a == order[0] || a in order[1..];
    }
  }

  /**
   * After an expiry without rollover nothing is left due, except that a recurring timer
   * comes straight back when its period is zero or carries its deadline past 2^64.
   */
  lemma NothingLeftDueIff(s: State, now: Word, probe: nat)
    requires Sorted(s.timers, s.order) && !Rollover(s.previous, now)
    ensures var r := ListExpired(s, now, probe).s;
      && Sorted(r.timers, r.order)
      && (Due(r.timers, r.order, now) == [] <==>
          forall a :: a in s.order && s.timers[a].next <= now && s.timers[a].recurring ==>
            Advances(now, s.timers[a].ms))
  {
    var r := ListExpired(s, now, probe).s;
    ListExpiredEffect(s, now, probe);
    DueMembers(s.timers, s.order, now);
    DueMembers(r.timers, r.order, now);
    forall a | a in s.order && s.timers[a].next <= now && s.timers[a].recurring
      ensures a in r.order && (r.timers[a].next > now <==> Advances(now, s.timers[a].ms))
    {
      AdvancesIff(now, s.timers[a].ms);
    }
    if Due(r.timers, r.order, now) != [] {
      var a := Due(r.timers, r.order, now)[0];
      assert a in Due(r.timers, r.order, now);
      assert a in s.order;
    }
  }

  predicate Advances(now: Word, ms: Word) {
    0 < ms && now + ms < TWO_TO_THE_64
  }

  lemma AdvancesIff(now: Word, ms: Word)
    ensures Add64(now, ms) > now <==> Advances(now, ms)
  {
  }

  // ------------------------------------------------------- sleeping, waking

  lemma FrontIsLeast(ts: Timers, order: seq<nat>)
    requires Sorted(ts, order) && order != []
    ensures forall a :: a in order ==> ts[order[0]].next <= ts[a].next
  {
    forall a | a in order ensures ts[order[0]].next <= ts[a].next {
      var j :| 0 <= j < |order| && order[j] == a;
      if 0 < j { assert KeyLess(KeyOf(ts, order[0]), KeyOf(ts, order[j])); }
    }
  }

  /** The answer is "no wait", all ones, without a timer, or seen from time zero for one at the last millisecond. */
  lemma NoWaitIff(s: State, now: Word)
    requires Sorted(s.timers, s.order)
    ensures GetNextTimer(s, now).1 == ALL_ONES <==>
      s.order == [] || (now == 0 && s.timers[s.order[0]].next == ALL_ONES)
  {
  }

  /**
   * The wait getNextTimer hands out is exact: zero when and only when an expiry at the same
   * instant would fire something, otherwise the distance to the earliest deadline.
   */
  lemma WaitIsExact(s: State, now: Word, probe: nat)
    requires Sorted(s.timers, s.order) && s.order != [] && !Rollover(s.previous, now)
    ensures var d := GetNextTimer(s, now).1;
      && (d == 0 <==> ListExpired(s, now, probe).fired != [])
      && (d > 0 ==>
            && now + d < TWO_TO_THE_64
            && (exists a :: a in s.order && s.timers[a].next == now + d)
            && (forall later: Word :: now <= later < now + d ==> Due(s.timers, s.order, later) == [])
            && Due(s.timers, s.order, now + d) != [])
  {
    ListExpiredEffect(s, now, probe);
    FrontIsLeast(s.timers, s.order);
    var first := s.order[0];
    assert first in s.order;
    forall t: Word ensures Due(s.timers, s.order, t) == [] <==> t < s.timers[first].next {
      DueMembers(s.timers, s.order, t);
      if t >= s.timers[first].next { assert first in Due(s.timers, s.order, t); }
      if Due(s.timers, s.order, t) != [] { assert Due(s.timers, s.order, t)[0] in Due(s.timers, s.order, t); }
    }
  }

  // --------------------------------------------------- validity is preserved

  lemma AddTimerValid(
      s: State, a: nat, ms: Word, cb: Option<nat>, recurring: bool, now: Word, born: map<nat, Option<nat>>)
    requires Valid(s, born) && a !in s.timers
    ensures var s' := AddTimer(s, a, ms, cb, recurring, now).0;
      && Valid(s', born[a := cb]) && a in s'.order && forall b :: b in s.order ==> b in s'.order
  {
    var ts := s.timers[a := Timer(recurring, ms, Add64(now, ms), cb)];
    SortedFrame(s.timers, ts, s.order);
    InsertSorted(ts, s.order, a);
    var order := Insert(ts, s.order, a).0;
    hide Insert, Sorted, LowerBound;
    assert a in order && forall b :: b in s.order ==> b in order;
    assert born[a := cb].Keys == ts.Keys;
    forall b | b in ts ensures ts[b].cb == if b in order then born[a := cb][b] else None {
      if b != a { assert b in order <==> b in s.order; }
    }
  }

  /** cancel succeeds exactly on a live timer and the unchecked erase always has an element to erase. */
  lemma CancelValid(s: State, a: nat, born: map<nat, Option<nat>>)
    requires Valid(s, born) && a in s.timers
    ensures var (s', ok) := Cancel(s, a, born);
      && Valid(s', born)
      && (ok <==> a in s.order && born[a].Some?)
      && (forall b :: b in s'.order <==> b in s.order && !(ok && b == a))
      && s'.timers == s.timers[a := s.timers[a].(cb := None)]
  {
    if s.timers[a].cb.Some? {
      var ts := s.timers[a := s.timers[a].(cb := None)];
      SortedFrame(s.timers, ts, s.order);
      EraseSorted(ts, s.order, Find(ts, s.order, a));
    } else {
      assert s.timers[a].(cb := None) == s.timers[a];
    }
  }

  /** Re-keying happens only outside the set: erase, change the deadline, insert. */
  lemma {:induction false} RekeyValid(s: State, a: nat, t: Timer, born: map<nat, Option<nat>>)
    requires Valid(s, born) && a in s.order && t.cb == born[a]
    ensures var order := EraseAt(s.order, Find(s.timers, s.order, a));
      var ts := s.timers[a := t];
      && Sorted(ts, order)
      && Valid(s.(timers := ts, order := Insert(ts, order, a).0), born)
      && (forall b :: b in Insert(ts, order, a).0 <==> b in s.order)
      && (forall b :: b in order <==> b in s.order && b != a)
  {
    var i := Find(s.timers, s.order, a);
    var order := EraseAt(s.order, i);
    var ts := s.timers[a := t];
    EraseSorted(s.timers, s.order, i);
    SortedFrame(s.timers, ts, order);
    InsertSorted(ts, order, a);
  }

  lemma {:induction false} RefreshValid(s: State, a: nat, now: Word, born: map<nat, Option<nat>>)
    requires Valid(s, born) && a in s.timers
    ensures var (s', ok) := Refresh(s, a, now);
      && Valid(s', born)
      && (ok <==> a in s.order && born[a].Some?)
      && (forall b :: b in s'.order <==> b in s.order)
      && s'.timers == (if ok then s.timers[a := s.timers[a].(next := Add64(now, s.timers[a].ms))] else s.timers)
      && s'.tickled == s.tickled && s'.previous == s.previous
  {
    if s.timers[a].cb.Some? {
      RekeyValid(s, a, s.timers[a].(next := Add64(now, s.timers[a].ms)), born);
    }
  }

  lemma {:induction false} ResetValid(s: State, a: nat, ms: Word, fromNow: bool, now: Word, born: map<nat, Option<nat>>)
    requires Valid(s, born) && a in s.timers
    ensures var (s', ok, front) := Reset(s, a, ms, fromNow, now);
      var t := s.timers[a];
      var moved := (ms != t.ms || fromNow) && a in s.order && born[a].Some?;
      && Valid(s', born)
      && (ok <==> moved || (ms == t.ms && !fromNow))
      && (forall b :: b in s'.order <==> b in s.order)
      && s'.timers == (if moved
           then s.timers[a := t.(ms := ms, next := Add64(if fromNow then now else Sub64(t.next, t.ms), ms))]
           else s.timers)
      && (front ==> moved) && s'.previous == s.previous
      && s'.tickled == (s.tickled || front)
  {
    var t := s.timers[a];
    if (ms != t.ms || fromNow) && t.cb.Some? {
      RekeyValid(s, a, t.(ms := ms, next := Add64(if fromNow then now else Sub64(t.next, t.ms), ms)), born);
    }
  }

  lemma ValidIsSorted(s: State, born: map<nat, Option<nat>>)
    requires Valid(s, born)
    ensures Sorted(s.timers, s.order)
  {
  }

  lemma SortedMembers(ts: Timers, order: seq<nat>)
    requires Sorted(ts, order)
    ensures forall a :: a in order ==> a in ts
    ensures forall i, j :: 0 <= i < j < |order| ==> order[i] != order[j]
  {
    forall i, j | 0 <= i < j < |order| ensures order[i] != order[j] {
      assert KeyLess(KeyOf(ts, order[i]), KeyOf(ts, order[j]));
    }
  }

  /** A timer with a callback is found in the set, whatever its callback is changed to. */
  lemma LiveIsFound(s: State, a: nat, cb: Option<nat>, born: map<nat, Option<nat>>)
    requires Valid(s, born) && a in s.timers && s.timers[a].cb.Some?
    ensures var ts := s.timers[a := s.timers[a].(cb := cb)];
      Sorted(ts, s.order) && Find(ts, s.order, a) < |s.order|
  {
    SortedFrame(s.timers, s.timers[a := s.timers[a].(cb := cb)], s.order);
  }

  lemma CollectedValid(s: State, now: Word, probe: nat, born: map<nat, Option<nat>>)
    requires Valid(s, born)
    ensures Valid(Collected(s, now, probe).s, born)
  {
    ListExpiredValid(s, now, probe, born);
    hide ListExpired, Rollover;
  }

  lemma ListExpiredValid(s: State, now: Word, probe: nat, born: map<nat, Option<nat>>)
    requires Valid(s, born)
    ensures Valid(ListExpired(s, now, probe).s, born)
  {
    var r := ListExpired(s, now, probe);
    ListExpiredEffect(s, now, probe);
    if s.order != [] { DueMembers(s.timers, s.order, now); }
    forall a | a in s.timers ensures r.s.timers[a].cb == if a in r.s.order then born[a] else None {
    }
  }
}
