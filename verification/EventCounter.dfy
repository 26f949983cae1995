/**
 * The pending counter of IOManager under concurrency. Every operation is split into its
 * single writes, in the order of the code; contexts are protected by their own mutex, the
 * counter is not. Any number of threads.
 */
module EventCounter {
  import opened Common
  import E = EventTable

  /** A bit of some m_events. */
  type Bit = (nat, E.Dir)

  /**
   * Where a thread is: outside, inside a context's mutex, or there between two writes:
   * counted but not set (line 139 comes next), fired but still counted (lines 219, 253,
   * 257, 390, 394), uncounted but still set (line 184).
   */
  datatype Place =
    | Outside
    | Inside(fd: nat)
    | Adding(bit: Bit)
    | Fired(bit: Bit)
    | Deleting(bit: Bit)

  datatype Counter = Counter(bits: set<Bit>, pending: int, threads: map<nat, Place>)

  function Descriptor(p: Place): nat
    requires !p.Outside?
  {
    match p
    case Inside(fd) => fd
    case Adding(bit) => bit.0
    case Fired(bit) => bit.0
    case Deleting(bit) => bit.0
  }

  datatype Write =
    | Lock(fd: nat)
    | Unlock
    | CountUp(d: E.Dir)
    | SetBit
    | CountDownForDelete(d: E.Dir)
    | ClearDeleted
    | FireBit(d: E.Dir)
    | CountDownFired

  ghost predicate Free(s: Counter, fd: nat) {
    forall u :: u in s.threads && !s.threads[u].Outside? ==> Descriptor(s.threads[u]) != fd
  }

  ghost predicate Enabled(s: Counter, w: nat, op: Write) {
    && w in s.threads
    && var p := s.threads[w];
    match op
    case Lock(fd) => p.Outside? && Free(s, fd)
    case Unlock => p.Inside?
    case CountUp(d) => p.Inside? && (p.fd, d) !in s.bits
    case SetBit => p.Adding?
    case CountDownForDelete(d) => p.Inside? && (p.fd, d) in s.bits
    case ClearDeleted => p.Deleting?
    case FireBit(d) => p.Inside? && (p.fd, d) in s.bits
    case CountDownFired => p.Fired?
  }

  ghost function Step(s: Counter, w: nat, op: Write): Counter
    requires Enabled(s, w, op)
  {
    var p := s.threads[w];
    match op
    case Lock(fd) => s.(threads := s.threads[w := Inside(fd)])
    case Unlock => s.(threads := s.threads[w := Outside])
    case CountUp(d) => s.(pending := s.pending + 1, threads := s.threads[w := Adding((p.fd, d))])
    case SetBit => s.(bits := s.bits + {p.bit}, threads := s.threads[w := Inside(p.bit.0)])
    case CountDownForDelete(d) => s.(pending := s.pending - 1, threads := s.threads[w := Deleting((p.fd, d))])
    case ClearDeleted => s.(bits := s.bits - {p.bit}, threads := s.threads[w := Inside(p.bit.0)])
    case FireBit(d) => s.(bits := s.bits - {(p.fd, d)}, threads := s.threads[w := Fired((p.fd, d))])
    case CountDownFired => s.(pending := s.pending - 1, threads := s.threads[w := Inside(p.bit.0)])
  }

  // Threads between two writes, by kind.

  ghost function Adders(ts: map<nat, Place>): set<nat> { set u | u in ts && ts[u].Adding? }
  ghost function Firers(ts: map<nat, Place>): set<nat> { set u | u in ts && ts[u].Fired? }
  ghost function Deleters(ts: map<nat, Place>): set<nat> { set u | u in ts && ts[u].Deleting? }

  ghost predicate Exclusive(s: Counter) {
    forall u, v :: u in s.threads && v in s.threads && u != v && !s.threads[u].Outside? && !s.threads[v].Outside? ==>
      Descriptor(s.threads[u]) != Descriptor(s.threads[v])
  }

  ghost predicate BitsFit(s: Counter) {
    forall u :: u in s.threads ==>
      && (s.threads[u].Adding? ==> s.threads[u].bit !in s.bits)
      && (s.threads[u].Deleting? ==> s.threads[u].bit in s.bits)
  }

  /** The counter is off the number of set bits by the threads between two writes, exactly. */
  ghost predicate Counted(s: Counter) {
    && Exclusive(s)
    && BitsFit(s)
    && s.pending == |s.bits| + |Adders(s.threads)| + |Firers(s.threads)| - |Deleters(s.threads)|
  }

  lemma AddersMove(ts: map<nat, Place>, w: nat, p: Place)
    requires w in ts
    ensures |Adders(ts[w := p])| == |Adders(ts)| - (if ts[w].Adding? then 1 else 0) + (if p.Adding? then 1 else 0)
  {
    assert Adders(ts[w := p]) == if p.Adding? then Adders(ts) + {w} else Adders(ts) - {w};
    ElementMoves(Adders(ts), Adders(ts[w := p]), w, p.Adding?);
  }

  lemma FirersMove(ts: map<nat, Place>, w: nat, p: Place)
    requires w in ts
    ensures |Firers(ts[w := p])| == |Firers(ts)| - (if ts[w].Fired? then 1 else 0) + (if p.Fired? then 1 else 0)
  {
    assert Firers(ts[w := p]) == if p.Fired? then Firers(ts) + {w} else Firers(ts) - {w};
    ElementMoves(Firers(ts), Firers(ts[w := p]), w, p.Fired?);
  }

  lemma DeletersMove(ts: map<nat, Place>, w: nat, p: Place)
    requires w in ts
    ensures |Deleters(ts[w := p])|
      == |Deleters(ts)| - (if ts[w].Deleting? then 1 else 0) + (if p.Deleting? then 1 else 0)
  {
    assert Deleters(ts[w := p]) == if p.Deleting? then Deleters(ts) + {w} else Deleters(ts) - {w};
    ElementMoves(Deleters(ts), Deleters(ts[w := p]), w, p.Deleting?);
  }

  /** Only one thread moves, and it stays at its descriptor unless it takes or leaves a free mutex. */
  lemma ExclusiveStep(s: Counter, w: nat, op: Write)
    requires Exclusive(s) && Enabled(s, w, op)
    ensures Exclusive(Step(s, w, op))
    ensures forall u :: u in s.threads && u != w ==>
      u in Step(s, w, op).threads && Step(s, w, op).threads[u] == s.threads[u]
    ensures forall u :: u in s.threads && u != w && !s.threads[u].Outside? && !s.threads[w].Outside? ==>
      Descriptor(s.threads[u]) != Descriptor(s.threads[w])
  {
    var p := s.threads[w];
    var p' := Step(s, w, op).threads[w];
    assert !p.Outside? && !p'.Outside? ==> Descriptor(p) == Descriptor(p');
  }

  lemma BitsFitStep(s: Counter, w: nat, op: Write)
    requires Exclusive(s) && BitsFit(s) && Enabled(s, w, op)
    ensures BitsFit(Step(s, w, op))
  {
    ExclusiveStep(s, w, op);
    var s' := Step(s, w, op);
    hide Exclusive;
    forall u | u in s'.threads
      ensures s'.threads[u].Adding? ==> s'.threads[u].bit !in s'.bits
      ensures s'.threads[u].Deleting? ==> s'.threads[u].bit in s'.bits
    {
      if u != w && (s.threads[u].Adding? || s.threads[u].Deleting?) && !s.threads[w].Outside? {
        assert s.threads[u].bit.0 != Descriptor(s.threads[w]);
      }
    }
  }

  lemma CountedStep(s: Counter, w: nat, op: Write)
    requires Counted(s) && Enabled(s, w, op)
    ensures Counted(Step(s, w, op))
  {
    ExclusiveStep(s, w, op);
    BitsFitStep(s, w, op);
    var s' := Step(s, w, op);
    assert s'.threads == s.threads[w := s'.threads[w]];
    AddersMove(s.threads, w, s'.threads[w]);
    FirersMove(s.threads, w, s'.threads[w]);
    DeletersMove(s.threads, w, s'.threads[w]);
    assert s.threads[w].Adding? ==> s.threads[w].bit !in s.bits;
    assert s.threads[w].Deleting? ==> s.threads[w].bit in s.bits;
    hide Exclusive, BitsFit, Adders, Firers, Deleters;
  }

  /** `s` is reached from `s0` by writes of any threads in any order. */
  ghost predicate Runs(s0: Counter, ops: seq<(nat, Write)>, s: Counter)
    decreases |ops|
  {
    if ops == [] then s == s0
    else Enabled(s0, ops[0].0, ops[0].1) && Runs(Step(s0, ops[0].0, ops[0].1), ops[1..], s)
  }

  lemma {:induction false} CounterIsExact(s0: Counter, ops: seq<(nat, Write)>, s: Counter)
    requires Counted(s0) && Runs(s0, ops, s)
    ensures Counted(s)
    decreases |ops|
  {
    if ops != [] {
      CountedStep(s0, ops[0].0, ops[0].1);
      CounterIsExact(Step(s0, ops[0].0, ops[0].1), ops[1..], s);
    }
  }

  /** From the start, with any threads outside. */
  lemma CounterFromTheStart(threads: map<nat, Place>, ops: seq<(nat, Write)>, s: Counter)
    requires forall u :: u in threads ==> threads[u].Outside?
    requires Runs(Counter({}, 0, threads), ops, s)
    ensures Counted(s)
  {
    NothingInFlight(threads);
    CounterIsExact(Counter({}, 0, threads), ops, s);
  }

  ghost function DeletedBits(s: Counter): set<Bit> {
    set u | u in s.threads && s.threads[u].Deleting? :: s.threads[u].bit
  }

  lemma DeletedBitsCount(s: Counter, us: set<nat>)
    requires Exclusive(s) && us <= Deleters(s.threads)
    ensures |set u | u in us :: s.threads[u].bit| == |us|
  {
    if us != {} {
      var u :| u in us;
      DeletedBitsCount(s, us - {u});
      var rest := set v | v in us - {u} :: s.threads[v].bit;
      assert (set v | v in us :: s.threads[v].bit) == rest + {s.threads[u].bit};
      forall v | v in us - {u} ensures s.threads[v].bit != s.threads[u].bit {
        assert Descriptor(s.threads[v]) != Descriptor(s.threads[u]);
      }
    }
  }

  /**
   * The counter never runs below zero. It covers all set bits exactly when additions and
   * firings in flight make up for deletions in flight, because delEvent counts down before
   * it clears the bit; with nothing in flight it is the number of bits.
   */
  lemma CoversBitsIff(s: Counter)
    requires Counted(s)
    ensures s.pending >= 0
    ensures s.pending >= |s.bits| <==> |Adders(s.threads)| + |Firers(s.threads)| >= |Deleters(s.threads)|
    ensures Adders(s.threads) + Firers(s.threads) + Deleters(s.threads) == {} ==> s.pending == |s.bits|
    ensures s.pending == 0 <==> Adders(s.threads) == {} && Firers(s.threads) == {} && s.bits == DeletedBits(s)
  {
    DeletedBitsCount(s, Deleters(s.threads));
    var ds := DeletedBits(s);
    assert ds == set u | u in Deleters(s.threads) :: s.threads[u].bit;
    assert ds <= s.bits;
    assert |ds| == |Deleters(s.threads)|;
    hide Exclusive, BitsFit, DeletedBits, Adders, Firers, Deleters;
    assert |s.bits - ds| == |s.bits| - |ds|;
    assert s.bits == ds <==> s.bits - ds == {};
  }

  /** The counter reads zero while a bit is still set: delEvent between its two writes. */
  lemma ZeroWithBitSetExample(fd: nat)
    ensures exists s ::
      && Runs(Counter({}, 0, map[1 := Outside]),
              [(1, Lock(fd)), (1, CountUp(E.Read)), (1, SetBit), (1, CountDownForDelete(E.Read))], s)
      && s.pending == 0 && s.bits == {(fd, E.Read)}
  {
    var s0 := Counter({}, 0, map[1 := Outside]);
    var s1 := Step(s0, 1, Lock(fd));
    var s2 := Step(s1, 1, CountUp(E.Read));
    var s3 := Step(s2, 1, SetBit);
    var s4 := Step(s3, 1, CountDownForDelete(E.Read));
    assert Runs(s4, [], s4);
    assert Runs(s3, [(1, CountDownForDelete(E.Read))], s4);
    assert Runs(s2, [(1, SetBit), (1, CountDownForDelete(E.Read))], s4);
    assert Runs(s1, [(1, CountUp(E.Read)), (1, SetBit), (1, CountDownForDelete(E.Read))], s4);
    assert Runs(s0, [(1, Lock(fd)), (1, CountUp(E.Read)), (1, SetBit), (1, CountDownForDelete(E.Read))], s4);
  }

  lemma NothingInFlight(threads: map<nat, Place>)
    requires forall u :: u in threads ==> threads[u].Outside?
    ensures Counted(Counter({}, 0, threads))
  {
    assert Adders(threads) == {} && Firers(threads) == {} && Deleters(threads) == {};
  }
}
