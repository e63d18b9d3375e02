/**
  The bounded multi-producer single-consumer ring of the event loop, with the
  eventfd wake-up around it, as a transition system: every shared-memory access
  is one atomic step, and any interleaving of any number of producers with the
  one consumer is a run. Positions are unbounded naturals.
 */
module MpscQueue {
  import opened ModularArithmetic
  import opened Wrappers

  type Thread = nat

  datatype Slot<+T> = Slot(sequence: nat, value: Option<T>)

  /** Where a producer thread stands inside `push` and the signal that follows it. */
  datatype Producer<+T> =
    | Outside
    | HeadLoaded(item: T, pos: nat)
    | SequenceLoaded(item: T, pos: nat, sequence: nat)
    | SlotClaimed(item: T, pos: nat)
    | ValueWritten(pos: nat)
    | Published(pos: nat)
    | Counted

  /** Where the consumer thread stands inside the event loop, `handle_read` and `pop`. */
  datatype Consumer<+T> =
    | Waiting
    | Woken
    | Draining
    | SequenceSeen(sequence: nat)
    | Taken(item: T)
    | Cleared(item: T)
    | SlotFreed(item: T)
    | TailAdvanced(item: T)

  /**
    The shared memory, the program counters, and the history of the run:
    `claimed[p]` is the item whose push won position p, `claimants[p]` the thread
    that won it, and `popped` the values the consumer has taken.
   */
  datatype State<+T> = State(
    slots: seq<Slot<T>>,
    head: nat,
    tail: nat,
    size: int,
    signals: nat,
    producers: map<Thread, Producer<T>>,
    consumer: Consumer<T>,
    claimed: seq<T>,
    claimants: seq<Thread>,
    popped: seq<T>)

  datatype Action<+T> =
    | LoadHead(thread: Thread, item: T)
    | LoadSequence(thread: Thread)
    | CompareExchange(thread: Thread, spurious: bool)
    | ThrowFull(thread: Thread)
    | ReloadHead(thread: Thread)
    | WriteValue(thread: Thread)
    | Publish(thread: Thread)
    | CountUp(thread: Thread)
    | Signal(thread: Thread)
    | Wake
    | ReadSignals
    | LoadTailSequence
    | TakeValue
    | ClearValue
    | FreeSlot
    | AdvanceTail
    | CountDown
    | PopNothing

  function At<T>(s: State<T>, pos: nat): Slot<T>
    requires |s.slots| > 0
  {
    s.slots[pos % |s.slots|]
  }

  function ProducerOf<T>(s: State<T>, t: Thread): Producer<T> {
    if t in s.producers then s.producers[t] else Outside
  }

  function SetProducer<T>(s: State<T>, t: Thread, p: Producer<T>): State<T> {
    s.(producers := s.producers[t := p])
  }

  function SetSlot<T>(s: State<T>, pos: nat, slot: Slot<T>): State<T>
    requires |s.slots| > 0
  {
    s.(slots := s.slots[pos % |s.slots| := slot])
  }

  ghost predicate Init<T>(s: State<T>) {
    && |s.slots| > 1
    && (forall i :: 0 <= i < |s.slots| ==> s.slots[i] == Slot(i, None))
    && s == State(s.slots, 0, 0, 0, 0, map[], Waiting, [], [], [])
  }

  /** The control point from which each atomic step is taken. */
  predicate Enabled<T>(s: State<T>, a: Action<T>)
    requires |s.slots| > 0
  {
    match a
    case LoadHead(t, _) => ProducerOf(s, t).Outside?
    case LoadSequence(t) => ProducerOf(s, t).HeadLoaded?
    case CompareExchange(t, _) =>
      var p := ProducerOf(s, t);
      p.SequenceLoaded? && p.sequence == p.pos
    case ThrowFull(t) =>
      var p := ProducerOf(s, t);
      p.SequenceLoaded? && p.sequence < p.pos
    case ReloadHead(t) =>
      var p := ProducerOf(s, t);
      p.SequenceLoaded? && p.sequence > p.pos
    case WriteValue(t) => ProducerOf(s, t).SlotClaimed?
    case Publish(t) => ProducerOf(s, t).ValueWritten?
    case CountUp(t) => ProducerOf(s, t).Published?
    case Signal(t) => ProducerOf(s, t).Counted?
    case Wake => s.consumer.Waiting?
    case ReadSignals => s.consumer.Woken?
    case LoadTailSequence => s.consumer.Draining?
    case TakeValue =>
      s.consumer.SequenceSeen? && s.consumer.sequence == s.tail + 1 && At(s, s.tail).value.Some?
    case PopNothing => s.consumer.SequenceSeen? && s.consumer.sequence != s.tail + 1
    case ClearValue => s.consumer.Taken?
    case FreeSlot => s.consumer.Cleared?
    case AdvanceTail => s.consumer.SlotFreed?
    case CountDown => s.consumer.TailAdvanced?
  }

  /** The effect of each atomic step on the shared memory. */
  function Apply<T>(s: State<T>, a: Action<T>): State<T>
    requires |s.slots| > 0 && Enabled(s, a)
  {
    match a
    case LoadHead(t, item) => SetProducer(s, t, HeadLoaded(item, s.head))
    case LoadSequence(t) =>
      var p := ProducerOf(s, t);
      SetProducer(s, t, SequenceLoaded(p.item, p.pos, At(s, p.pos).sequence))
    case CompareExchange(t, spurious) =>
      var p := ProducerOf(s, t);
      if s.head == p.pos && !spurious then
        SetProducer(s, t, SlotClaimed(p.item, p.pos))
          .(head := s.head + 1, claimed := s.claimed + [p.item], claimants := s.claimants + [t])
      else
        SetProducer(s, t, HeadLoaded(p.item, s.head))
    case ThrowFull(t) => SetProducer(s, t, Outside)
    case ReloadHead(t) => SetProducer(s, t, HeadLoaded(ProducerOf(s, t).item, s.head))
    case WriteValue(t) =>
      var p := ProducerOf(s, t);
      SetProducer(SetSlot(s, p.pos, At(s, p.pos).(value := Some(p.item))), t, ValueWritten(p.pos))
    case Publish(t) =>
      var p := ProducerOf(s, t);
      SetProducer(SetSlot(s, p.pos, At(s, p.pos).(sequence := p.pos + 1)), t, Published(p.pos))
    case CountUp(t) => SetProducer(s, t, Counted).(size := s.size + 1)
    case Signal(t) => SetProducer(s, t, Outside).(signals := s.signals + 1)
    case Wake => s.(consumer := Woken)
    case ReadSignals => s.(consumer := Draining, signals := 0)
    case LoadTailSequence => s.(consumer := SequenceSeen(At(s, s.tail).sequence))
    case TakeValue =>
      var item := At(s, s.tail).value.value;
      s.(consumer := Taken(item), popped := s.popped + [item])
    case PopNothing => s.(consumer := Waiting)
    case ClearValue =>
      SetSlot(s, s.tail, At(s, s.tail).(value := None)).(consumer := Cleared(s.consumer.item))
    case FreeSlot =>
      SetSlot(s, s.tail, At(s, s.tail).(sequence := s.tail + |s.slots|)).(consumer := SlotFreed(s.consumer.item))
    case AdvanceTail => s.(tail := s.tail + 1, consumer := TailAdvanced(s.consumer.item))
    case CountDown => s.(size := s.size - 1, consumer := Draining)
  }

  // ---------------------------------------------------------------- invariant

  /** The first position whose slot has not been handed back to the producers. */
  function Freed<T>(s: State<T>): nat {
    if s.consumer.SlotFreed? then s.tail + 1 else s.tail
  }

  /** How many values the consumer has taken out of slots. */
  function TakenCount<T>(s: State<T>): nat {
    if s.consumer.Taken? || s.consumer.Cleared? || s.consumer.SlotFreed? then s.tail + 1 else s.tail
  }

  predicate IsPublished<T>(s: State<T>, pos: nat)
    requires |s.slots| > 0
  {
    pos < s.head && At(s, pos).sequence == pos + 1
  }

  /** A producer that may write the slot of `pos`. */
  predicate Owns<T>(p: Producer<T>, pos: nat) {
    (p.SlotClaimed? || p.ValueWritten?) && p.pos == pos
  }

  /** A producer that has claimed a position and not yet counted it. */
  predicate InFlight<T>(p: Producer<T>) {
    p.SlotClaimed? || p.ValueWritten? || p.Published?
  }

  ghost function InFlightThreads<T>(s: State<T>): set<Thread> {
    set t | t in s.producers && InFlight(s.producers[t])
  }

  /** Every slot's sequence tells which position it serves and whether that one is published. */
  ghost predicate SlotsOk<T>(s: State<T>)
    requires |s.slots| > 0 && |s.claimed| == |s.claimants| == s.head
  {
    && (forall p: nat {:trigger At(s, p)} :: s.head <= p < Freed(s) + |s.slots| ==> At(s, p).sequence == p)
    && (forall p: nat {:trigger At(s, p)} :: Freed(s) <= p < s.head ==>
         || At(s, p).sequence == p + 1
         || (At(s, p).sequence == p && Owns(ProducerOf(s, s.claimants[p]), p)))
    && (forall p: nat {:trigger At(s, p)} :: Freed(s) <= p < s.head && At(s, p).sequence == p + 1 ==>
         At(s, p).value == Some(s.claimed[p]) || (p == s.tail && s.consumer.Cleared?))
  }

  ghost predicate ProducerOk<T>(s: State<T>, t: Thread, p: Producer<T>)
    requires |s.slots| > 0 && |s.claimed| == |s.claimants| == s.head
  {
    match p
    case Outside => true
    case HeadLoaded(_, pos) => pos <= s.head
    case SequenceLoaded(_, pos, sequence) => pos <= s.head && sequence <= At(s, pos).sequence
    case SlotClaimed(item, pos) =>
      && Freed(s) <= pos < s.head
      && s.claimants[pos] == t && s.claimed[pos] == item
      && At(s, pos).sequence == pos
    case ValueWritten(pos) =>
      && Freed(s) <= pos < s.head
      && s.claimants[pos] == t
      && At(s, pos) == Slot(pos, Some(s.claimed[pos]))
    case Published(pos) => pos < s.head
    case Counted => true
  }

  ghost predicate ConsumerOk<T>(s: State<T>)
    requires |s.slots| > 0 && |s.claimed| == s.head
  {
    match s.consumer
    case SequenceSeen(sequence) => sequence == s.tail + 1 ==> IsPublished(s, s.tail)
    case Taken(item) => IsPublished(s, s.tail) && item == s.claimed[s.tail]
    case Cleared(item) => IsPublished(s, s.tail) && item == s.claimed[s.tail]
    case SlotFreed(item) => s.tail < s.head && item == s.claimed[s.tail]
    case TailAdvanced(item) => 0 < s.tail <= s.head && item == s.claimed[s.tail - 1]
    case _ => true
  }

  /** Some producer has published an item and has not signalled it yet. */
  ghost predicate SignalDue<T>(s: State<T>) {
    exists t :: t in s.producers && (s.producers[t].Published? || s.producers[t].Counted?)
  }

  /** The consumer has decided to sleep, or sleeps. */
  predicate GoingToSleep<T>(s: State<T>) {
    s.consumer.Waiting? || (s.consumer.SequenceSeen? && s.consumer.sequence != s.tail + 1)
  }

  ghost predicate WakeOk<T>(s: State<T>)
    requires |s.slots| > 0
  {
    GoingToSleep(s) && IsPublished(s, s.tail) ==> s.signals > 0 || SignalDue(s)
  }

  ghost predicate Shape<T>(s: State<T>) {
    && |s.slots| > 1
    && |s.claimed| == |s.claimants| == s.head
    && Freed(s) <= s.head <= Freed(s) + |s.slots|
    && TakenCount(s) <= s.head
    && s.popped == s.claimed[..TakenCount(s)]
  }

  ghost predicate CountOk<T>(s: State<T>) {
    s.size + |InFlightThreads(s)| == s.head - (if s.consumer.TailAdvanced? then s.tail - 1 else s.tail)
  }

  ghost predicate Inv<T>(s: State<T>) {
    && Shape(s)
    && SlotsOk(s)
    && (forall t {:trigger s.producers[t]} :: t in s.producers ==> ProducerOk(s, t, s.producers[t]))
    && ConsumerOk(s)
    && CountOk(s)
    && WakeOk(s)
  }

  // ---------------------------------------------------------------- positions and slots

  /** Every position shares its slot with exactly one position of the current window. */
  lemma WindowRepresentative(pos: nat, start: nat, n: nat) returns (q: nat)
    requires n > 0
    ensures start <= q < start + n && q % n == pos % n
  {
    var d := pos - start;
    q := start + d % n;
    assert d == n * (d / n) + d % n;
    assert n * (-(d / n)) == -(n * (d / n));
    ModMultiple(pos, -(d / n), n);
  }

  lemma SameSlots<T>(s: State<T>, s': State<T>)
    requires |s.slots| > 0 && s'.slots == s.slots
    ensures forall p: nat {:trigger At(s', p)} :: At(s', p) == At(s, p)
  {
  }

  /** Writing the slot of one window position leaves the other window positions alone. */
  lemma OneSlotWritten<T>(s: State<T>, s': State<T>, pos: nat, slot: Slot<T>, start: nat)
    requires |s.slots| > 0 && s'.slots == SetSlot(s, pos, slot).slots
    requires start <= pos < start + |s.slots|
    ensures At(s', pos) == slot
    ensures forall p: nat {:trigger At(s', p)} :: start <= p < start + |s.slots| && p != pos ==> At(s', p) == At(s, p)
    ensures forall p: nat {:trigger At(s', p)} :: At(s', p) == At(s, p) || (At(s', p) == slot && At(s, p) == At(s, pos))
  {
    forall p: nat | start <= p < start + |s.slots| && p != pos
      ensures At(s', p) == At(s, p)
    {
      if p % |s.slots| == pos % |s.slots| {
        if p <= pos { ModUnique(p, pos, |s.slots|); } else { ModUnique(pos, p, |s.slots|); }
      }
    }
  }

  // ---------------------------------------------------------------- every step keeps the invariant

  lemma InFlightUnchanged<T>(s: State<T>, s': State<T>, t: Thread, p: Producer<T>)
    requires s'.producers == s.producers[t := p] && InFlight(p) == InFlight(ProducerOf(s, t))
    ensures InFlightThreads(s') == InFlightThreads(s)
  {
  }

  lemma SignalDueKept<T>(s: State<T>, s': State<T>, t: Thread, p: Producer<T>)
    requires s'.producers == s.producers[t := p] && SignalDue(s)
    requires !(ProducerOf(s, t).Published? || ProducerOf(s, t).Counted?) || p.Published? || p.Counted?
    ensures SignalDue(s')
  {
    var u :| u in s.producers && (s.producers[u].Published? || s.producers[u].Counted?);
    assert u in s'.producers && (s'.producers[u].Published? || s'.producers[u].Counted?);
  }

  /** A producer that may not write a slot moves to another point where it may not. */
  lemma SlotsKept<T>(s: State<T>, s': State<T>, t: Thread, p: Producer<T>)
    requires Shape(s) && SlotsOk(s) && s'.producers == s.producers[t := p]
    requires s' == s.(producers := s'.producers, size := s'.size, signals := s'.signals)
    requires forall pos :: !Owns(ProducerOf(s, t), pos)
    ensures SlotsOk(s')
  {
    SameSlots(s, s');
  }

  lemma ProducersKept<T>(s: State<T>, s': State<T>, t: Thread, p: Producer<T>)
    requires Shape(s) && s'.producers == s.producers[t := p] && ProducerOk(s, t, p)
    requires s' == s.(producers := s'.producers, size := s'.size, signals := s'.signals)
    requires forall u {:trigger s.producers[u]} :: u in s.producers ==> ProducerOk(s, u, s.producers[u])
    ensures forall u {:trigger s'.producers[u]} :: u in s'.producers ==> ProducerOk(s', u, s'.producers[u])
  {
    SameSlots(s, s');
  }

  /** A producer that holds no claim moves to another point where it holds none. */
  lemma ProducerMoved<T>(s: State<T>, t: Thread, p: Producer<T>)
    requires Inv(s) && !InFlight(ProducerOf(s, t)) && !ProducerOf(s, t).Counted?
    requires !InFlight(p) && !p.Counted? && ProducerOk(s, t, p)
    ensures Inv(SetProducer(s, t, p))
  {
    var s' := SetProducer(s, t, p);
    SlotsKept(s, s', t, p);
    ProducersKept(s, s', t, p);
    InFlightUnchanged(s, s', t, p);
    assert At(s', s.tail) == At(s, s.tail);
    if SignalDue(s) {
      SignalDueKept(s, s', t, p);
    }
  }

  /** Steps that change only one producer's program counter, outside its claim. */
  lemma LocalStep<T>(s: State<T>, a: Action<T>)
    requires Inv(s) && Enabled(s, a)
    requires
      || a.LoadHead? || a.LoadSequence? || a.ThrowFull? || a.ReloadHead?
      || (a.CompareExchange? && (a.spurious || s.head != ProducerOf(s, a.thread).pos))
    ensures Inv(Apply(s, a))
  {
    var p := Apply(s, a).producers[a.thread];
    assert Apply(s, a) == SetProducer(s, a.thread, p);
    assert ProducerOk(s, a.thread, ProducerOf(s, a.thread));
    ProducerMoved(s, a.thread, p);
  }

  /** A slot whose sequence was read as `pos` is still free when head is `pos`. */
  lemma ClaimHasRoom<T>(s: State<T>, t: Thread)
    requires Inv(s) && ProducerOf(s, t).SequenceLoaded?
    requires ProducerOf(s, t).sequence == ProducerOf(s, t).pos == s.head
    ensures s.head < Freed(s) + |s.slots|
  {
    ModMultiple(Freed(s), 1, |s.slots|);
    assert At(s, Freed(s) + |s.slots|) == At(s, Freed(s));
  }

  lemma ClaimSlotsOk<T>(s: State<T>, a: Action<T>)
    requires Inv(s) && Enabled(s, a) && a.CompareExchange? && !a.spurious && s.head == ProducerOf(s, a.thread).pos
    ensures SlotsOk(Apply(s, a))
  {
    SameSlots(s, Apply(s, a));
    ClaimHasRoom(s, a.thread);
  }

  lemma ClaimProducersOk<T>(s: State<T>, a: Action<T>, u: Thread)
    requires Inv(s) && Enabled(s, a) && a.CompareExchange? && !a.spurious && s.head == ProducerOf(s, a.thread).pos
    requires u in Apply(s, a).producers
    ensures ProducerOk(Apply(s, a), u, Apply(s, a).producers[u])
  {
    var s' := Apply(s, a);
    SameSlots(s, s');
    ClaimHasRoom(s, a.thread);
    if u == a.thread {
      assert At(s', s.head) == At(s, s.head);
    } else {
      assert ProducerOk(s, u, s.producers[u]);
    }
  }

  lemma ClaimCounts<T>(s: State<T>, a: Action<T>)
    requires Inv(s) && Enabled(s, a) && a.CompareExchange? && !a.spurious && s.head == ProducerOf(s, a.thread).pos
    ensures CountOk(Apply(s, a)) && Shape(Apply(s, a))
  {
    var s' := Apply(s, a);
    ClaimHasRoom(s, a.thread);
    assert InFlightThreads(s') == InFlightThreads(s) + {a.thread};
  }

  lemma ClaimRestOk<T>(s: State<T>, a: Action<T>)
    requires Inv(s) && Enabled(s, a) && a.CompareExchange? && !a.spurious && s.head == ProducerOf(s, a.thread).pos
    ensures var s' := Apply(s, a); ConsumerOk(s') && WakeOk(s')
  {
    var s' := Apply(s, a);
    ClaimHasRoom(s, a.thread);
    assert At(s', s.tail) == At(s, s.tail);
    if SignalDue(s) {
      SignalDueKept(s, s', a.thread, s'.producers[a.thread]);
    }
  }

  lemma ClaimStep<T>(s: State<T>, a: Action<T>)
    requires Inv(s) && Enabled(s, a) && a.CompareExchange? && !a.spurious && s.head == ProducerOf(s, a.thread).pos
    ensures Inv(Apply(s, a))
  {
    ClaimCounts(s, a);
    ClaimRestOk(s, a);
    ClaimSlotsOk(s, a);
    forall u | u in Apply(s, a).producers
      ensures ProducerOk(Apply(s, a), u, Apply(s, a).producers[u])
    {
      ClaimProducersOk(s, a, u);
    }
  }

  lemma WriteStep<T>(s: State<T>, t: Thread)
    requires Inv(s) && ProducerOf(s, t).SlotClaimed?
    ensures Inv(Apply(s, WriteValue(t)))
  {
    var s' := Apply(s, WriteValue(t));
    var p := ProducerOf(s, t);
    OneSlotWritten(s, s', p.pos, At(s, p.pos).(value := Some(p.item)), Freed(s));
    OthersKept(s, s', t, p.pos);
    InFlightUnchanged(s, s', t, s'.producers[t]);
    if SignalDue(s) {
      SignalDueKept(s, s', t, s'.producers[t]);
    }
    WrittenSlotsOk(s, t);
    assert At(s', s.tail).sequence == At(s, s.tail).sequence;
  }

  lemma WrittenSlotsOk<T>(s: State<T>, t: Thread)
    requires Inv(s) && ProducerOf(s, t).SlotClaimed?
    ensures SlotsOk(Apply(s, WriteValue(t)))
  {
    var p := ProducerOf(s, t);
    OneSlotWritten(s, Apply(s, WriteValue(t)), p.pos, At(s, p.pos).(value := Some(p.item)), Freed(s));
  }

  lemma PublishedSlotsOk<T>(s: State<T>, t: Thread)
    requires Inv(s) && ProducerOf(s, t).ValueWritten?
    ensures SlotsOk(Apply(s, Publish(t)))
  {
    var p := ProducerOf(s, t);
    OneSlotWritten(s, Apply(s, Publish(t)), p.pos, At(s, p.pos).(sequence := p.pos + 1), Freed(s));
  }

  /** A producer's write to the slot it claimed disturbs no other producer. */
  lemma OthersKept<T>(s: State<T>, s': State<T>, t: Thread, pos: nat)
    requires Inv(s) && Owns(ProducerOf(s, t), pos)
    requires |s'.slots| == |s.slots| && s'.head == s.head && s'.claimed == s.claimed && s'.claimants == s.claimants
    requires Freed(s') == Freed(s)
    requires forall p: nat {:trigger At(s', p)} :: Freed(s) <= p < Freed(s) + |s.slots| && p != pos ==> At(s', p) == At(s, p)
    requires forall p: nat {:trigger At(s', p)} :: At(s', p).sequence >= At(s, p).sequence
    ensures forall u :: u in s.producers && u != t ==> ProducerOk(s', u, s.producers[u])
  {
    forall u | u in s.producers && u != t
      ensures ProducerOk(s', u, s.producers[u])
    {
      var p := s.producers[u];
      assert ProducerOk(s, u, p);
      if p.SequenceLoaded? || p.SlotClaimed? || p.ValueWritten? {
        assert At(s', p.pos).sequence >= At(s, p.pos).sequence;
      }
    }
  }

  lemma PublishStep<T>(s: State<T>, t: Thread)
    requires Inv(s) && ProducerOf(s, t).ValueWritten?
    ensures Inv(Apply(s, Publish(t)))
  {
    var s' := Apply(s, Publish(t));
    var pos := ProducerOf(s, t).pos;
    OneSlotWritten(s, s', pos, At(s, pos).(sequence := pos + 1), Freed(s));
    InFlightUnchanged(s, s', t, s'.producers[t]);
    assert t in s'.producers && s'.producers[t].Published?;
    PublishedSlotsOk(s, t);
    OthersKept(s, s', t, pos);
    assert At(s', s.tail).sequence >= At(s, s.tail).sequence;
  }

  lemma CountedUp<T>(s: State<T>, t: Thread)
    requires Inv(s) && ProducerOf(s, t).Published?
    ensures CountOk(Apply(s, CountUp(t)))
  {
    var s' := Apply(s, CountUp(t));
    assert t in InFlightThreads(s) && InFlightThreads(s') == InFlightThreads(s) - {t};
  }

  lemma CountUpStep<T>(s: State<T>, t: Thread)
    requires Inv(s) && ProducerOf(s, t).Published?
    ensures Inv(Apply(s, CountUp(t)))
  {
    var s' := Apply(s, CountUp(t));
    SlotsKept(s, s', t, Counted);
    ProducersKept(s, s', t, Counted);
    CountedUp(s, t);
    assert At(s', s.tail) == At(s, s.tail);
    assert t in s'.producers && s'.producers[t].Counted?;
  }

  lemma SignalStep<T>(s: State<T>, t: Thread)
    requires Inv(s) && ProducerOf(s, t).Counted?
    ensures Inv(Apply(s, Signal(t)))
  {
    var s' := Apply(s, Signal(t));
    SlotsKept(s, s', t, Outside);
    ProducersKept(s, s', t, Outside);
    InFlightUnchanged(s, s', t, Outside);
    assert At(s', s.tail) == At(s, s.tail);
  }

  /** The memory, the producers and the claims stay as they are. */
  lemma MemoryKept<T>(s: State<T>, s': State<T>)
    requires Shape(s) && SlotsOk(s)
    requires forall t {:trigger s.producers[t]} :: t in s.producers ==> ProducerOk(s, t, s.producers[t])
    requires s' == s.(consumer := s'.consumer, tail := s'.tail, size := s'.size, signals := s'.signals, popped := s'.popped)
    requires Freed(s') == Freed(s) && !s.consumer.Cleared? && !s'.consumer.Cleared?
    ensures SlotsOk(s')
    ensures forall t {:trigger s'.producers[t]} :: t in s'.producers ==> ProducerOk(s', t, s'.producers[t])
    ensures InFlightThreads(s') == InFlightThreads(s)
    ensures SignalDue(s) ==> SignalDue(s')
  {
    SameSlots(s, s');
  }

  /** Consumer steps that leave every slot as it is. */
  lemma ConsumerStep<T>(s: State<T>, a: Action<T>)
    requires Inv(s) && Enabled(s, a)
    requires a.Wake? || a.ReadSignals? || a.LoadTailSequence? || a.TakeValue? || a.PopNothing? || a.CountDown? || a.AdvanceTail?
    ensures Inv(Apply(s, a))
  {
    var s' := Apply(s, a);
    MemoryKept(s, s');
    assert At(s', s.tail) == At(s, s.tail);
    assert At(s, s.tail).sequence == s.tail + 1 ==> s.tail < s.head;
  }

  lemma ClearStep<T>(s: State<T>)
    requires Inv(s) && s.consumer.Taken?
    ensures Inv(Apply(s, ClearValue))
  {
    var s' := Apply(s, ClearValue);
    OneSlotWritten(s, s', s.tail, At(s, s.tail).(value := None), s.tail);
    assert InFlightThreads(s') == InFlightThreads(s);
    assert SlotsOk(s');
    forall t | t in s'.producers
      ensures ProducerOk(s', t, s'.producers[t])
    {
      var p := s.producers[t];
      assert ProducerOk(s, t, p);
      if p.SequenceLoaded? || p.SlotClaimed? || p.ValueWritten? {
        assert At(s', p.pos).sequence == At(s, p.pos).sequence;
      }
    }
  }

  lemma FreedSlotsOk<T>(s: State<T>)
    requires Inv(s) && s.consumer.Cleared?
    ensures SlotsOk(Apply(s, FreeSlot))
  {
    var s' := Apply(s, FreeSlot);
    OneSlotWritten(s, s', s.tail, At(s, s.tail).(sequence := s.tail + |s.slots|), s.tail);
    ModMultiple(s.tail, 1, |s.slots|);
    assert At(s', s.tail + |s.slots|) == At(s', s.tail);
  }

  lemma FreedProducersOk<T>(s: State<T>, t: Thread)
    requires Inv(s) && s.consumer.Cleared? && t in s.producers
    ensures ProducerOk(Apply(s, FreeSlot), t, s.producers[t])
  {
    var s' := Apply(s, FreeSlot);
    OneSlotWritten(s, s', s.tail, At(s, s.tail).(sequence := s.tail + |s.slots|), s.tail);
    var p := s.producers[t];
    assert ProducerOk(s, t, p);
    if p.SequenceLoaded? || p.SlotClaimed? || p.ValueWritten? {
      assert At(s', p.pos).sequence >= At(s, p.pos).sequence;
    }
  }

  lemma FreeStep<T>(s: State<T>)
    requires Inv(s) && s.consumer.Cleared?
    ensures Inv(Apply(s, FreeSlot))
  {
    var s' := Apply(s, FreeSlot);
    FreedSlotsOk(s);
    forall t {:trigger s'.producers[t]} | t in s.producers { FreedProducersOk(s, t); }
    assert InFlightThreads(s') == InFlightThreads(s);
  }

  lemma StepKeepsInv<T>(s: State<T>, a: Action<T>)
    requires Inv(s) && Enabled(s, a)
    ensures Inv(Apply(s, a))
  {
    match a
    case LoadHead(_, _) => LocalStep(s, a);
    case LoadSequence(_) => LocalStep(s, a);
    case ThrowFull(_) => LocalStep(s, a);
    case ReloadHead(_) => LocalStep(s, a);
    case CompareExchange(t, spurious) =>
      if s.head == ProducerOf(s, t).pos && !spurious { ClaimStep(s, a); } else { LocalStep(s, a); }
    case WriteValue(t) => WriteStep(s, t);
    case Publish(t) => PublishStep(s, t);
    case CountUp(t) => CountUpStep(s, t);
    case Signal(t) => SignalStep(s, t);
    case Wake => ConsumerStep(s, a);
    case ReadSignals => ConsumerStep(s, a);
    case LoadTailSequence => ConsumerStep(s, a);
    case TakeValue => ConsumerStep(s, a);
    case PopNothing => ConsumerStep(s, a);
    case CountDown => ConsumerStep(s, a);
    case ClearValue => ClearStep(s);
    case FreeSlot => FreeStep(s);
    case AdvanceTail => ConsumerStep(s, a);
  }

  // ---------------------------------------------------------------- whole runs

  /** An interleaving: `states[i + 1]` follows from `states[i]` by the atomic step `actions[i]`. */
  ghost predicate IsRun<T>(states: seq<State<T>>, actions: seq<Action<T>>) {
    && |states| == |actions| + 1
    && Init(states[0])
    && (forall i :: 0 <= i < |actions| ==> IsStep(states[i], actions[i], states[i + 1]))
  }

  ghost predicate IsStep<T>(s: State<T>, a: Action<T>, s': State<T>) {
    |s.slots| > 0 && Enabled(s, a) && s' == Apply(s, a)
  }

  lemma InitInv<T>(s: State<T>)
    requires Init(s)
    ensures Inv(s)
  {
    forall p: nat | p < |s.slots|
      ensures At(s, p).sequence == p
    {
      DivModUnique(|s.slots|, p / |s.slots|, p % |s.slots|, 0, p);
    }
    assert InFlightThreads(s) == {};
  }

  lemma {:induction false} RunKeepsInv<T>(states: seq<State<T>>, actions: seq<Action<T>>, i: nat)
    requires IsRun(states, actions) && i < |states|
    ensures Inv(states[i]) && |states[i].slots| == |states[0].slots|
  {
    if i == 0 {
      InitInv(states[0]);
    } else {
      RunKeepsInv(states, actions, i - 1);
      assert IsStep(states[i - 1], actions[i - 1], states[i]);
      StepKeepsInv(states[i - 1], actions[i - 1]);
    }
  }

  /** The queue as its clients see it: claimed items that have not been taken yet. */
  function Contents<T>(s: State<T>): seq<T>
    requires |s.popped| <= |s.claimed|
  {
    s.claimed[|s.popped|..]
  }

  /** What one step does to a plain bounded FIFO queue. */
  ghost predicate FifoStep<T>(before: seq<T>, a: Action<T>, after: seq<T>, s: State<T>, s': State<T>) {
    match a
    case CompareExchange(t, _) =>
      if s'.head > s.head
      then ProducerOf(s, t).SequenceLoaded? && after == before + [ProducerOf(s, t).item]
      else after == before
    case TakeValue => s'.consumer.Taken? && before == [s'.consumer.item] + after
    case _ => after == before
  }

  /** Each atomic step is an enqueue, a dequeue or nothing on a FIFO queue of at most |slots| items. */
  lemma RefinesBoundedFifo<T>(states: seq<State<T>>, actions: seq<Action<T>>, i: nat)
    requires IsRun(states, actions) && i < |actions|
    ensures |states[i].popped| <= |states[i].claimed| && |states[i + 1].popped| <= |states[i + 1].claimed|
    ensures FifoStep(Contents(states[i]), actions[i], Contents(states[i + 1]), states[i], states[i + 1])
    ensures |Contents(states[i])| <= |states[0].slots|
  {
    RunKeepsInv(states, actions, i);
    RunKeepsInv(states, actions, i + 1);
    assert IsStep(states[i], actions[i], states[i + 1]);
    StepRefinesFifo(states[i], actions[i]);
  }

  lemma HeadAndRest<T>(items: seq<T>, n: nat)
    requires n < |items|
    ensures items[n..] == [items[n]] + items[n + 1..]
  {
  }

  lemma StepRefinesFifo<T>(s: State<T>, a: Action<T>)
    requires Shape(s) && Enabled(s, a) && Shape(Apply(s, a))
    requires a.TakeValue? ==> Inv(s)
    ensures FifoStep(Contents(s), a, Contents(Apply(s, a)), s, Apply(s, a))
  {
    if a.TakeValue? {
      TakesClaimedValue(s);
      HeadAndRest(s.claimed, s.tail);
      assert |s.popped| == s.tail && |Apply(s, a).popped| == s.tail + 1;
    }
  }

  /** A pop that saw its slot published finds the value claimed for that position there. */
  lemma TakesClaimedValue<T>(s: State<T>)
    requires Inv(s) && s.consumer.SequenceSeen? && s.consumer.sequence == s.tail + 1
    ensures s.tail < s.head && At(s, s.tail).value == Some(s.claimed[s.tail])
    ensures Enabled(s, TakeValue)
  {
    assert At(s, s.tail).sequence == s.tail + 1;
  }

  /** Nothing is lost, duplicated or reordered: the taken values are a prefix of the claimed ones. */
  lemma {:induction false} PopsArePrefixOfClaims<T>(states: seq<State<T>>, actions: seq<Action<T>>, i: nat, j: nat)
    requires IsRun(states, actions) && i <= j < |states|
    ensures states[i].popped <= states[i].claimed
    ensures states[i].claimed <= states[j].claimed
    ensures states[i].popped <= states[j].popped
    decreases j - i
  {
    RunKeepsInv(states, actions, i);
    if i < j {
      PopsArePrefixOfClaims(states, actions, i + 1, j);
      assert IsStep(states[i], actions[i], states[i + 1]);
    }
  }

  /** The consumer may read or clear the slot of its tail position. */
  predicate ConsumerHolds<T>(s: State<T>) {
    s.consumer.Taken? || s.consumer.Cleared? || (s.consumer.SequenceSeen? && s.consumer.sequence == s.tail + 1)
  }

  /** No two threads ever hold the value of the same slot. */
  lemma SlotsAreExclusive<T>(states: seq<State<T>>, actions: seq<Action<T>>, i: nat, t: Thread, p: nat, u: Thread, q: nat)
    requires IsRun(states, actions) && i < |states|
    requires Owns(ProducerOf(states[i], t), p)
    ensures |states[i].slots| > 0
    ensures t != u && Owns(ProducerOf(states[i], u), q) ==> p % |states[i].slots| != q % |states[i].slots|
    ensures ConsumerHolds(states[i]) ==> p % |states[i].slots| != states[i].tail % |states[i].slots|
  {
    RunKeepsInv(states, actions, i);
    var s := states[i];
    var n := |s.slots|;
    assert ProducerOk(s, t, s.producers[t]);
    if t != u && Owns(ProducerOf(s, u), q) {
      assert ProducerOk(s, u, s.producers[u]);
      ModDistinct(p, q, n);
    }
    if ConsumerHolds(s) {
      assert At(s, s.tail).sequence == s.tail + 1;
      ModDistinct(s.tail, p, n);
    }
  }

  /** A push sees a full queue exactly when every one of the |slots| positions is claimed and unfreed. */
  lemma FullIsFull<T>(states: seq<State<T>>, actions: seq<Action<T>>, i: nat, t: Thread)
    requires IsRun(states, actions) && i < |states|
    requires ProducerOf(states[i], t).HeadLoaded?
    ensures var s := states[i]; var pos := ProducerOf(s, t).pos;
      |s.slots| > 0 && (At(s, pos).sequence < pos <==> pos == s.head == Freed(s) + |s.slots|)
  {
    RunKeepsInv(states, actions, i);
    var s := states[i];
    var pos := ProducerOf(s, t).pos;
    var n := |s.slots|;
    assert ProducerOk(s, t, s.producers[t]);
    var q := WindowRepresentative(pos, Freed(s), n);
    assert At(s, q) == At(s, pos);
    if pos == s.head == Freed(s) + n {
      ModMultiple(Freed(s), 1, n);
      assert At(s, pos) == At(s, Freed(s));
    } else if Freed(s) <= pos {
      if q <= pos { ModUnique(q, pos, n); } else { ModUnique(pos, q, n); }
    }
  }

  /** A pop comes back empty exactly when the tail position is unclaimed or its producer is still writing. */
  lemma EmptyIsUnpublished<T>(states: seq<State<T>>, actions: seq<Action<T>>, i: nat)
    requires IsRun(states, actions) && i < |states| && states[i].consumer.Draining?
    ensures var s := states[i];
      |s.slots| > 0 && |s.claimants| == s.head &&
      (At(s, s.tail).sequence != s.tail + 1 <==>
       s.tail == s.head || (s.tail < s.head && Owns(ProducerOf(s, s.claimants[s.tail]), s.tail)))
  {
    RunKeepsInv(states, actions, i);
    var s := states[i];
    assert At(s, s.tail) == At(s, s.tail);
    if s.tail < s.head && Owns(ProducerOf(s, s.claimants[s.tail]), s.tail) {
      assert ProducerOk(s, s.claimants[s.tail], s.producers[s.claimants[s.tail]]);
    }
  }

  /** The size counter lags by the producers that have not counted yet, and leads by a pop that has not. */
  lemma SizeCounter<T>(states: seq<State<T>>, actions: seq<Action<T>>, i: nat)
    requires IsRun(states, actions) && i < |states|
    ensures var s := states[i];
      s.size == s.head - s.tail + (if s.consumer.TailAdvanced? then 1 else 0) - |InFlightThreads(s)|
  {
    RunKeepsInv(states, actions, i);
  }

  /** No lost wake-up: a sleeping consumer with a poppable item has been signalled or is about to be. */
  lemma NoLostWakeUp<T>(states: seq<State<T>>, actions: seq<Action<T>>, i: nat)
    requires IsRun(states, actions) && i < |states| && states[i].consumer.Waiting?
    ensures |states[i].slots| > 0
    ensures IsPublished(states[i], states[i].tail) ==> states[i].signals > 0 || SignalDue(states[i])
  {
    RunKeepsInv(states, actions, i);
  }

  /** No producer is between winning a position and having signalled it. */
  predicate ProducersAtRest<T>(s: State<T>) {
    forall t :: t in s.producers ==> !InFlight(s.producers[t]) && !s.producers[t].Counted?
  }

  /** When every push has returned and the consumer sleeps unsignalled, every pushed item was popped. */
  lemma SleepsOnlyWhenDrained<T>(states: seq<State<T>>, actions: seq<Action<T>>, i: nat)
    requires IsRun(states, actions) && i < |states|
    requires states[i].consumer.Waiting? && states[i].signals == 0 && ProducersAtRest(states[i])
    ensures states[i].popped == states[i].claimed
    ensures states[i].size == 0 && states[i].head == states[i].tail
  {
    RunKeepsInv(states, actions, i);
    var s := states[i];
    assert InFlightThreads(s) == {};
    assert At(s, s.tail) == At(s, s.tail);
    assert !IsPublished(s, s.tail);
  }
}
