/** A run of the queue, step by step, on which its size counter falls below zero. */
module MpscQueueRuns {
  import opened MpscQueue
  import opened Wrappers

  ghost predicate EndsAt<T(!new)>(states: seq<State<T>>, actions: seq<Action<T>>, s: State<T>) {
    IsRun(states, actions) && states[|actions|] == s
  }

  ghost predicate Reachable<T(!new)>(s: State<T>) {
    exists states, actions :: EndsAt(states, actions, s)
  }

  lemma InitReachable<T(!new)>(s: State<T>)
    requires Init(s)
    ensures Reachable(s)
  {
    assert EndsAt([s], [], s);
  }

  lemma StepReachable<T(!new)>(s: State<T>, a: Action<T>)
    requires Reachable(s) && |s.slots| > 0 && Enabled(s, a)
    ensures Reachable(Apply(s, a))
  {
    var states, actions :| EndsAt(states, actions, s);
    var longer, more := states + [Apply(s, a)], actions + [a];
    forall i | 0 <= i < |more| ensures IsStep(longer[i], more[i], longer[i + 1]) {
      if i < |actions| { assert IsStep(states[i], actions[i], states[i + 1]); }
    }
    assert EndsAt(longer, more, Apply(s, a));
  }

  /** A push that nothing disturbs, up to the publication of its item. */
  lemma PublishAlone<T(!new)>(s: State<T>, t: Thread, item: T) returns (s': State<T>)
    requires Reachable(s) && |s.slots| > 0 && ProducerOf(s, t).Outside? && At(s, s.head).sequence == s.head
    ensures Reachable(s')
    ensures s' == SetProducer(SetSlot(s, s.head, Slot(s.head + 1, Some(item))), t, Published(s.head))
      .(head := s.head + 1, claimed := s.claimed + [item], claimants := s.claimants + [t])
  {
    StepReachable(s, LoadHead(t, item));
    var s1 := Apply(s, LoadHead(t, item));
    StepReachable(s1, LoadSequence(t));
    var s2 := Apply(s1, LoadSequence(t));
    StepReachable(s2, CompareExchange(t, false));
    var s3 := Apply(s2, CompareExchange(t, false));
    StepReachable(s3, WriteValue(t));
    var s4 := Apply(s3, WriteValue(t));
    StepReachable(s4, Publish(t));
    s' := Apply(s4, Publish(t));
  }

  /** A pop of a published item that nothing disturbs, up to the moment its slot is empty. */
  lemma TakeAlone<T(!new)>(s: State<T>, item: T) returns (s': State<T>)
    requires Reachable(s) && |s.slots| > 0 && s.consumer.Draining?
    requires At(s, s.tail) == Slot(s.tail + 1, Some(item))
    ensures Reachable(s')
    ensures s' == SetSlot(s, s.tail, Slot(s.tail + 1, None)).(consumer := Cleared(item), popped := s.popped + [item])
  {
    StepReachable(s, LoadTailSequence);
    var s1 := Apply(s, LoadTailSequence);
    StepReachable(s1, TakeValue);
    var s2 := Apply(s1, TakeValue);
    StepReachable(s2, ClearValue);
    s' := Apply(s2, ClearValue);
  }

  /** The rest of that pop: the slot goes back to the producers, and the consumer goes on draining. */
  lemma FreeAlone<T(!new)>(s: State<T>) returns (s': State<T>)
    requires Reachable(s) && |s.slots| > 0 && s.consumer.Cleared?
    ensures Reachable(s')
    ensures s' == SetSlot(s, s.tail, At(s, s.tail).(sequence := s.tail + |s.slots|))
      .(tail := s.tail + 1, size := s.size - 1, consumer := Draining)
  {
    StepReachable(s, FreeSlot);
    var s1 := Apply(s, FreeSlot);
    StepReachable(s1, AdvanceTail);
    var s2 := Apply(s1, AdvanceTail);
    StepReachable(s2, CountDown);
    s' := Apply(s2, CountDown);
  }

  /** In a queue of two slots one push has returned. */
  lemma OnePushed<T(!new)>(first: T) returns (s: State<T>)
    ensures Reachable(s)
    ensures s == State([Slot(1, Some(first)), Slot(1, None)], 1, 0, 1, 1, map[1 := Outside], Waiting, [first], [1], [])
  {
    var s0 := State([Slot(0, None), Slot(1, None)], 0, 0, 0, 0, map[], Waiting, [], [], []);
    InitReachable(s0);
    var s1 := PublishAlone(s0, 1, first);
    StepReachable(s1, CountUp(1));
    var s2 := Apply(s1, CountUp(1));
    StepReachable(s2, Signal(1));
    s := Apply(s2, Signal(1));
  }

  /** Then a second push publishes without counting, and the consumer is woken. */
  lemma TwoPublished<T(!new)>(first: T, second: T) returns (s: State<T>)
    ensures Reachable(s)
    ensures s == State([Slot(1, Some(first)), Slot(2, Some(second))], 2, 0, 1, 0,
                       map[1 := Outside, 2 := Published(1)], Draining, [first, second], [1, 2], [])
  {
    var s0 := OnePushed(first);
    var s1 := PublishAlone(s0, 2, second);
    StepReachable(s1, Wake);
    StepReachable(Apply(s1, Wake), ReadSignals);
    s := Apply(Apply(s1, Wake), ReadSignals);
  }

  /** The consumer pops both items before the second is counted: the counter is below zero. */
  lemma SizeFallsBelowZero<T(!new)>(first: T, second: T) returns (s: State<T>)
    ensures Reachable(s) && s.size == -1 && s.popped == [first, second]
  {
    s := TwoPublished(first, second);
    s := TakeAlone(s, first);
    s := FreeAlone(s);
    s := TakeAlone(s, second);
    s := FreeAlone(s);
  }
}
