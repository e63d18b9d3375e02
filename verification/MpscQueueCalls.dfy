/**
  What whole calls of the queue do, over any run: what a push and a pop decide at their load of a sequence, how a
  push ends, and what the eventfd counter and the free slots hold.
 */
module MpscQueueCalls {
  import opened MpscQueue
  import opened ModularArithmetic
  import opened Wrappers

  // ---------------------------------------------------------------- what a push decides

  /** The queue has no free slot for the next position. */
  predicate IsFull<T>(s: State<T>) {
    s.head == Freed(s) + |s.slots|
  }

  /** The thread that won the position has not published it yet. */
  predicate StillWriting<T>(s: State<T>, pos: nat) {
    pos < |s.claimants| && Owns(ProducerOf(s, s.claimants[pos]), pos)
  }

  /** The sequence a push loads, compared with its position. */
  lemma SequenceMeans<T>(s: State<T>, t: Thread)
    requires Inv(s) && ProducerOf(s, t).HeadLoaded?
    ensures var pos := ProducerOf(s, t).pos;
      && pos <= s.head
      && (At(s, pos).sequence < pos <==> pos == s.head && IsFull(s))
      && (At(s, pos).sequence > pos <==> pos < s.head && !StillWriting(s, pos))
  {
    var pos := ProducerOf(s, t).pos;
    assert ProducerOk(s, t, s.producers[t]);
    if pos == s.head {
      HeadSequence(s);
    } else if pos >= Freed(s) {
      WindowSequence(s, pos);
    } else {
      OldSequence(s, pos);
    }
  }

  lemma HeadSequence<T>(s: State<T>)
    requires Inv(s)
    ensures if IsFull(s) then At(s, s.head).sequence < s.head else At(s, s.head).sequence == s.head
  {
    if IsFull(s) {
      ModMultiple(Freed(s), 1, |s.slots|);
      assert At(s, s.head) == At(s, Freed(s));
    }
  }

  lemma WindowSequence<T>(s: State<T>, pos: nat)
    requires Inv(s) && Freed(s) <= pos < s.head
    ensures At(s, pos).sequence == if StillWriting(s, pos) then pos else pos + 1
  {
    assert At(s, pos).sequence == pos || At(s, pos).sequence == pos + 1;
    if StillWriting(s, pos) { OwnedInWindow(s, s.claimants[pos], pos); }
  }

  lemma OldSequence<T>(s: State<T>, pos: nat)
    requires Inv(s) && pos < Freed(s)
    ensures At(s, pos).sequence > pos && !StillWriting(s, pos)
  {
    var q := WindowRepresentative(pos, Freed(s), |s.slots|);
    assert At(s, q) == At(s, pos);
    assert At(s, q).sequence >= q;
    if StillWriting(s, pos) { OwnedInWindow(s, s.claimants[pos], pos); }
  }

  lemma OwnedInWindow<T>(s: State<T>, u: Thread, pos: nat)
    requires Inv(s) && Owns(ProducerOf(s, u), pos)
    ensures Freed(s) <= pos < s.head && At(s, pos).sequence == pos
  {
    assert ProducerOk(s, u, s.producers[u]);
  }

  /**
    After its load of the sequence a push is about to throw exactly when the queue was full at its position, to
    start over exactly when its position has been published or freed, and to compete for the position otherwise.
   */
  lemma PushDecides<T>(states: seq<State<T>>, actions: seq<Action<T>>, i: nat, t: Thread, spurious: bool)
    requires IsRun(states, actions) && i < |actions| && actions[i] == LoadSequence(t)
    requires |states[i + 1].slots| > 0
    ensures ProducerOf(states[i], t).HeadLoaded?
    ensures var s, s', pos := states[i], states[i + 1], ProducerOf(states[i], t).pos;
      && (Enabled(s', ThrowFull(t)) <==> pos == s.head && IsFull(s))
      && (Enabled(s', ReloadHead(t)) <==> pos < s.head && !StillWriting(s, pos))
      && (Enabled(s', CompareExchange(t, spurious)) <==>
           if pos == s.head then !IsFull(s) else pos < s.head && StillWriting(s, pos))
  {
    RunKeepsInv(states, actions, i);
    assert IsStep(states[i], actions[i], states[i + 1]);
    SequenceMeans(states[i], t);
  }

  lemma {:induction false} SequenceLoadedAt<T>(states: seq<State<T>>, actions: seq<Action<T>>, j: nat, t: Thread) returns (i: nat)
    requires IsRun(states, actions) && j < |states| && ProducerOf(states[j], t).SequenceLoaded?
    ensures i < j && actions[i] == LoadSequence(t)
    ensures ProducerOf(states[i + 1], t) == ProducerOf(states[j], t)
  {
    assert j > 0;
    assert IsStep(states[j - 1], actions[j - 1], states[j]);
    if actions[j - 1] == LoadSequence(t) {
      i := j - 1;
    } else {
      i := SequenceLoadedAt(states, actions, j - 1, t);
    }
  }

  /** A push throws only for a queue it has seen full: at some load of its sequence, every position was claimed and unfreed. */
  lemma ThrowMeansFull<T>(states: seq<State<T>>, actions: seq<Action<T>>, j: nat, t: Thread) returns (i: nat)
    requires IsRun(states, actions) && j < |actions| && actions[j] == ThrowFull(t)
    ensures i < j && actions[i] == LoadSequence(t) && IsFull(states[i])
  {
    RunKeepsInv(states, actions, j);
    assert IsStep(states[j], actions[j], states[j + 1]);
    i := SequenceLoadedAt(states, actions, j, t);
    RunKeepsInv(states, actions, i + 1);
    PushDecides(states, actions, i, t, false);
  }

  // ---------------------------------------------------------------- how a push ends

  /** The thread has won no position from `from` on. */
  ghost predicate NoneClaimed<T>(s: State<T>, from: nat, t: Thread) {
    forall q: nat {:trigger s.claimants[q]} :: from <= q < |s.claimants| ==> s.claimants[q] != t
  }

  /** The thread has won exactly this position from `from` on, for this item. */
  ghost predicate OneClaimed<T>(s: State<T>, from: nat, t: Thread, pos: nat, item: T) {
    && from <= pos < |s.claimants| && |s.claimed| == |s.claimants|
    && s.claimants[pos] == t && s.claimed[pos] == item
    && (forall q: nat {:trigger s.claimants[q]} :: from <= q < |s.claimants| && s.claimants[q] == t ==> q == pos)
  }

  /** How far a push of the item has come that began when the head was `from`. */
  ghost predicate InPush<T>(s: State<T>, from: nat, t: Thread, item: T) {
    from <= |s.claimants| &&
    match ProducerOf(s, t)
    case Outside => false
    case HeadLoaded(x, _) => x == item && NoneClaimed(s, from, t)
    case SequenceLoaded(x, _, _) => x == item && NoneClaimed(s, from, t)
    case SlotClaimed(_, pos) => OneClaimed(s, from, t, pos, item)
    case ValueWritten(pos) => OneClaimed(s, from, t, pos, item)
    case Published(pos) => OneClaimed(s, from, t, pos, item)
    case Counted => exists pos :: OneClaimed(s, from, t, pos, item)
  }

  /** A step by which the push ends: it throws and has left nothing, or returns and has left its item once. */
  ghost predicate PushEnds<T>(s: State<T>, a: Action<T>, from: nat, t: Thread, item: T) {
    || (a == ThrowFull(t) && NoneClaimed(s, from, t))
    || (a == Signal(t) && exists pos :: OneClaimed(s, from, t, pos, item))
  }

  lemma SameClaims<T>(s: State<T>, s': State<T>, from: nat, t: Thread, pos: nat, item: T)
    requires s'.claimed == s.claimed && s'.claimants == s.claimants
    ensures NoneClaimed(s', from, t) <==> NoneClaimed(s, from, t)
    ensures OneClaimed(s', from, t, pos, item) <==> OneClaimed(s, from, t, pos, item)
  {
  }

  lemma MoreClaims<T>(s: State<T>, s': State<T>, from: nat, t: Thread, u: Thread, pos: nat, item: T, x: T)
    requires s'.claimed == s.claimed + [x] && s'.claimants == s.claimants + [u] && u != t
    ensures NoneClaimed(s, from, t) ==> NoneClaimed(s', from, t)
    ensures OneClaimed(s, from, t, pos, item) ==> OneClaimed(s', from, t, pos, item)
  {
  }

  lemma OwnClaim<T>(s: State<T>, s': State<T>, from: nat, t: Thread, item: T)
    requires |s.claimed| == |s.claimants| && from <= |s.claimants| && NoneClaimed(s, from, t)
    requires s'.claimed == s.claimed + [item] && s'.claimants == s.claimants + [t]
    ensures OneClaimed(s', from, t, |s.claimants|, item)
  {
  }

  /** A step of another thread or of the consumer. */
  lemma OtherStep<T>(s: State<T>, a: Action<T>, from: nat, t: Thread, item: T)
    requires Shape(s) && Enabled(s, a) && InPush(s, from, t, item)
    requires ProducerOf(Apply(s, a), t) == ProducerOf(s, t)
    requires a.CompareExchange? ==> a.thread != t
    ensures InPush(Apply(s, a), from, t, item)
  {
    var s' := Apply(s, a);
    var p := ProducerOf(s, t);
    var pos: nat := 0;
    if p.SlotClaimed? || p.ValueWritten? || p.Published? { pos := p.pos; }
    if p.Counted? { pos :| OneClaimed(s, from, t, pos, item); }
    if s'.claimants == s.claimants {
      SameClaims(s, s', from, t, pos, item);
    } else {
      MoreClaims(s, s', from, t, a.thread, pos, item, ProducerOf(s, a.thread).item);
    }
  }

  predicate IsStepOf<T>(a: Action<T>, t: Thread) {
    match a
    case LoadHead(u, _) => u == t
    case LoadSequence(u) => u == t
    case CompareExchange(u, _) => u == t
    case ThrowFull(u) => u == t
    case ReloadHead(u) => u == t
    case WriteValue(u) => u == t
    case Publish(u) => u == t
    case CountUp(u) => u == t
    case Signal(u) => u == t
    case _ => false
  }

  lemma OwnStep<T>(s: State<T>, a: Action<T>, from: nat, t: Thread, item: T)
    requires Shape(s) && Enabled(s, a) && IsStepOf(a, t) && InPush(s, from, t, item)
    ensures InPush(Apply(s, a), from, t, item) || (PushEnds(Apply(s, a), a, from, t, item) && ProducerOf(Apply(s, a), t).Outside?)
  {
    var s' := Apply(s, a);
    var p := ProducerOf(s, t);
    if a.CompareExchange? && s'.head > s.head {
      OwnClaim(s, s', from, t, item);
    } else {
      var pos: nat := 0;
      if p.SlotClaimed? || p.ValueWritten? || p.Published? { pos := p.pos; }
      if p.Counted? { pos :| OneClaimed(s, from, t, pos, item); }
      SameClaims(s, s', from, t, pos, item);
      assert OneClaimed(s, from, t, pos, item) ==> OneClaimed(s', from, t, pos, item);
    }
  }

  lemma {:induction false} PushProceeds<T>(states: seq<State<T>>, actions: seq<Action<T>>, i: nat, j: nat, t: Thread, item: T)
    requires IsRun(states, actions) && i < j < |states| && actions[i] == LoadHead(t, item)
    requires forall k :: i < k < j ==> !ProducerOf(states[k], t).Outside?
    ensures InPush(states[j], states[i].head, t, item)
      || (PushEnds(states[j], actions[j - 1], states[i].head, t, item) && ProducerOf(states[j], t).Outside?)
    decreases j - i
  {
    RunKeepsInv(states, actions, j - 1);
    assert IsStep(states[j - 1], actions[j - 1], states[j]);
    if j > i + 1 {
      PushProceeds(states, actions, i, j - 1, t, item);
      if IsStepOf(actions[j - 1], t) {
        OwnStep(states[j - 1], actions[j - 1], states[i].head, t, item);
      } else {
        OtherStep(states[j - 1], actions[j - 1], states[i].head, t, item);
      }
    }
  }

  /**
    A push that is over has either thrown, and the thread has won no position in it, or returned, and the thread
    has won exactly one position in it, for the item it pushed.
   */
  lemma PushesOnceOrThrows<T>(states: seq<State<T>>, actions: seq<Action<T>>, i: nat, j: nat, t: Thread, item: T)
    requires IsRun(states, actions) && i < j < |states| && actions[i] == LoadHead(t, item)
    requires forall k :: i < k < j ==> !ProducerOf(states[k], t).Outside?
    requires ProducerOf(states[j], t).Outside?
    ensures actions[j - 1] == ThrowFull(t) || actions[j - 1] == Signal(t)
    ensures actions[j - 1] == ThrowFull(t) ==> NoneClaimed(states[j], states[i].head, t)
    ensures actions[j - 1] == Signal(t) ==> exists pos :: OneClaimed(states[j], states[i].head, t, pos, item)
  {
    PushProceeds(states, actions, i, j, t, item);
  }

  /** No thread is ever stuck: between two calls a push can begin, and inside one the next step can be taken. */
  lemma NoThreadIsStuck<T>(states: seq<State<T>>, actions: seq<Action<T>>, i: nat, t: Thread, item: T)
    requires IsRun(states, actions) && i < |states|
    ensures |states[i].slots| > 0
    ensures exists a :: IsStepOf(a, t) && Enabled(states[i], a)
    ensures exists a :: IsConsumerStep(a) && Enabled(states[i], a)
  {
    RunKeepsInv(states, actions, i);
    ProducerSteps(states[i], t, item);
    ConsumerSteps(states[i]);
  }

  predicate IsConsumerStep<T>(a: Action<T>) {
    match a
    case Wake => true
    case ReadSignals => true
    case LoadTailSequence => true
    case TakeValue => true
    case ClearValue => true
    case FreeSlot => true
    case AdvanceTail => true
    case CountDown => true
    case PopNothing => true
    case _ => false
  }

  lemma ProducerSteps<T>(s: State<T>, t: Thread, item: T)
    requires |s.slots| > 0
    ensures exists a :: IsStepOf(a, t) && Enabled(s, a)
  {
    var a: Action<T> := if ProducerOf(s, t).Outside? then LoadHead(t, item) else NextOf(s, t);
    assert IsStepOf(a, t) && Enabled(s, a);
  }

  lemma ConsumerSteps<T>(s: State<T>)
    requires Inv(s)
    ensures exists a :: IsConsumerStep(a) && Enabled(s, a)
  {
    var a: Action<T> := match s.consumer
      case Waiting => Wake
      case Woken => ReadSignals
      case Draining => LoadTailSequence
      case SequenceSeen(sequence) => if sequence == s.tail + 1 then TakeValue else PopNothing
      case Taken(_) => ClearValue
      case Cleared(_) => FreeSlot
      case SlotFreed(_) => AdvanceTail
      case TailAdvanced(_) => CountDown;
    if a.TakeValue? { TakesClaimedValue(s); }
    assert IsConsumerStep(a) && Enabled(s, a);
  }

  /** What the thread does next inside a push, when its compare-and-exchange does not fail for no reason. */
  function NextOf<T>(s: State<T>, t: Thread): (a: Action<T>)
    requires |s.slots| > 0 && !ProducerOf(s, t).Outside?
    ensures IsStepOf(a, t) && Enabled(s, a)
  {
    match ProducerOf(s, t)
    case HeadLoaded(_, _) => LoadSequence(t)
    case SequenceLoaded(_, pos, sequence) =>
      if sequence == pos then CompareExchange(t, false) else if sequence < pos then ThrowFull(t) else ReloadHead(t)
    case SlotClaimed(_, _) => WriteValue(t)
    case ValueWritten(_) => Publish(t)
    case Published(_) => CountUp(t)
    case Counted => Signal(t)
  }

  /** The state after at most n further steps of the thread's push, taken alone. */
  function Alone<T>(s: State<T>, t: Thread, n: nat): State<T>
    requires |s.slots| > 0
    decreases n
  {
    if n == 0 || ProducerOf(s, t).Outside? then s else Alone(Apply(s, NextOf(s, t)), t, n - 1)
  }

  function StepsLeft<T>(p: Producer<T>): nat {
    if p.SlotClaimed? then 4 else if p.ValueWritten? then 3 else if p.Published? then 2 else if p.Counted? then 1 else 0
  }

  /** From a position it has won, a push needs at most four more steps. */
  lemma {:induction false} WonFinishesIn<T>(s: State<T>, t: Thread, n: nat)
    requires |s.slots| > 0 && n >= StepsLeft(ProducerOf(s, t))
    requires var p := ProducerOf(s, t); p.Outside? || p.SlotClaimed? || p.ValueWritten? || p.Published? || p.Counted?
    ensures ProducerOf(Alone(s, t, n), t).Outside?
    decreases n
  {
    if !ProducerOf(s, t).Outside? {
      WonFinishesIn(Apply(s, NextOf(s, t)), t, n - 1);
    }
  }

  /** With the present head as its position, it needs at most six. */
  lemma AtHeadFinishes<T>(s: State<T>, t: Thread, n: nat)
    requires Inv(s) && ProducerOf(s, t).HeadLoaded? && ProducerOf(s, t).pos == s.head && n >= 6
    ensures ProducerOf(Alone(s, t, n), t).Outside?
  {
    HeadSequence(s);
    var s1 := Apply(s, LoadSequence(t));
    assert Alone(s, t, n) == Alone(s1, t, n - 1);
    var s2 := Apply(s1, NextOf(s1, t));
    assert Alone(s1, t, n - 1) == Alone(s2, t, n - 2);
    WonFinishesIn(s2, t, n - 2);
  }

  lemma LoadedFinishes<T>(s: State<T>, t: Thread, n: nat)
    requires Inv(s) && ProducerOf(s, t).SequenceLoaded? && n >= 7
    ensures ProducerOf(Alone(s, t, n), t).Outside?
  {
    var s1 := Apply(s, NextOf(s, t));
    StepKeepsInv(s, NextOf(s, t));
    assert Alone(s, t, n) == Alone(s1, t, n - 1);
    if ProducerOf(s1, t).HeadLoaded? {
      AtHeadFinishes(s1, t, n - 1);
    } else {
      WonFinishesIn(s1, t, n - 1);
    }
  }

  /** No push depends on another thread: from any point it ends within eight steps of its own if no other thread moves. */
  lemma PushFinishesAlone<T>(states: seq<State<T>>, actions: seq<Action<T>>, i: nat, t: Thread)
    requires IsRun(states, actions) && i < |states|
    ensures |states[i].slots| > 0 && ProducerOf(Alone(states[i], t, 8), t).Outside?
  {
    RunKeepsInv(states, actions, i);
    var s := states[i];
    if ProducerOf(s, t).HeadLoaded? {
      var s1 := Apply(s, LoadSequence(t));
      StepKeepsInv(s, LoadSequence(t));
      assert Alone(s, t, 8) == Alone(s1, t, 7);
      LoadedFinishes(s1, t, 7);
    } else if ProducerOf(s, t).SequenceLoaded? {
      LoadedFinishes(s, t, 8);
    } else {
      WonFinishesIn(s, t, 8);
    }
  }

  // ---------------------------------------------------------------- what a pop decides and returns

  /** After its load of the sequence a pop is about to take the tail's item exactly when that position is published, and to give up otherwise. */
  lemma PopDecides<T>(states: seq<State<T>>, actions: seq<Action<T>>, i: nat)
    requires IsRun(states, actions) && i < |actions| && actions[i] == LoadTailSequence
    requires |states[i + 1].slots| > 0
    ensures var s, s' := states[i], states[i + 1];
      && (Enabled(s', TakeValue) <==> s.tail < s.head && !StillWriting(s, s.tail))
      && (Enabled(s', PopNothing) <==> s.tail == s.head || StillWriting(s, s.tail))
  {
    RunKeepsInv(states, actions, i);
    RunKeepsInv(states, actions, i + 1);
    assert IsStep(states[i], actions[i], states[i + 1]);
    EmptyIsUnpublished(states, actions, i);
    if Enabled(states[i + 1], PopNothing) || states[i].tail == states[i].head {
    } else {
      TakesClaimedValue(states[i + 1]);
    }
  }

  /** The item a pop holds until it returns is the last one it took, the one claimed for its position. */
  lemma PopReturnsWhatItTook<T>(states: seq<State<T>>, actions: seq<Action<T>>, i: nat)
    requires IsRun(states, actions) && i < |states|
    requires var c := states[i].consumer; c.Taken? || c.Cleared? || c.SlotFreed? || c.TailAdvanced?
    ensures states[i].popped != [] && states[i].consumer.item == states[i].popped[|states[i].popped| - 1]
  {
    RunKeepsInv(states, actions, i);
  }

  /** A slot that no push has claimed holds no item. */
  ghost predicate FreeSlotsEmpty<T>(s: State<T>) {
    && |s.slots| > 0
    && (forall p: nat {:trigger At(s, p)} :: s.head <= p < Freed(s) + |s.slots| ==> At(s, p).value.None?)
    && (s.consumer.Cleared? ==> At(s, s.tail).value.None?)
  }

  lemma {:induction false} FreeSlotsHoldNothing<T>(states: seq<State<T>>, actions: seq<Action<T>>, i: nat)
    requires IsRun(states, actions) && i < |states|
    ensures FreeSlotsEmpty(states[i])
  {
    if i > 0 {
      FreeSlotsHoldNothing(states, actions, i - 1);
      RunKeepsInv(states, actions, i - 1);
      RunKeepsInv(states, actions, i);
      assert IsStep(states[i - 1], actions[i - 1], states[i]);
      EmptyKept(states[i - 1], actions[i - 1]);
    }
  }

  lemma EmptyKept<T>(s: State<T>, a: Action<T>)
    requires Inv(s) && Enabled(s, a) && FreeSlotsEmpty(s) && Inv(Apply(s, a))
    ensures FreeSlotsEmpty(Apply(s, a))
  {
    var s' := Apply(s, a);
    match a
    case WriteValue(t) => WrittenElsewhere(s, s', ProducerOf(s, t).pos, t);
    case Publish(t) => WrittenElsewhere(s, s', ProducerOf(s, t).pos, t);
    case ClearValue => OneSlotWritten(s, s', s.tail, At(s', s.tail), Freed(s));
    case FreeSlot => FreedIsEmpty(s, s');
    case _ => SameSlots(s, s');
  }

  lemma WrittenElsewhere<T>(s: State<T>, s': State<T>, pos: nat, t: Thread)
    requires Inv(s) && FreeSlotsEmpty(s) && Owns(ProducerOf(s, t), pos)
    requires |s'.slots| == |s.slots| && s'.slots == SetSlot(s, pos, At(s', pos)).slots && s'.head == s.head && s'.tail == s.tail && s'.consumer == s.consumer
    ensures FreeSlotsEmpty(s')
  {
    assert ProducerOk(s, t, s.producers[t]);
    OneSlotWritten(s, s', pos, At(s', pos), Freed(s));
    if s.consumer.Cleared? { assert At(s, s.tail).sequence == s.tail + 1; }
  }

  lemma FreedIsEmpty<T>(s: State<T>, s': State<T>)
    requires Inv(s) && FreeSlotsEmpty(s) && s.consumer.Cleared?
    requires s' == Apply(s, FreeSlot)
    ensures FreeSlotsEmpty(s')
  {
    var n := |s.slots|;
    OneSlotWritten(s, s', s.tail, At(s', s.tail), s.tail);
    ModMultiple(s.tail, 1, n);
    assert At(s', s.tail + n) == At(s', s.tail);
  }

  // ---------------------------------------------------------------- the eventfd counter

  /** How many signals were sent since the counter was last read. */
  function SignalsSince<T>(actions: seq<Action<T>>): nat {
    if actions == [] then 0
    else
      match actions[|actions| - 1]
      case Signal(_) => SignalsSince(actions[..|actions| - 1]) + 1
      case ReadSignals => 0
      case _ => SignalsSince(actions[..|actions| - 1])
  }

  lemma {:induction false} SignalsCounted<T>(states: seq<State<T>>, actions: seq<Action<T>>, i: nat)
    requires IsRun(states, actions) && i < |states|
    ensures states[i].signals == SignalsSince(actions[..i])
  {
    if i > 0 {
      SignalsCounted(states, actions, i - 1);
      assert IsStep(states[i - 1], actions[i - 1], states[i]);
      assert actions[..i][..i - 1] == actions[..i - 1];
    }
  }
}
