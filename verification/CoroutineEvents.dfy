/**
  Cause and effect over any run of tasks and event bases: which base a task lives on, which events are queued
  and in which order they are handled, when a body runs, who owns a task, and when a frame is destroyed.
 */
module CoroutineEvents {
  import opened Coroutine
  import opened CoroutineRuns
  import opened Wrappers

  // ---------------------------------------------------------------- the base of a task

  /** The frame is bound to the base: it waits for it, and only its thread runs it. */
  ghost predicate LivesOn(s: State, f: FrameId, b: BaseId, parent: Option<FrameId>) {
    && f in s.frames && s.frames[f].base == Some(b) && s.frames[f].parent == parent
    && (forall c, e :: c in s.queues && e in s.queues[c] && e.frame == f ==> c == b)
    && (forall c :: c in s.loops && !s.loops[c].Idle? && s.loops[c].frame == f ==> c == b)
  }

  /** A frame that awaits a future is suspended, and nothing is destroyed. */
  lemma AwaitFutureIs(s: State, b: BaseId, h: HolderId)
    requires Enabled(s, AwaitFuture(b, h))
    ensures var f := s.loops[b].frame;
      Apply(s, AwaitFuture(b, h)) ==
      State(s.frames[f := s.frames[f].(hasSuspendValue := true, awaiting := OnFuture(Some(h)))], s.queues,
            s.loops[b := Idle], s.holders[h := f], s.clock)
  {
  }

  /** The frames after the test at the end of an event. */
  lemma CheckedFrame(s: State, f: FrameId, isForceDestroy: bool, g: FrameId)
    requires f in s.frames && g in s.frames
    ensures var s', x := CheckDestroy(s, f, isForceDestroy), s.frames[g];
      var gone := (isForceDestroy || !s.frames[f].hasAwaiter) && !s.frames[f].hasSuspendValue;
      && g in s'.frames
      && s'.frames[g] == x.(owner := if gone && g != f && x.owner == InFrame(f) then Dropping else x.owner,
                            destroyed := x.destroyed + if gone && g == f then 1 else 0)
  {
  }

  /** The frames after an event has been handled, up to the point where a body runs. */
  lemma HandledFields(s: State, b: BaseId, e: Event, g: FrameId)
    requires e.frame in s.frames && g in s.frames
    ensures var s', f := Handle(s, b, e), e.frame;
      var gone := (e.RemoveAwaiter? && !s.frames[f].hasSuspendValue) || (e.SetSuspendValue? && s.frames[f].forceDestroy);
      && g in s'.frames && s'.frames[g].base == s.frames[g].base && s'.frames[g].parent == s.frames[g].parent
      && s'.frames[g].destroyed == s.frames[g].destroyed + (if gone && g == f then 1 else 0)
      && s'.frames[g].owner == if gone && g != f && s.frames[g].owner == InFrame(f) then Dropping else s.frames[g].owner
  {
    var x := s.frames[e.frame];
    match e
    case Run(f) =>
    case SetSuspendValue(f) =>
      var s1 := SetFrame(s, f, x.(hasSuspendValue := false, awaiting := Nothing));
      CheckedFrame(s1, f, true, g);
    case RemoveAwaiter(f) =>
      CheckedFrame(SetFrame(s, f, x.(hasAwaiter := false)), f, false, g);
  }

  lemma BaseStays(s: State, a: Action, f: FrameId)
    requires Enabled(s, a) && f in s.frames && s.frames[f].base.Some?
    ensures f in Apply(s, a).frames
    ensures Apply(s, a).frames[f].base == s.frames[f].base && Apply(s, a).frames[f].parent == s.frames[f].parent
  {
    match a
    case Pop(b) => HandledFields(s.(queues := s.queues[b := s.queues[b][1..]]), b, s.queues[b][0], f);
    case AwaitFuture(b, h) => AwaitFutureIs(s, b, h);
    case AwaitChild(b, c) => AwaitChildIs(s, b, c);
    case FinalSuspend(b) => CheckedFrame(s, s.loops[b].frame, false, f);
    case Release(g) => ReleasedFields(s, g, f);
    case _ =>
  }

  lemma ReleasedFields(s: State, f: FrameId, g: FrameId)
    requires Enabled(s, Release(f)) && g in s.frames
    ensures var s' := Apply(s, Release(f));
      var gone := s.frames[f].base.None?;
      && g in s'.frames && s'.frames[g].base == s.frames[g].base && s'.frames[g].parent == s.frames[g].parent
      && s'.frames[g].destroyed == s.frames[g].destroyed + (if gone && g == f then 1 else 0)
      && s'.frames[g].owner ==
         if g == f then Nobody else if gone && s.frames[g].owner == InFrame(f) then Dropping else s.frames[g].owner
  {
  }

  lemma BoundLivesOn(s: State, f: FrameId)
    requires Inv(s) && f in s.frames && s.frames[f].base.Some?
    ensures LivesOn(s, f, s.frames[f].base.value, s.frames[f].parent)
  {
    forall c, e | c in s.queues && e in s.queues[c] && e.frame == f
      ensures c == s.frames[f].base.value
    {
      assert BaseOk(s, c);
    }
    forall c | c in s.loops && !s.loops[c].Idle? && s.loops[c].frame == f
      ensures c == s.frames[f].base.value
    {
      assert BaseOk(s, c);
    }
  }

  lemma {:induction false} BoundForGood(states: seq<State>, actions: seq<Action>, i: nat, j: nat, f: FrameId)
    requires IsRun(states, actions) && i <= j < |states| && f in states[i].frames && states[i].frames[f].base.Some?
    ensures LivesOn(states[j], f, states[i].frames[f].base.value, states[i].frames[f].parent)
    decreases j - i
  {
    RunKeepsInv(states, actions, j);
    if i == j {
      BoundLivesOn(states[j], f);
    } else {
      BoundForGood(states, actions, i, j - 1, f);
      assert IsStep(states[j - 1], actions[j - 1], states[j]);
      BaseStays(states[j - 1], actions[j - 1], f);
      BoundLivesOn(states[j], f);
    }
  }

  /** A task that is started on a base lives on that base for the rest of the run, and has no parent. */
  lemma StartedTaskStays(states: seq<State>, actions: seq<Action>, i: nat, j: nat, f: FrameId, b: BaseId)
    requires IsRun(states, actions) && i < j < |states| && actions[i] == Start(f, b)
    ensures LivesOn(states[j], f, b, None)
  {
    assert IsStep(states[i], actions[i], states[i + 1]);
    assert states[i + 1].frames[f].base == Some(b) && states[i + 1].frames[f].parent == None;
    BoundForGood(states, actions, i + 1, j, f);
  }

  /** A child that is awaited lives on the base of its parent, which awaits it, for the rest of the run. */
  lemma AwaitedChildStays(states: seq<State>, actions: seq<Action>, i: nat, j: nat, b: BaseId, c: FrameId)
    requires IsRun(states, actions) && i < j < |states| && actions[i] == AwaitChild(b, c)
    ensures b in states[i].loops && states[i].loops[b].Running?
    ensures var f := states[i].loops[b].frame;
      && LivesOn(states[j], c, b, Some(f)) && f in states[j].frames && states[j].frames[f].base == Some(b)
      && f in states[i + 1].frames && states[i + 1].frames[f].awaiting == OnChild(c)
  {
    RunKeepsInv(states, actions, i);
    assert IsStep(states[i], actions[i], states[i + 1]);
    var s, s' := states[i], states[i + 1];
    RunningFrame(s, b);
    AwaitChildIs(s, b, c);
    assert s'.frames[c].base == Some(b) && s'.frames[c].parent == Some(s.loops[b].frame);
    BoundForGood(states, actions, i + 1, j, c);
    BoundForGood(states, actions, i, j, s.loops[b].frame);
  }

  // ---------------------------------------------------------------- the events

  /** Why an event is queued on a base. */
  ghost predicate Causes(s: State, a: Action, b: BaseId, e: Event) {
    match e
    case Run(f) => a == Start(f, b) || a == AwaitChild(b, f)
    case SetSuspendValue(f) =>
      && f in s.frames && s.frames[f].base == Some(b)
      && ((a.Resolve? && a.holder in s.holders && s.holders[a.holder] == f)
          || (a.Return? && a.base in s.loops && s.loops[a.base].Running? && s.loops[a.base].frame in s.frames
              && s.frames[s.loops[a.base].frame].parent == Some(f)))
    case RemoveAwaiter(f) => a == Release(f) && f in s.frames && s.frames[f].base == Some(b)
  }

  /** The queue of a base grows at its end, by the event that the step causes on it, and shrinks at its front when it is popped. */
  ghost predicate QueueMoves(s: State, a: Action, s': State, b: BaseId)
    requires b in s.queues && b in s'.queues
  {
    if a == Pop(b) then s.queues[b] != [] && s'.queues[b] == s.queues[b][1..]
    else if exists e :: Causes(s, a, b, e) then exists e :: Causes(s, a, b, e) && s'.queues[b] == s.queues[b] + [e]
    else s'.queues[b] == s.queues[b]
  }

  /** A returning body's parent is on the same base. */
  lemma ParentIsHere(s: State, b: BaseId)
    requires Inv(s) && Enabled(s, Return(b))
    ensures var f := s.loops[b].frame;
      s.frames[f].parent.Some? ==> s.frames[f].parent.value in s.frames && s.frames[s.frames[f].parent.value].base == Some(b)
  {
    RunningFrame(s, b);
    assert LinkOk(s, s.loops[b].frame);
  }

  /** The event a step queues is the only one it causes. */
  lemma Queues(s: State, a: Action, c: BaseId, e: Event, b: BaseId)
    requires Inv(s) && Enabled(s, a) && !a.Pop? && b in s.queues && c in s.queues && Causes(s, a, c, e)
    requires Apply(s, a).queues == s.queues[c := s.queues[c] + [e]]
    requires forall c', e' :: Causes(s, a, c', e') ==> c' == c && e' == e
    ensures b in Apply(s, a).queues && QueueMoves(s, a, Apply(s, a), b)
  {
  }

  lemma QueuesNothing(s: State, a: Action, b: BaseId)
    requires Enabled(s, a) && !a.Pop? && b in s.queues && Apply(s, a).queues == s.queues
    requires forall c', e' :: !Causes(s, a, c', e')
    ensures b in Apply(s, a).queues && QueueMoves(s, a, Apply(s, a), b)
  {
  }

  lemma ReturnMovesQueue(s: State, c: BaseId, b: BaseId)
    requires Inv(s) && Enabled(s, Return(c)) && b in s.queues
    ensures b in Apply(s, Return(c)).queues && QueueMoves(s, Return(c), Apply(s, Return(c)), b)
  {
    var f := s.loops[c].frame;
    ParentIsHere(s, c);
    if s.frames[f].parent.Some? {
      Queues(s, Return(c), c, SetSuspendValue(s.frames[f].parent.value), b);
    } else {
      QueuesNothing(s, Return(c), b);
    }
  }

  lemma ReleaseMovesQueue(s: State, f: FrameId, b: BaseId)
    requires Inv(s) && Enabled(s, Release(f)) && b in s.queues
    ensures b in Apply(s, Release(f)).queues && QueueMoves(s, Release(f), Apply(s, Release(f)), b)
  {
    if s.frames[f].base.Some? {
      Queues(s, Release(f), s.frames[f].base.value, RemoveAwaiter(f), b);
    } else {
      QueuesNothing(s, Release(f), b);
    }
  }

  lemma StepMovesQueue(s: State, a: Action, b: BaseId)
    requires Inv(s) && Enabled(s, a) && b in s.queues
    ensures b in Apply(s, a).queues && QueueMoves(s, a, Apply(s, a), b)
  {
    match a
    case Start(f, c) => Queues(s, a, c, Run(f), b);
    case AwaitChild(c, f) =>
      AwaitChildIs(s, c, f);
      Queues(s, a, c, Run(f), b);
    case Release(f) => ReleaseMovesQueue(s, f, b);
    case Resolve(h) => Queues(s, a, s.frames[s.holders[h]].base.value, SetSuspendValue(s.holders[h]), b);
    case Return(c) => ReturnMovesQueue(s, c, b);
    case Pop(c) =>
    case _ => QueuesNothing(s, a, b);
  }

  /** Over any run, events wait in the order in which they were caused, and are handled in that order. */
  lemma EventsAreFifo(states: seq<State>, actions: seq<Action>, i: nat, b: BaseId)
    requires IsRun(states, actions) && i < |actions| && b in states[i].queues
    ensures b in states[i + 1].queues && QueueMoves(states[i], actions[i], states[i + 1], b)
  {
    RunKeepsInv(states, actions, i);
    assert IsStep(states[i], actions[i], states[i + 1]);
    StepMovesQueue(states[i], actions[i], b);
  }

  // ---------------------------------------------------------------- bodies

  /** The event makes its frame's body run. */
  predicate Resumes(s: State, e: Event) {
    e.frame in s.frames && (e.Run? || (e.SetSuspendValue? && !s.frames[e.frame].forceDestroy))
  }

  /**
    A body is resumed exactly by its RUN, and by a SET_SUSPEND_VALUE unless it was force-destroyed; what it waited
    for is then done: its future has been set, or its child has returned.
   */
  lemma ResumedWhenReady(states: seq<State>, actions: seq<Action>, i: nat, b: BaseId, f: FrameId)
    requires IsRun(states, actions) && i < |actions| && b in states[i].loops && b in states[i].queues
    ensures b in states[i + 1].loops
    ensures states[i].loops[b] != Running(f) ==>
      (states[i + 1].loops[b] == Running(f) <==>
       actions[i] == Pop(b) && states[i].queues[b][0].frame == f && Resumes(states[i], states[i].queues[b][0]))
    ensures actions[i] == Pop(b) && states[i].queues[b][0] == Run(f) ==>
      f in states[i].frames && !states[i].frames[f].resumed
    ensures actions[i] == Pop(b) && states[i].queues[b][0] == SetSuspendValue(f) ==>
      && f in states[i].frames && states[i].frames[f].resumed
      && var w := states[i].frames[f].awaiting;
         w == OnFuture(None) || (w.OnChild? && w.child in states[i].frames && states[i].frames[w.child].returned)
  {
    RunKeepsInv(states, actions, i);
    var s := states[i];
    assert IsStep(s, actions[i], states[i + 1]);
    if actions[i] == Pop(b) {
      HeadEvent(s, b);
      assert LinkOk(s, s.queues[b][0].frame);
    }
  }

  // ---------------------------------------------------------------- owners

  /** Why the owner of a task changes. */
  ghost predicate OwnerMoves(s: State, a: Action, s': State, g: FrameId)
    requires g in s.frames && g in s'.frames
  {
    var was, now := s.frames[g].owner, s'.frames[g].owner;
    if a.MoveTask? && a.frame == g then now == a.owner
    else if a == Release(g) then now == Nobody
    else if a == ForceDestroy(g) then now == if s.frames[g].base.Some? then Nobody else was
    else if was.InFrame? && was.frame in s.frames && was.frame in s'.frames
            && s'.frames[was.frame].destroyed > s.frames[was.frame].destroyed then now == Dropping
    else now == was
  }

  /** A task changes hands when it is moved, let go or force-destroyed, and is dropped exactly when the frame that holds it is destroyed. */
  lemma OwnersMove(states: seq<State>, actions: seq<Action>, i: nat, g: FrameId)
    requires IsRun(states, actions) && i < |actions| && g in states[i].frames
    ensures g in states[i + 1].frames && OwnerMoves(states[i], actions[i], states[i + 1], g)
  {
    RunKeepsInv(states, actions, i);
    assert IsStep(states[i], actions[i], states[i + 1]);
    OwnerStep(states[i], actions[i], g);
  }

  lemma OwnerStep(s: State, a: Action, g: FrameId)
    requires Inv(s) && Enabled(s, a) && g in s.frames
    ensures g in Apply(s, a).frames && OwnerMoves(s, a, Apply(s, a), g)
  {
    if a.Pop? || a.FinalSuspend? || a.Release? {
      OwnerStepEnding(s, a, g);
    } else {
      OwnerStepOther(s, a, g);
    }
  }

  lemma OwnerStepEnding(s: State, a: Action, g: FrameId)
    requires Inv(s) && Enabled(s, a) && g in s.frames && (a.Pop? || a.FinalSuspend? || a.Release?)
    ensures g in Apply(s, a).frames && OwnerMoves(s, a, Apply(s, a), g)
  {
    assert FrameOk(s, g) && LinkOk(s, g);
    var was := s.frames[g].owner;
    var h := if was.InFrame? then was.frame else g;
    match a
    case Pop(b) =>
      HeadEvent(s, b);
      HandledFields(s.(queues := s.queues[b := s.queues[b][1..]]), b, s.queues[b][0], g);
      HandledFields(s.(queues := s.queues[b := s.queues[b][1..]]), b, s.queues[b][0], h);
    case FinalSuspend(b) =>
      RunningFrame(s, b);
      CheckedFrame(s, s.loops[b].frame, false, g);
      CheckedFrame(s, s.loops[b].frame, false, h);
    case Release(f) =>
      ReleasedFields(s, f, g);
      ReleasedFields(s, f, h);
    case _ =>
  }

  lemma OwnerStepOther(s: State, a: Action, g: FrameId)
    requires Inv(s) && Enabled(s, a) && g in s.frames && !a.Pop? && !a.FinalSuspend? && !a.Release?
    ensures g in Apply(s, a).frames && OwnerMoves(s, a, Apply(s, a), g)
  {
    match a
    case AwaitFuture(b, f) => AwaitFutureIs(s, b, f);
    case AwaitChild(b, c) => AwaitChildIs(s, b, c);
    case _ =>
  }

  // ---------------------------------------------------------------- destruction

  /** The end of an event, or the release of a task that was never started, that destroys a frame. */
  ghost predicate Destroys(s: State, a: Action, f: FrameId)
    requires Enabled(s, a) && f in s.frames
  {
    match a
    case Release(g) => g == f && s.frames[f].base.None?
    case Pop(b) =>
      var e := s.queues[b][0];
      && e.frame == f
      && ((e.RemoveAwaiter? && !s.frames[f].hasSuspendValue) || (e.SetSuspendValue? && s.frames[f].forceDestroy))
    case FinalSuspend(b) => s.loops[b].frame == f && !s.frames[f].hasAwaiter
    case _ => false
  }

  /**
    A frame is destroyed exactly when a task that was never started is let go, when its awaiter is removed while it
    does not wait, when it is force-destroyed and what it waits for is done, and when it ends without an awaiter.
   */
  lemma DestroyedExactly(states: seq<State>, actions: seq<Action>, i: nat, f: FrameId)
    requires IsRun(states, actions) && i < |actions| && f in states[i].frames
    ensures Enabled(states[i], actions[i]) && f in states[i + 1].frames
    ensures states[i + 1].frames[f].destroyed ==
      states[i].frames[f].destroyed + if Destroys(states[i], actions[i], f) then 1 else 0
  {
    RunKeepsInv(states, actions, i);
    var s, a := states[i], actions[i];
    assert IsStep(s, a, states[i + 1]);
    DestroyStep(s, a, f);
  }

  lemma DestroyStep(s: State, a: Action, f: FrameId)
    requires Inv(s) && Enabled(s, a) && f in s.frames
    ensures f in Apply(s, a).frames
    ensures Apply(s, a).frames[f].destroyed == s.frames[f].destroyed + if Destroys(s, a, f) then 1 else 0
  {
    match a
    case AwaitFuture(b, h) => AwaitFutureIs(s, b, h);
    case AwaitChild(b, c) => AwaitChildIs(s, b, c);
    case Pop(b) => HandledFields(s.(queues := s.queues[b := s.queues[b][1..]]), b, s.queues[b][0], f);
    case FinalSuspend(b) =>
      RunningFrame(s, b);
      CheckedFrame(s, s.loops[b].frame, false, f);
    case Release(g) => ReleasedFields(s, g, f);
    case _ =>
  }

  // ---------------------------------------------------------------- flags

  /** A frame is force-destroyed only by `destroy` on its started task, and returned only by its own body. */
  lemma FlagsMove(states: seq<State>, actions: seq<Action>, i: nat, f: FrameId)
    requires IsRun(states, actions) && i < |actions| && f in states[i].frames
    ensures var s, a, s' := states[i], actions[i], states[i + 1];
      && f in s'.frames
      && (s'.frames[f].forceDestroy <==> s.frames[f].forceDestroy || (a == ForceDestroy(f) && s.frames[f].base.Some?))
      && (s'.frames[f].returned <==>
           s.frames[f].returned || (a.Return? && a.base in s.loops && s.loops[a.base] == Running(f)))
  {
    RunKeepsInv(states, actions, i);
    var s, a := states[i], actions[i];
    assert IsStep(s, a, states[i + 1]);
    match a
    case AwaitFuture(b, h) => AwaitFutureIs(s, b, h);
    case AwaitChild(b, c) => AwaitChildIs(s, b, c);
    case Pop(b) => HandledFlags(s.(queues := s.queues[b := s.queues[b][1..]]), b, s.queues[b][0], f);
    case _ =>
  }

  lemma HandledFlags(s: State, b: BaseId, e: Event, g: FrameId)
    requires e.frame in s.frames && g in s.frames
    ensures var s' := Handle(s, b, e);
      && g in s'.frames && s'.frames[g].forceDestroy == s.frames[g].forceDestroy
      && s'.frames[g].returned == s.frames[g].returned
  {
    var x := s.frames[e.frame];
    match e
    case Run(f) =>
    case SetSuspendValue(f) =>
      CheckedFrame(SetFrame(s, f, x.(hasSuspendValue := false, awaiting := Nothing)), f, true, g);
    case RemoveAwaiter(f) =>
      CheckedFrame(SetFrame(s, f, x.(hasAwaiter := false)), f, false, g);
  }
}
