/** What holds over every run of tasks, futures and event bases: safety, forced destruction and reclamation. */
module CoroutineRuns {
  import opened Coroutine
  import opened Wrappers

  ghost predicate IsStep(s: State, a: Action, s': State) {
    Enabled(s, a) && s' == Apply(s, a)
  }

  /** Any interleaving of event-base threads and other threads. */
  ghost predicate IsRun(states: seq<State>, actions: seq<Action>) {
    && |states| == |actions| + 1
    && Init(states[0])
    && (forall i :: 0 <= i < |actions| ==> IsStep(states[i], actions[i], states[i + 1]))
  }

  lemma {:induction false} RunKeepsInv(states: seq<State>, actions: seq<Action>, i: nat)
    requires IsRun(states, actions) && i < |states|
    ensures Inv(states[i])
  {
    if i > 0 {
      RunKeepsInv(states, actions, i - 1);
      assert IsStep(states[i - 1], actions[i - 1], states[i]);
      StepKeepsInv(states[i - 1], actions[i - 1]);
    }
  }

  /** No event is handled for a destroyed frame, and none ever waits for one. */
  lemma EventsReachLiveFrames(states: seq<State>, actions: seq<Action>, i: nat, b: BaseId, e: Event)
    requires IsRun(states, actions) && i < |states|
    requires b in states[i].queues && e in states[i].queues[b]
    ensures Alive(states[i], e.frame)
    ensures i < |actions| && actions[i] == Pop(b) ==> Alive(states[i], states[i].queues[b][0].frame)
  {
    RunKeepsInv(states, actions, i);
    var s := states[i];
    assert BaseOk(s, b);
    assert FrameOk(s, e.frame);
    assert Queued(s, e);
    if i < |actions| && actions[i] == Pop(b) {
      assert IsStep(s, actions[i], states[i + 1]);
      HeadEvent(s, b);
    }
  }

  /** A destroyed frame was destroyed once, and nothing can reach it: no event, thread, task handle, future or child. */
  lemma DestroyedOnceAndUnreferenced(states: seq<State>, actions: seq<Action>, i: nat, f: FrameId)
    requires IsRun(states, actions) && i < |states|
    requires f in states[i].frames && states[i].frames[f].destroyed > 0
    ensures var s := states[i];
      && s.frames[f].destroyed == 1 && s.frames[f].owner == Nobody
      && (forall b, e :: b in s.queues && e in s.queues[b] ==> e.frame != f)
      && (forall b :: b in s.loops && !s.loops[b].Idle? ==> s.loops[b].frame != f)
      && (forall h :: h in s.holders ==> s.holders[h] != f)
      && (forall g :: g in s.frames && s.frames[g].parent == Some(f) ==> s.frames[g].returned)
      && (forall g :: g in s.frames ==> s.frames[g].owner != InFrame(f))
  {
    RunKeepsInv(states, actions, i);
    var s := states[i];
    assert FrameOk(s, f);
    forall b, e | b in s.queues && e in s.queues[b]
      ensures e.frame != f
    {
      EventsReachLiveFrames(states, actions, i, b, e);
    }
    forall b | b in s.loops && !s.loops[b].Idle?
      ensures s.loops[b].frame != f
    {
      assert BaseOk(s, b);
      RunningFrame(s, b);
    }
    forall h | h in s.holders ensures s.holders[h] != f { assert HolderOk(s, h); }
    forall g | g in s.frames
      ensures s.frames[g].parent == Some(f) ==> s.frames[g].returned
      ensures s.frames[g].owner != InFrame(f)
    {
      assert LinkOk(s, g);
    }
  }

  /**
    A parent that is resumed after awaiting a child whose task is still held, by itself or by anyone else, finds the
    child returned and its frame alive, so it can read the child's value.
   */
  lemma ResumedParentReadsChild(states: seq<State>, actions: seq<Action>, i: nat, b: BaseId, f: FrameId, c: FrameId)
    requires IsRun(states, actions) && i < |actions| && actions[i] == Pop(b)
    requires b in states[i].queues && states[i].queues[b] != [] && states[i].queues[b][0] == SetSuspendValue(f)
    requires f in states[i].frames && states[i].frames[f].awaiting == OnChild(c) && HasHandle(states[i], c)
    ensures Alive(states[i], c) && states[i].frames[c].returned
    ensures !states[i].frames[f].forceDestroy ==>
      && b in states[i + 1].loops && states[i + 1].loops[b] == Running(f)
      && Alive(states[i + 1], c) && states[i + 1].frames[c].returned && HasHandle(states[i + 1], c)
  {
    RunKeepsInv(states, actions, i);
    var s := states[i];
    assert IsStep(s, actions[i], states[i + 1]);
    HeadEvent(s, b);
    assert LinkOk(s, f) && FrameOk(s, c);
  }

  /** A destroyed frame stays in the record, destroyed, for the rest of the run. */
  lemma {:induction false} DestroyedForGood(states: seq<State>, actions: seq<Action>, i: nat, j: nat, f: FrameId)
    requires IsRun(states, actions) && i <= j < |states|
    requires f in states[i].frames && states[i].frames[f].destroyed == 1
    ensures f in states[j].frames && states[j].frames[f].destroyed == 1
    decreases j - i
  {
    if i < j {
      assert IsStep(states[i], actions[i], states[i + 1]);
      RunKeepsInv(states, actions, i + 1);
      assert f in states[i + 1].frames ==> FrameOk(states[i + 1], f);
      DestroyCountGrows(states[i], actions[i], f);
      DestroyedForGood(states, actions, i + 1, j, f);
    }
  }

  lemma DestroyCountGrows(s: State, a: Action, f: FrameId)
    requires Enabled(s, a) && f in s.frames
    ensures f in Apply(s, a).frames && Apply(s, a).frames[f].destroyed >= s.frames[f].destroyed
  {
    match a
    case Pop(b) => HandleCountGrows(s.(queues := s.queues[b := s.queues[b][1..]]), b, s.queues[b][0], f);
    case _ =>
  }

  lemma HandleCountGrows(s: State, b: BaseId, e: Event, f: FrameId)
    requires e.frame in s.frames && f in s.frames
    ensures f in Handle(s, b, e).frames && Handle(s, b, e).frames[f].destroyed >= s.frames[f].destroyed
  {
  }

  /** A force-destroyed frame that is suspended never runs again: its next SET_SUSPEND_VALUE destroys it. */
  lemma ForcedFrameDiesUnresumed(states: seq<State>, actions: seq<Action>, i: nat, f: FrameId)
    requires IsRun(states, actions) && i < |actions| && f in states[i].frames
    requires states[i].frames[f].forceDestroy && states[i].frames[f].resumed && LoopOf(states[i], f) != Running(f)
    ensures f in states[i + 1].frames && LoopOf(states[i + 1], f) != Running(f)
    ensures
      forall b :: actions[i] == Pop(b) && states[i].queues[b][0] == SetSuspendValue(f) ==>
        states[i].frames[f].destroyed == 0 && states[i + 1].frames[f].destroyed == 1
  {
    RunKeepsInv(states, actions, i);
    var s, a := states[i], actions[i];
    assert IsStep(s, a, states[i + 1]);
    assert FrameOk(s, f);
    if a.Pop? {
      PopSparesForced(s, a.base, f);
    } else {
      OtherStepsSpare(s, a, f);
    }
  }

  lemma PopSparesForced(s: State, b: BaseId, f: FrameId)
    requires Inv(s) && Enabled(s, Pop(b)) && f in s.frames
    requires s.frames[f].forceDestroy && s.frames[f].resumed && LoopOf(s, f) != Running(f)
    ensures f in Apply(s, Pop(b)).frames && LoopOf(Apply(s, Pop(b)), f) != Running(f)
    ensures s.queues[b][0] == SetSuspendValue(f) ==>
      s.frames[f].destroyed == 0 && Apply(s, Pop(b)).frames[f].destroyed == 1
  {
    HeadEvent(s, b);
  }

  /** Only the handling of an event starts a body. */
  lemma OtherStepsSpare(s: State, a: Action, f: FrameId)
    requires Inv(s) && Enabled(s, a) && !a.Pop? && f in s.frames
    requires (s.frames[f].base.Some? || s.frames[f].owner == Nobody) && LoopOf(s, f) != Running(f)
    ensures f in Apply(s, a).frames && LoopOf(Apply(s, a), f) != Running(f)
  {
    assert LinkOk(s, f);
  }

  /** A frame force-destroyed once it has returned, or returning afterwards, is never freed. */
  lemma {:induction false} ForcedAfterReturnStays(states: seq<State>, actions: seq<Action>, i: nat, j: nat, f: FrameId)
    requires IsRun(states, actions) && i <= j < |states|
    requires Alive(states[i], f) && states[i].frames[f].forceDestroy && states[i].frames[f].returned
    ensures Alive(states[j], f)
    decreases j - i
  {
    if i < j {
      RunKeepsInv(states, actions, i);
      assert IsStep(states[i], actions[i], states[i + 1]);
      ForcedReturnedKept(states[i], actions[i], f);
      ForcedAfterReturnStays(states, actions, i + 1, j, f);
    }
  }

  lemma ForcedReturnedKept(s: State, a: Action, f: FrameId)
    requires Inv(s) && Enabled(s, a)
    requires Alive(s, f) && s.frames[f].forceDestroy && s.frames[f].returned
    ensures Alive(Apply(s, a), f) && Apply(s, a).frames[f].forceDestroy && Apply(s, a).frames[f].returned
  {
    assert FrameOk(s, f);
    if a.Pop? {
      HeadEvent(s, a.base);
    }
  }

  /** The guards of the queueing steps never hold a real step back. */
  lemma GuardsNeverBlock(states: seq<State>, actions: seq<Action>, i: nat)
    requires IsRun(states, actions) && i < |states|
    ensures var s := states[i];
      && (forall h :: h in s.holders ==> Enabled(s, Resolve(h)))
      && (forall f :: HasHandle(s, f) ==> Enabled(s, Release(f)))
      && (forall b :: b in s.queues && b in s.loops && s.queues[b] != [] && s.loops[b].Idle? ==> Enabled(s, Pop(b)))
  {
    RunKeepsInv(states, actions, i);
    var s := states[i];
    forall h | h in s.holders
      ensures Enabled(s, Resolve(h))
    {
      assert HolderOk(s, h);
      assert FrameOk(s, s.holders[h]) && LinkOk(s, s.holders[h]);
    }
    forall f | HasHandle(s, f) ensures Enabled(s, Release(f)) { assert LinkOk(s, f); }
    forall b | b in s.queues && b in s.loops && s.queues[b] != [] && s.loops[b].Idle?
      ensures Enabled(s, Pop(b))
    {
      assert BaseOk(s, b);
      assert s.queues[b][0] in s.queues[b];
    }
  }

  // ---------------------------------------------------------------- reclamation

  /** No event waits, no body runs and no future is outstanding. */
  ghost predicate Quiescent(s: State) {
    && (forall b :: b in s.queues ==> s.queues[b] == [])
    && (forall b :: b in s.loops ==> s.loops[b].Idle?)
    && s.holders == map[]
  }

  /** Down the await chain of f there is a child that was force-destroyed before it returned. */
  ghost predicate AwaitsForced(s: State, f: FrameId)
    decreases if f in s.frames then s.clock - s.frames[f].startedAt else 0
  {
    && f in s.frames && s.frames[f].awaiting.OnChild?
    && var c := s.frames[f].awaiting.child;
    && c in s.frames && s.frames[f].startedAt < s.frames[c].startedAt <= s.clock
    && ((s.frames[c].destroyed > 0 && s.frames[c].forceDestroy && !s.frames[c].returned) || AwaitsForced(s, c))
  }

  /** With nothing left to happen, a frame still waiting waits, in the end, for a force-destroyed one. */
  lemma {:induction false} WaitsForForced(s: State, f: FrameId)
    requires Inv(s) && Quiescent(s) && Alive(s, f) && s.frames[f].hasSuspendValue
    ensures AwaitsForced(s, f)
    decreases s.clock - s.frames[f].startedAt
  {
    assert FrameOk(s, f) && LinkOk(s, f);
    var c := s.frames[f].awaiting.child;
    assert LinkOk(s, c) && FrameOk(s, c);
    if s.frames[c].destroyed == 0 {
      WaitsForForced(s, c);
    }
  }

  /**
    Reclamation: once nothing is left to happen, a started or awaited frame whose task was let go
    through `check_release` has been destroyed exactly once, unless its await chain ends at a
    force-destroyed frame; then it is still there.
   */
  lemma Reclaimed(states: seq<State>, actions: seq<Action>, i: nat, f: FrameId)
    requires IsRun(states, actions) && i < |states| && Quiescent(states[i])
    requires f in states[i].frames && states[i].frames[f].base.Some?
    requires states[i].frames[f].owner == Nobody && !states[i].frames[f].forceDestroy
    ensures states[i].frames[f].destroyed == 1 <==> !AwaitsForced(states[i], f)
    ensures states[i].frames[f].destroyed == 0 <==> AwaitsForced(states[i], f)
  {
    RunKeepsInv(states, actions, i);
    var s := states[i];
    assert FrameOk(s, f) && LinkOk(s, f);
    if s.frames[f].destroyed == 0 {
      WaitsForForced(s, f);
    }
  }

  /**
    Forced destruction: once nothing is left to happen, a force-destroyed frame has been destroyed exactly once
    if and only if it had not returned and its await chain does not end at another force-destroyed frame.
   */
  lemma ForcedReclaimed(states: seq<State>, actions: seq<Action>, i: nat, f: FrameId)
    requires IsRun(states, actions) && i < |states| && Quiescent(states[i])
    requires f in states[i].frames && states[i].frames[f].forceDestroy
    ensures states[i].frames[f].destroyed == 1 <==> !states[i].frames[f].returned && !AwaitsForced(states[i], f)
    ensures states[i].frames[f].destroyed == 0 <==> states[i].frames[f].returned || AwaitsForced(states[i], f)
  {
    RunKeepsInv(states, actions, i);
    var s := states[i];
    assert FrameOk(s, f) && LinkOk(s, f);
    if s.frames[f].destroyed == 0 && s.frames[f].hasSuspendValue {
      WaitsForForced(s, f);
    }
  }

  // ---------------------------------------------------------------- runs that reach the states above

  ghost predicate EndsAt(states: seq<State>, actions: seq<Action>, s: State) {
    IsRun(states, actions) && states[|actions|] == s
  }

  ghost predicate Reachable(s: State) {
    exists states, actions :: EndsAt(states, actions, s)
  }

  lemma StepReachable(s: State, a: Action) returns (s': State)
    requires Reachable(s) && Enabled(s, a)
    ensures s' == Apply(s, a) && Reachable(s')
  {
    s' := Apply(s, a);
    var states, actions :| EndsAt(states, actions, s);
    var longer, more := states + [s'], actions + [a];
    forall i | 0 <= i < |more| ensures IsStep(longer[i], more[i], longer[i + 1]) {
      if i < |actions| { assert IsStep(states[i], actions[i], states[i + 1]); }
    }
    assert EndsAt(longer, more, s');
  }

  /** A frame that has been created and started, and runs on the only event base. */
  lemma FrameRuns() returns (s: State)
    ensures Reachable(s)
    ensures s == State(map[0 := NEW_FRAME.(base := Some(0), startedAt := 1, resumed := true)],
                       map[0 := []], map[0 := Running(0)], map[], 1)
  {
    s := State(map[], map[0 := []], map[0 := Idle], map[], 0);
    assert EndsAt([s], [], s);
    s := StepReachable(s, Create(0, Outside));
    s := StepReachable(s, Start(0, 0));
    s := StepReachable(s, Pop(0));
  }

  /** A task that completes in its first RUN and is force-destroyed then is never freed: such a state is reached. */
  lemma ForcedAfterReturnHappens() returns (s: State)
    ensures Reachable(s) && Quiescent(s)
    ensures Alive(s, 0) && s.frames[0].forceDestroy && s.frames[0].returned
  {
    s := FrameRuns();
    s := StepReachable(s, Return(0));
    s := StepReachable(s, FinalSuspend(0));
    s := StepReachable(s, ForceDestroy(0));
  }

  /** The frame awaits a child, whose RUN is queued. */
  lemma ChildStarts() returns (s: State)
    ensures Reachable(s)
    ensures s == State(map[0 := NEW_FRAME.(base := Some(0), startedAt := 1, resumed := true, hasSuspendValue := true, awaiting := OnChild(1)),
                           1 := NEW_FRAME.(base := Some(0), parent := Some(0), startedAt := 2, owner := InFrame(0))],
                       map[0 := [Run(1)]], map[0 := Idle], map[], 2)
  {
    s := FrameRuns();
    s := StepReachable(s, Create(1, InFrame(0)));
    s := StepReachable(s, AwaitChild(0, 1));
    assert [] + [Run(1)] == [Run(1)];
    assert s.queues == map[0 := [Run(1)]] && s.loops == map[0 := Idle];
  }

  /** The child runs and suspends on a future. */
  lemma ChildSuspends() returns (s: State)
    ensures Reachable(s)
    ensures s == State(map[0 := NEW_FRAME.(base := Some(0), startedAt := 1, resumed := true, hasSuspendValue := true, awaiting := OnChild(1)),
                           1 := NEW_FRAME.(base := Some(0), parent := Some(0), startedAt := 2, resumed := true, hasSuspendValue := true,
                                           awaiting := OnFuture(Some(0)), owner := InFrame(0))],
                       map[0 := []], map[0 := Idle], map[0 := 1], 2)
  {
    s := ChildStarts();
    s := StepReachable(s, Pop(0));
    s := StepReachable(s, AwaitFuture(0, 0));
  }

  /** A parent whose child is force-destroyed stays for ever, although its own task was let go: such a state is reached. */
  lemma ForcedChildStrandsParent() returns (s: State)
    ensures Reachable(s) && Quiescent(s)
    ensures Alive(s, 0) && s.frames[0].base.Some? && s.frames[0].owner == Nobody && !s.frames[0].forceDestroy
    ensures AwaitsForced(s, 0)
  {
    s := ChildSuspends();
    s := StepReachable(s, ForceDestroy(1));
    s := StepReachable(s, Resolve(0));
    s := StepReachable(s, Pop(0));
    s := StepReachable(s, Release(0));
    s := StepReachable(s, Pop(0));
  }
}
