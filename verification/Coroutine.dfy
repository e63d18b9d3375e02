/**
  The life of a coroutine frame: tasks, futures and the RUN, SET_SUSPEND_VALUE and
  REMOVE_AWAITER events of the event bases, as a transition system over any number
  of event-base threads and other threads. A coroutine body is nondeterministic:
  every resume ends at a Future, at a fresh child task or at final suspend.
 */
module Coroutine {
  import opened Wrappers

  type FrameId = nat
  type BaseId = nat
  type HolderId = nat

  datatype Event =
    | Run(frame: FrameId)
    | SetSuspendValue(frame: FrameId)
    | RemoveAwaiter(frame: FrameId)

  /**
    Where the Task handle of a frame is: outside every frame, among the locals and
    parameters of a frame, in a destructor that is running, or nowhere any more.
   */
  datatype Owner = Outside | InFrame(frame: FrameId) | Dropping | Nobody

  /** What the frame's co_await waits for; a resolved future has no holder left. */
  datatype Awaiting = Nothing | OnFuture(holder: Option<HolderId>) | OnChild(child: FrameId)

  /**
    The promise (`base`, `parent`, `hasSuspendValue`, `hasAwaiter`, `forceDestroy`) and the
    facts about its frame that the source leaves to the language.
   */
  datatype Frame = Frame(
    base: Option<BaseId>,
    parent: Option<FrameId>,
    hasSuspendValue: bool,
    hasAwaiter: bool,
    forceDestroy: bool,
    owner: Owner,
    resumed: bool,
    returned: bool,
    awaiting: Awaiting,
    startedAt: nat,
    destroyed: nat)

  /** What an event-base thread is doing: between events, in a body, or leaving a body. */
  datatype Loop = Idle | Running(frame: FrameId) | Returning(frame: FrameId)

  /** `holders` maps each non-empty FutureValue to the frame whose future it will set. */
  datatype State = State(
    frames: map<FrameId, Frame>,
    queues: map<BaseId, seq<Event>>,
    loops: map<BaseId, Loop>,
    holders: map<HolderId, FrameId>,
    clock: nat)

  datatype Action =
    | Create(frame: FrameId, owner: Owner)
    | MoveTask(frame: FrameId, owner: Owner)
    | Start(frame: FrameId, base: BaseId)
    | Release(frame: FrameId)
    | ForceDestroy(frame: FrameId)
    | MoveHolder(holder: HolderId, target: HolderId)
    | Resolve(holder: HolderId)
    | Pop(base: BaseId)
    | AwaitFuture(base: BaseId, holder: HolderId)
    | AwaitChild(base: BaseId, child: FrameId)
    | Return(base: BaseId)
    | FinalSuspend(base: BaseId)

  const NEW_FRAME := Frame(None, None, false, true, false, Outside, false, false, Nothing, 0, 0)

  predicate Alive(s: State, f: FrameId) {
    f in s.frames && s.frames[f].destroyed == 0
  }

  /** The Task handle still points at the frame. */
  predicate HasHandle(s: State, f: FrameId) {
    f in s.frames && s.frames[f].owner != Nobody
  }

  /** A place a Task may be moved to. */
  predicate CanHold(s: State, owner: Owner) {
    owner.Outside? || (owner.InFrame? && Alive(s, owner.frame))
  }

  predicate Fresh(s: State, f: FrameId) {
    HasHandle(s, f) && s.frames[f].base.None?
  }

  function SetFrame(s: State, f: FrameId, x: Frame): State {
    s.(frames := s.frames[f := x])
  }

  function Enqueue(s: State, b: BaseId, e: Event): State
    requires b in s.queues
  {
    s.(queues := s.queues[b := s.queues[b] + [e]])
  }

  function SetLoop(s: State, b: BaseId, l: Loop): State {
    s.(loops := s.loops[b := l])
  }

  /** `handle.destroy()`: the frame dies, and with it the tasks among its locals start to be released. */
  function DestroyFrame(s: State, f: FrameId): State
    requires f in s.frames
  {
    s.(frames := map g | g in s.frames ::
      var x := s.frames[g];
      if g == f then x.(destroyed := x.destroyed + 1)
      else if x.owner == InFrame(f) then x.(owner := Dropping)
      else x)
  }

  /** `run_on`: bind the task to an event base and ask it to run. */
  function RunOn(s: State, f: FrameId, b: BaseId, parent: Option<FrameId>): State
    requires f in s.frames && b in s.queues
  {
    Enqueue(SetFrame(s, f, s.frames[f].(base := Some(b), parent := parent, startedAt := s.clock + 1)), b, Run(f))
      .(clock := s.clock + 1)
  }

  /** The test at the end of `check_handle`. */
  function CheckDestroy(s: State, f: FrameId, isForceDestroy: bool): State
    requires f in s.frames
  {
    var x := s.frames[f];
    if (isForceDestroy || !x.hasAwaiter) && !x.hasSuspendValue then DestroyFrame(s, f) else s
  }

  /** `check_handle` up to the point where the body runs, if it does. */
  function Handle(s: State, b: BaseId, e: Event): State
    requires e.frame in s.frames
  {
    var x := s.frames[e.frame];
    match e
    case Run(f) => SetLoop(SetFrame(s, f, x.(resumed := true)), b, Running(f))
    case SetSuspendValue(f) =>
      var s1 := SetFrame(s, f, x.(hasSuspendValue := false, awaiting := Nothing));
      if x.forceDestroy then CheckDestroy(s1, f, true) else SetLoop(s1, b, Running(f))
    case RemoveAwaiter(f) => CheckDestroy(SetFrame(s, f, x.(hasAwaiter := false)), f, false)
  }

  predicate RunsBody(s: State, b: BaseId) {
    b in s.loops && b in s.queues && s.loops[b].Running? && s.loops[b].frame in s.frames
  }

  predicate Enabled(s: State, a: Action) {
    match a
    case Create(f, owner) => f !in s.frames && CanHold(s, owner)
    case MoveTask(f, owner) => HasHandle(s, f) && !s.frames[f].owner.Dropping? && CanHold(s, owner)
    case Start(f, b) => Fresh(s, f) && b in s.queues
    case Release(f) => HasHandle(s, f) && (s.frames[f].base.Some? ==> s.frames[f].base.value in s.queues)
    case ForceDestroy(f) => HasHandle(s, f)
    case MoveHolder(h, h') =>
      h in s.holders && h' !in s.holders && s.holders[h] in s.frames
    case Resolve(h) =>
      h in s.holders && s.holders[h] in s.frames && s.frames[s.holders[h]].base.Some?
      && s.frames[s.holders[h]].base.value in s.queues
    case Pop(b) =>
      && b in s.loops && s.loops[b].Idle? && b in s.queues && s.queues[b] != []
      && s.queues[b][0].frame in s.frames
    case AwaitFuture(b, h) => RunsBody(s, b) && h !in s.holders
    case AwaitChild(b, c) => RunsBody(s, b) && Fresh(s, c) && c != s.loops[b].frame
    case Return(b) => RunsBody(s, b)
    case FinalSuspend(b) => b in s.loops && s.loops[b].Returning? && s.loops[b].frame in s.frames
  }

  function Apply(s: State, a: Action): State
    requires Enabled(s, a)
  {
    match a
    case Create(f, owner) => SetFrame(s, f, NEW_FRAME.(owner := owner))
    case MoveTask(f, owner) => SetFrame(s, f, s.frames[f].(owner := owner))
    case Start(f, b) => RunOn(s, f, b, None)
    case Release(f) =>
      var x := s.frames[f];
      if x.base.None? then DestroyFrame(SetFrame(s, f, x.(owner := Nobody)), f)
      else Enqueue(SetFrame(s, f, x.(owner := Nobody)), x.base.value, RemoveAwaiter(f))
    case ForceDestroy(f) =>
      var x := s.frames[f];
      if x.base.None? then s else SetFrame(s, f, x.(forceDestroy := true, owner := Nobody))
    case MoveHolder(h, h') =>
      var f := s.holders[h];
      SetFrame(s, f, s.frames[f].(awaiting := OnFuture(Some(h')))).(holders := (s.holders - {h})[h' := f])
    case Resolve(h) =>
      var f := s.holders[h];
      var x := s.frames[f];
      Enqueue(SetFrame(s, f, x.(awaiting := OnFuture(None))), x.base.value, SetSuspendValue(f))
        .(holders := s.holders - {h})
    case Pop(b) =>
      Handle(s.(queues := s.queues[b := s.queues[b][1..]]), b, s.queues[b][0])
    case AwaitFuture(b, h) =>
      var f := s.loops[b].frame;
      var s1 := SetFrame(s, f, s.frames[f].(hasSuspendValue := true, awaiting := OnFuture(Some(h))));
      SetLoop(CheckDestroy(s1.(holders := s.holders[h := f]), f, false), b, Idle)
    case AwaitChild(b, c) =>
      var f := s.loops[b].frame;
      var s1 := SetFrame(s, f, s.frames[f].(hasSuspendValue := true, awaiting := OnChild(c)));
      SetLoop(CheckDestroy(RunOn(s1, c, b, Some(f)), f, false), b, Idle)
    case Return(b) =>
      var f := s.loops[b].frame;
      var s1 := SetLoop(SetFrame(s, f, s.frames[f].(returned := true)), b, Returning(f));
      if s.frames[f].parent.Some? then Enqueue(s1, b, SetSuspendValue(s.frames[f].parent.value)) else s1
    case FinalSuspend(b) =>
      var f := s.loops[b].frame;
      SetLoop(CheckDestroy(s, f, false), b, Idle)
  }

  predicate Init(s: State) {
    && s.frames == map[] && s.holders == map[] && s.clock == 0
    && s.queues.Keys == s.loops.Keys
    && (forall b :: b in s.queues ==> s.queues[b] == [])
    && (forall b :: b in s.loops ==> s.loops[b] == Idle)
  }

  // ---------------------------------------------------------------- invariant

  /** The event waits in the queue of its frame's event base. */
  predicate Queued(s: State, e: Event) {
    && e.frame in s.frames
    && s.frames[e.frame].base.Some?
    && s.frames[e.frame].base.value in s.queues
    && e in s.queues[s.frames[e.frame].base.value]
  }

  function LoopOf(s: State, f: FrameId): Loop {
    if f in s.frames && s.frames[f].base.Some? && s.frames[f].base.value in s.loops
    then s.loops[s.frames[f].base.value] else Idle
  }

  /** What one frame's fields, queued events and thread may look like together. */
  predicate LocalOk(x: Frame, run: bool, ssv: bool, rem: bool, running: bool, returning: bool) {
    if x.destroyed > 0 then
      && x.destroyed == 1 && x.owner == Nobody
      && !x.hasSuspendValue && x.awaiting == Nothing
      && !run && !ssv && !rem && !running && !returning
      && (x.base.None? || x.returned || x.forceDestroy) && (x.forceDestroy ==> !x.returned)
    else if x.base.None? then
      && x.owner != Nobody && x == NEW_FRAME.(owner := x.owner)
      && !run && !ssv && !rem && !running && !returning
    else
      && x.startedAt > 0
      && (x.hasSuspendValue <==> x.awaiting != Nothing)
      && (run <==> !x.resumed)
      && (!x.resumed ==> !x.hasSuspendValue && !x.returned && x.hasAwaiter && !running && !returning)
      && (ssv ==> x.hasSuspendValue)
      && (running ==> !x.returned && !x.hasSuspendValue)
      && (returning ==> x.returned)
      && (x.returned ==> !x.hasSuspendValue)
      && (x.resumed && !running && !returning ==> x.hasSuspendValue || (x.returned && x.hasAwaiter))
      && (x.owner != Nobody ==> x.hasAwaiter && !rem && !x.forceDestroy)
      && (x.forceDestroy ==> x.hasAwaiter && !rem)
      && (x.owner == Nobody && !x.forceDestroy && x.hasAwaiter ==> rem)
      && (rem ==> x.hasAwaiter)
  }

  ghost predicate FrameOk(s: State, f: FrameId)
    requires f in s.frames
  {
    LocalOk(s.frames[f], Queued(s, Run(f)), Queued(s, SetSuspendValue(f)), Queued(s, RemoveAwaiter(f)),
            LoopOf(s, f) == Running(f), LoopOf(s, f) == Returning(f))
  }

  /** The links between a waiting frame, its holder or child, and between a task and its owner. */
  ghost predicate LinkOk(s: State, f: FrameId)
    requires f in s.frames
  {
    var x := s.frames[f];
    && x.startedAt <= s.clock
    && (if x.base.Some? then x.base.value in s.queues else x.parent.None?)
    && (x.awaiting.OnFuture? ==>
         if x.awaiting.holder.Some?
         then x.awaiting.holder.value in s.holders && s.holders[x.awaiting.holder.value] == f
              && !Queued(s, SetSuspendValue(f))
         else Queued(s, SetSuspendValue(f)))
    && (x.awaiting.OnChild? ==>
         var c := x.awaiting.child;
         && c in s.frames && s.frames[c].parent == Some(f)
         && x.startedAt < s.frames[c].startedAt
         && (Queued(s, SetSuspendValue(f)) <==> s.frames[c].returned))
    && (x.parent.Some? ==>
         var p := x.parent.value;
         && p in s.frames && s.frames[p].base == x.base
         && (!x.returned ==> s.frames[p].awaiting == OnChild(f)))
    && (x.owner.InFrame? ==> Alive(s, x.owner.frame))
  }

  ghost predicate HolderOk(s: State, h: HolderId)
    requires h in s.holders
  {
    s.holders[h] in s.frames && s.frames[s.holders[h]].awaiting == OnFuture(Some(h))
  }

  predicate Distinct(q: seq<Event>) {
    forall i, j :: 0 <= i < j < |q| ==> q[i] != q[j]
  }

  /** A frame's RUN stands before its REMOVE_AWAITER. */
  predicate RunFirst(q: seq<Event>) {
    forall i, j :: 0 <= i < j < |q| && q[j].Run? ==> q[i] != RemoveAwaiter(q[j].frame)
  }

  ghost predicate BaseOk(s: State, b: BaseId)
    requires b in s.queues && b in s.loops
  {
    && Distinct(s.queues[b]) && RunFirst(s.queues[b])
    && (forall e :: e in s.queues[b] ==> e.frame in s.frames && s.frames[e.frame].base == Some(b))
    && (!s.loops[b].Idle? ==> s.loops[b].frame in s.frames && s.frames[s.loops[b].frame].base == Some(b))
  }

  ghost predicate Inv(s: State) {
    && s.queues.Keys == s.loops.Keys
    && (forall b {:trigger BaseOk(s, b)} :: b in s.queues ==> BaseOk(s, b))
    && (forall f {:trigger FrameOk(s, f)} :: f in s.frames ==> FrameOk(s, f))
    && (forall f {:trigger LinkOk(s, f)} :: f in s.frames ==> LinkOk(s, f))
    && (forall h {:trigger HolderOk(s, h)} :: h in s.holders ==> HolderOk(s, h))
  }

  // ---------------------------------------------------------------- queues

  /** Both states have the same frames, each on the same event base. */
  ghost predicate SameBases(s: State, s': State) {
    && s'.frames.Keys == s.frames.Keys
    && (forall f :: f in s.frames ==> s'.frames[f].base == s.frames[f].base)
  }

  lemma QueuesKept(s: State, s': State)
    requires SameBases(s, s') && s'.queues == s.queues
    ensures forall e {:trigger Queued(s', e)} :: Queued(s', e) <==> Queued(s, e)
  {
  }

  lemma AfterEnqueue(s: State, s': State, b: BaseId, e: Event)
    requires SameBases(s, s') && b in s.queues && s'.queues == s.queues[b := s.queues[b] + [e]]
    requires e.frame in s.frames && s.frames[e.frame].base == Some(b)
    ensures forall e' {:trigger Queued(s', e')} :: Queued(s', e') <==> Queued(s, e') || e' == e
  {
  }

  lemma AfterPop(s: State, s': State, b: BaseId)
    requires SameBases(s, s') && b in s.queues && b in s.loops && s.queues[b] != [] && BaseOk(s, b)
    requires s'.queues == s.queues[b := s.queues[b][1..]]
    ensures forall e {:trigger Queued(s', e)} :: Queued(s', e) <==> Queued(s, e) && e != s.queues[b][0]
  {
    var q := s.queues[b];
    assert q == [q[0]] + q[1..];
    assert q[0] !in q[1..];
  }

  /** Appending an event that is not there yet, and is not a RUN behind a REMOVE_AWAITER. */
  lemma BaseAfterEnqueue(s: State, s': State, b: BaseId, e: Event)
    requires SameBases(s, s') && s'.loops == s.loops && s.queues.Keys == s.loops.Keys
    requires forall c {:trigger BaseOk(s, c)} :: c in s.queues ==> BaseOk(s, c)
    requires b in s.queues && s'.queues == s.queues[b := s.queues[b] + [e]]
    requires e.frame in s.frames && s.frames[e.frame].base == Some(b) && e !in s.queues[b] && !e.Run?
    ensures forall c {:trigger BaseOk(s', c)} :: c in s'.queues ==> BaseOk(s', c)
  {
    forall c | c in s'.queues
      ensures BaseOk(s', c)
    {
      assert BaseOk(s, c);
    }
  }

  // ---------------------------------------------------------------- every step keeps the invariant

  lemma CreateStep(s: State, f: FrameId, owner: Owner)
    requires Inv(s) && Enabled(s, Create(f, owner))
    ensures Inv(Apply(s, Create(f, owner)))
  {
    var s' := Apply(s, Create(f, owner));
    forall b | b in s'.queues ensures BaseOk(s', b) { assert BaseOk(s, b); }
    forall g | g in s'.frames
      ensures FrameOk(s', g) && LinkOk(s', g)
    {
      if g != f { assert FrameOk(s, g) && LinkOk(s, g); }
    }
    forall h | h in s'.holders ensures HolderOk(s', h) { assert HolderOk(s, h); }
  }

  /** A frame whose record, events and thread are what they were. */
  lemma FrameKept(s: State, s': State, g: FrameId)
    requires g in s.frames && g in s'.frames && FrameOk(s, g)
    requires s'.frames[g] == s.frames[g].(owner := s'.frames[g].owner)
    requires s'.frames[g].owner == Nobody <==> s.frames[g].owner == Nobody
    requires Queued(s', Run(g)) <==> Queued(s, Run(g))
    requires Queued(s', SetSuspendValue(g)) <==> Queued(s, SetSuspendValue(g))
    requires Queued(s', RemoveAwaiter(g)) <==> Queued(s, RemoveAwaiter(g))
    requires LoopOf(s', g) == Running(g) <==> LoopOf(s, g) == Running(g)
    requires LoopOf(s', g) == Returning(g) <==> LoopOf(s, g) == Returning(g)
    ensures FrameOk(s', g)
  {
  }

  /** The facts about other frames, holders and queues that one frame's links rest on did not change. */
  ghost predicate SameLinks(s: State, s': State, g: FrameId)
    requires g in s.frames && g in s'.frames
  {
    var x := s.frames[g];
    && s'.clock >= s.clock && s'.queues.Keys == s.queues.Keys
    && (s'.frames[g].owner.InFrame? ==> Alive(s', s'.frames[g].owner.frame))
    && (Queued(s', SetSuspendValue(g)) <==> Queued(s, SetSuspendValue(g)))
    && (x.awaiting.OnFuture? && x.awaiting.holder.Some? && x.awaiting.holder.value in s.holders ==>
         x.awaiting.holder.value in s'.holders
         && s'.holders[x.awaiting.holder.value] == s.holders[x.awaiting.holder.value])
    && (x.awaiting.OnChild? && x.awaiting.child in s.frames ==>
         var c := x.awaiting.child;
         && c in s'.frames && s'.frames[c].parent == s.frames[c].parent
         && s'.frames[c].startedAt == s.frames[c].startedAt && s'.frames[c].returned == s.frames[c].returned)
    && (x.parent.Some? && x.parent.value in s.frames ==>
         var p := x.parent.value;
         && p in s'.frames && s'.frames[p].base == s.frames[p].base
         && (x.returned || s'.frames[p].awaiting == s.frames[p].awaiting))
  }

  lemma LinkKept(s: State, s': State, g: FrameId)
    requires g in s.frames && g in s'.frames && LinkOk(s, g) && SameLinks(s, s', g)
    requires s'.frames[g] == s.frames[g].(owner := s'.frames[g].owner, hasAwaiter := s'.frames[g].hasAwaiter,
               forceDestroy := s'.frames[g].forceDestroy, destroyed := s'.frames[g].destroyed,
               resumed := s'.frames[g].resumed)
    ensures LinkOk(s', g)
  {
  }

  /** A step that changes only the owner and the force flag of one frame. */
  function Reowned(s: State, f: FrameId, owner: Owner, force: bool): State
    requires f in s.frames
  {
    SetFrame(s, f, s.frames[f].(owner := owner, forceDestroy := force))
  }

  lemma ReownedFrame(s: State, f: FrameId, owner: Owner, force: bool, g: FrameId)
    requires HasHandle(s, f) && g in s.frames && FrameOk(s, g)
    requires if force then s.frames[f].base.Some? && owner == Nobody else owner != Nobody
    ensures FrameOk(Reowned(s, f, owner, force), g)
  {
    var s' := Reowned(s, f, owner, force);
    QueuesKept(s, s');
    if g != f { FrameKept(s, s', g); }
  }

  lemma ReownedLink(s: State, f: FrameId, owner: Owner, force: bool, g: FrameId)
    requires HasHandle(s, f) && g in s.frames && LinkOk(s, g) && (owner.InFrame? ==> Alive(s, owner.frame))
    ensures LinkOk(Reowned(s, f, owner, force), g)
  {
    var s' := Reowned(s, f, owner, force);
    QueuesKept(s, s');
    LinkKept(s, s', g);
  }

  lemma OwnerStep(s: State, f: FrameId, owner: Owner, force: bool)
    requires Inv(s) && HasHandle(s, f)
    requires if force then s.frames[f].base.Some? && owner == Nobody else CanHold(s, owner)
    ensures Inv(Reowned(s, f, owner, force))
  {
    var s' := Reowned(s, f, owner, force);
    forall b | b in s'.queues ensures BaseOk(s', b) { assert BaseOk(s, b); }
    forall g {:trigger FrameOk(s', g)} | g in s.frames
      ensures FrameOk(s', g)
    {
      assert FrameOk(s, g);
      ReownedFrame(s, f, owner, force, g);
    }
    forall g {:trigger LinkOk(s', g)} | g in s.frames
      ensures LinkOk(s', g)
    {
      assert LinkOk(s, g);
      ReownedLink(s, f, owner, force, g);
    }
    forall h | h in s'.holders ensures HolderOk(s', h) { assert HolderOk(s, h); }
  }

  /** Nothing refers to the frame any more: no event, no thread, no unresolved await. */
  ghost predicate Unreferenced(s: State, f: FrameId) {
    && f in s.frames
    && s.frames[f].destroyed == 0 && s.frames[f].owner == Nobody
    && !s.frames[f].hasSuspendValue && s.frames[f].awaiting == Nothing
    && !Queued(s, Run(f)) && !Queued(s, SetSuspendValue(f)) && !Queued(s, RemoveAwaiter(f))
    && LoopOf(s, f) != Running(f) && LoopOf(s, f) != Returning(f)
    && (s.frames[f].base.None? || s.frames[f].returned || s.frames[f].forceDestroy)
    && (s.frames[f].forceDestroy ==> !s.frames[f].returned)
  }

  lemma DestroyedFrame(s: State, f: FrameId, g: FrameId)
    requires Unreferenced(s, f) && g in s.frames && (g != f ==> FrameOk(s, g))
    ensures FrameOk(DestroyFrame(s, f), g)
  {
    QueuesKept(s, DestroyFrame(s, f));
    if g != f { FrameKept(s, DestroyFrame(s, f), g); }
  }

  /** Destroying a frame touches its own count and the owners of the tasks among its locals, and nothing else. */
  ghost predicate OnlyDestroyed(s: State, s': State, f: FrameId) {
    && s' == s.(frames := s'.frames) && s'.frames.Keys == s.frames.Keys
    && (forall g {:trigger s'.frames[g]} :: g in s.frames ==>
         && s'.frames[g] == s.frames[g].(owner := s'.frames[g].owner, destroyed := s'.frames[g].destroyed)
         && (g != f ==> s'.frames[g].destroyed == s.frames[g].destroyed)
         && (s'.frames[g].owner.InFrame? ==> s'.frames[g].owner == s.frames[g].owner && (s.frames[g].owner.frame == f ==> g == f)))
  }

  lemma DestroyIs(s: State, f: FrameId)
    requires f in s.frames
    ensures OnlyDestroyed(s, DestroyFrame(s, f), f)
  {
  }

  lemma DestroyedLink(s: State, s': State, f: FrameId, g: FrameId)
    requires f in s.frames && s.frames[f].owner == Nobody && OnlyDestroyed(s, s', f)
    requires g in s.frames && LinkOk(s, g)
    ensures LinkOk(s', g)
  {
    QueuesKept(s, s');
    LinkKept(s, s', g);
  }

  lemma DestroyKeepsInv(s: State, s': State, f: FrameId)
    requires Unreferenced(s, f) && s' == DestroyFrame(s, f)
    requires s.queues.Keys == s.loops.Keys
    requires forall b {:trigger BaseOk(s, b)} :: b in s.queues ==> BaseOk(s, b)
    requires forall g {:trigger FrameOk(s, g)} :: g in s.frames && g != f ==> FrameOk(s, g)
    requires forall g {:trigger LinkOk(s, g)} :: g in s.frames ==> LinkOk(s, g)
    requires forall h {:trigger HolderOk(s, h)} :: h in s.holders ==> HolderOk(s, h)
    ensures Inv(s')
  {
    DestroyIs(s, f);
    forall b | b in s'.queues ensures BaseOk(s', b) { assert BaseOk(s, b); }
    forall g {:trigger FrameOk(s', g)} | g in s.frames { DestroyedFrame(s, f, g); }
    forall g {:trigger LinkOk(s', g)} | g in s.frames { DestroyedLink(s, s', f, g); }
    forall h | h in s'.holders ensures HolderOk(s', h) { assert HolderOk(s, h); }
  }

  lemma ReleaseStep(s: State, f: FrameId)
    requires Inv(s) && Enabled(s, Release(f))
    ensures Inv(Apply(s, Release(f)))
  {
    var s' := Apply(s, Release(f));
    assert FrameOk(s, f) && LinkOk(s, f);
    if s.frames[f].base.None? {
      ReleaseFresh(s, f);
    } else {
      assert Released(s, s', f);
      ReleaseStarted(s, s', f);
    }
  }

  lemma ReleaseFresh(s: State, f: FrameId)
    requires Inv(s) && HasHandle(s, f) && s.frames[f].base.None?
    ensures Inv(DestroyFrame(SetFrame(s, f, s.frames[f].(owner := Nobody)), f))
  {
    var s1 := SetFrame(s, f, s.frames[f].(owner := Nobody));
    assert FrameOk(s, f) && LinkOk(s, f);
    forall b | b in s1.queues ensures BaseOk(s1, b) { assert BaseOk(s, b); }
    forall g {:trigger FrameOk(s1, g)} | g in s.frames && g != f { ReleasedOther(s, f, g); }
    forall g {:trigger LinkOk(s1, g)} | g in s.frames { ReleasedOtherLink(s, f, g); }
    forall h | h in s1.holders ensures HolderOk(s1, h) { assert HolderOk(s, h); }
    QueuesKept(s, s1);
    DestroyKeepsInv(s1, DestroyFrame(s1, f), f);
  }

  lemma ReleaseStarted(s: State, s': State, f: FrameId)
    requires Inv(s) && HasHandle(s, f) && Released(s, s', f)
    ensures Inv(s')
  {
    assert FrameOk(s, f) && LinkOk(s, f);
    forall g {:trigger FrameOk(s', g)} | g in s.frames { ReleasedFrame(s, s', f, g); }
    forall g {:trigger LinkOk(s', g)} | g in s.frames { ReleasedLink(s, s', f, g); }
    BaseAfterEnqueue(s, s', s.frames[f].base.value, RemoveAwaiter(f));
    forall h | h in s'.holders ensures HolderOk(s', h) { assert HolderOk(s, h); }
  }

  lemma ReleasedOther(s: State, f: FrameId, g: FrameId)
    requires Inv(s) && HasHandle(s, f) && g in s.frames && g != f
    ensures FrameOk(SetFrame(s, f, s.frames[f].(owner := Nobody)), g)
  {
    var s1 := SetFrame(s, f, s.frames[f].(owner := Nobody));
    assert FrameOk(s, g);
    QueuesKept(s, s1);
    FrameKept(s, s1, g);
  }

  lemma ReleasedOtherLink(s: State, f: FrameId, g: FrameId)
    requires Inv(s) && HasHandle(s, f) && g in s.frames
    ensures LinkOk(SetFrame(s, f, s.frames[f].(owner := Nobody)), g)
  {
    var s1 := SetFrame(s, f, s.frames[f].(owner := Nobody));
    assert LinkOk(s, g);
    QueuesKept(s, s1);
    LinkKept(s, s1, g);
  }

  /** The release of a task that was started: its handle is null and its REMOVE_AWAITER waits. */
  ghost predicate Released(s: State, s': State, f: FrameId) {
    && f in s.frames && s.frames[f].base.Some? && s.frames[f].base.value in s.queues
    && var b := s.frames[f].base.value;
       s' == State(s.frames[f := s.frames[f].(owner := Nobody)], s.queues[b := s.queues[b] + [RemoveAwaiter(f)]],
                   s.loops, s.holders, s.clock)
  }

  lemma ReleasedFrame(s: State, s': State, f: FrameId, g: FrameId)
    requires Inv(s) && HasHandle(s, f) && Released(s, s', f) && g in s.frames
    ensures FrameOk(s', g)
  {
    assert FrameOk(s, g) && FrameOk(s, f);
    AfterEnqueue(s, s', s.frames[f].base.value, RemoveAwaiter(f));
    if g != f { FrameKept(s, s', g); }
  }

  lemma ReleasedLink(s: State, s': State, f: FrameId, g: FrameId)
    requires Inv(s) && Released(s, s', f) && g in s.frames
    ensures LinkOk(s', g)
  {
    assert LinkOk(s, g);
    AfterEnqueue(s, s', s.frames[f].base.value, RemoveAwaiter(f));
    LinkKept(s, s', g);
  }

  lemma MovedHolderFrame(s: State, h: HolderId, h': HolderId, g: FrameId)
    requires Inv(s) && Enabled(s, MoveHolder(h, h')) && g in s.frames
    ensures FrameOk(Apply(s, MoveHolder(h, h')), g)
  {
    var s' := Apply(s, MoveHolder(h, h'));
    assert FrameOk(s, g) && HolderOk(s, h);
    QueuesKept(s, s');
    if g != s.holders[h] { FrameKept(s, s', g); }
  }

  lemma MovedHolderLink(s: State, h: HolderId, h': HolderId, g: FrameId)
    requires Inv(s) && Enabled(s, MoveHolder(h, h')) && g in s.frames
    ensures LinkOk(Apply(s, MoveHolder(h, h')), g)
  {
    var s' := Apply(s, MoveHolder(h, h'));
    assert LinkOk(s, g) && HolderOk(s, h);
    QueuesKept(s, s');
    if g != s.holders[h] { LinkKept(s, s', g); }
  }

  lemma MoveHolderStep(s: State, h: HolderId, h': HolderId)
    requires Inv(s) && Enabled(s, MoveHolder(h, h'))
    ensures Inv(Apply(s, MoveHolder(h, h')))
  {
    var s' := Apply(s, MoveHolder(h, h'));
    assert HolderOk(s, h);
    forall b | b in s'.queues ensures BaseOk(s', b) { assert BaseOk(s, b); }
    forall g {:trigger FrameOk(s', g)} | g in s.frames { MovedHolderFrame(s, h, h', g); }
    forall g {:trigger LinkOk(s', g)} | g in s.frames { MovedHolderLink(s, h, h', g); }
    forall k | k in s'.holders
      ensures HolderOk(s', k)
    {
      if k != h' { assert HolderOk(s, k); }
    }
  }

  lemma ResolvedFrame(s: State, h: HolderId, g: FrameId)
    requires Inv(s) && Enabled(s, Resolve(h)) && g in s.frames
    ensures FrameOk(Apply(s, Resolve(h)), g)
  {
    var s' := Apply(s, Resolve(h));
    var f := s.holders[h];
    assert FrameOk(s, g) && HolderOk(s, h);
    AfterEnqueue(s, s', s.frames[f].base.value, SetSuspendValue(f));
    if g != f { FrameKept(s, s', g); }
  }

  lemma ResolvedLink(s: State, h: HolderId, g: FrameId)
    requires Inv(s) && Enabled(s, Resolve(h)) && g in s.frames
    ensures LinkOk(Apply(s, Resolve(h)), g)
  {
    var s' := Apply(s, Resolve(h));
    var f := s.holders[h];
    assert LinkOk(s, g) && HolderOk(s, h);
    AfterEnqueue(s, s', s.frames[f].base.value, SetSuspendValue(f));
    if g != f { LinkKept(s, s', g); }
  }

  lemma ResolveStep(s: State, h: HolderId)
    requires Inv(s) && Enabled(s, Resolve(h))
    ensures Inv(Apply(s, Resolve(h)))
  {
    var s' := Apply(s, Resolve(h));
    var f := s.holders[h];
    assert HolderOk(s, h) && FrameOk(s, f) && LinkOk(s, f);
    BaseAfterEnqueue(s, s', s.frames[f].base.value, SetSuspendValue(f));
    forall g {:trigger FrameOk(s', g)} | g in s.frames { ResolvedFrame(s, h, g); }
    forall g {:trigger LinkOk(s', g)} | g in s.frames { ResolvedLink(s, h, g); }
    forall k | k in s'.holders ensures HolderOk(s', k) { assert HolderOk(s, k); }
  }

  // Handling one event of frame f on base b: the event leaves the queue, f's record becomes y,
  // and the thread either stays idle or runs f's body.

  ghost predicate Handled(s: State, s': State, b: BaseId, y: Frame) {
    && b in s.queues && b in s.loops && s.queues[b] != [] && s.loops[b].Idle?
    && var f := s.queues[b][0].frame;
    && f in s.frames && y.base == s.frames[f].base && y.parent == s.frames[f].parent
    && y.owner == s.frames[f].owner && y.destroyed == s.frames[f].destroyed && y.startedAt == s.frames[f].startedAt && y.returned == s.frames[f].returned
    && s'.frames == s.frames[f := y]
    && s'.queues == s.queues[b := s.queues[b][1..]]
    && (s'.loops == s.loops || s'.loops == s.loops[b := Running(f)])
    && s'.holders == s.holders && s'.clock == s.clock
    && y.awaiting == if s.queues[b][0].SetSuspendValue? then Nothing else s.frames[f].awaiting
  }

  lemma HandledFrame(s: State, s': State, b: BaseId, y: Frame, g: FrameId)
    requires Inv(s) && Handled(s, s', b, y) && g in s.frames && g != s.queues[b][0].frame
    ensures FrameOk(s', g)
  {
    assert FrameOk(s, g) && BaseOk(s, b);
    AfterPop(s, s', b);
    FrameKept(s, s', g);
  }

  lemma HandledLink(s: State, s': State, b: BaseId, y: Frame, g: FrameId)
    requires Inv(s) && Handled(s, s', b, y) && g in s.frames
    ensures LinkOk(s', g)
  {
    var f := s.queues[b][0].frame;
    assert LinkOk(s, g) && LinkOk(s, f) && BaseOk(s, b);
    AfterPop(s, s', b);
    assert Queued(s, s.queues[b][0]) by { assert s.queues[b][0] in s.queues[b]; }
    if g != f { LinkKept(s, s', g); }
  }

  lemma HandledBase(s: State, s': State, b: BaseId, y: Frame, c: BaseId)
    requires Inv(s) && Handled(s, s', b, y) && c in s'.queues
    ensures BaseOk(s', c)
  {
    assert BaseOk(s, c) && BaseOk(s, b);
    assert c == b ==> forall i :: 0 <= i < |s'.queues[c]| ==> s'.queues[c][i] == s.queues[c][i + 1];
  }

  lemma HandledHolder(s: State, s': State, b: BaseId, y: Frame, h: HolderId)
    requires Inv(s) && Handled(s, s', b, y) && h in s.holders
    ensures HolderOk(s', h)
  {
    var f := s.queues[b][0].frame;
    assert HolderOk(s, h) && LinkOk(s, f) && BaseOk(s, b);
    assert Queued(s, s.queues[b][0]) by { assert s.queues[b][0] in s.queues[b]; }
  }

  /** Everything but f's own record is in order after the event has been taken. */
  lemma HandledRest(s: State, s': State, b: BaseId, y: Frame)
    requires Inv(s) && Handled(s, s', b, y)
    ensures s'.queues.Keys == s'.loops.Keys
    ensures forall c {:trigger BaseOk(s', c)} :: c in s'.queues ==> BaseOk(s', c)
    ensures forall g {:trigger FrameOk(s', g)} :: g in s'.frames && g != s.queues[b][0].frame ==> FrameOk(s', g)
    ensures forall g {:trigger LinkOk(s', g)} :: g in s'.frames ==> LinkOk(s', g)
    ensures forall h {:trigger HolderOk(s', h)} :: h in s'.holders ==> HolderOk(s', h)
  {
    forall c {:trigger BaseOk(s', c)} | c in s'.queues { HandledBase(s, s', b, y, c); }
    forall g {:trigger FrameOk(s', g)} | g in s.frames && g != s.queues[b][0].frame { HandledFrame(s, s', b, y, g); }
    forall g {:trigger LinkOk(s', g)} | g in s.frames { HandledLink(s, s', b, y, g); }
    forall h {:trigger HolderOk(s', h)} | h in s.holders { HandledHolder(s, s', b, y, h); }
  }

  /** The facts the invariant gives about the event that is about to be handled. */
  lemma HeadEvent(s: State, b: BaseId)
    requires Inv(s) && Enabled(s, Pop(b))
    ensures var e := s.queues[b][0];
      && s.frames[e.frame].destroyed == 0 && s.frames[e.frame].base == Some(b)
      && Queued(s, e) && FrameOk(s, e.frame) && LoopOf(s, e.frame) == Idle
      && (e.RemoveAwaiter? ==> !Queued(s, Run(e.frame)))
  {
    var q := s.queues[b];
    assert BaseOk(s, b) && q[0] in q;
    assert FrameOk(s, q[0].frame);
    assert q[0].RemoveAwaiter? ==> forall j :: 0 <= j < |q| ==> q[j] != Run(q[0].frame);
  }

  lemma PopRunStep(s: State, b: BaseId)
    requires Inv(s) && Enabled(s, Pop(b)) && s.queues[b][0].Run?
    ensures Inv(Apply(s, Pop(b)))
  {
    var s' := Apply(s, Pop(b));
    var f := s.queues[b][0].frame;
    HeadEvent(s, b);
    HandledRest(s, s', b, s.frames[f].(resumed := true));
    assert BaseOk(s, b);
    AfterPop(s, s', b);
    assert FrameOk(s', f);
  }

  lemma PopSuspendValueStep(s: State, b: BaseId)
    requires Inv(s) && Enabled(s, Pop(b)) && s.queues[b][0].SetSuspendValue?
    ensures Inv(Apply(s, Pop(b)))
  {
    var s' := Apply(s, Pop(b));
    var f := s.queues[b][0].frame;
    var y := s.frames[f].(hasSuspendValue := false, awaiting := Nothing);
    HeadEvent(s, b);
    assert BaseOk(s, b);
    if s.frames[f].forceDestroy {
      var s1 := s.(frames := s.frames[f := y], queues := s.queues[b := s.queues[b][1..]]);
      HandledRest(s, s1, b, y);
      AfterPop(s, s1, b);
      assert Unreferenced(s1, f);
      DestroyKeepsInv(s1, s', f);
    } else {
      HandledRest(s, s', b, y);
      AfterPop(s, s', b);
      assert FrameOk(s', f);
    }
  }

  lemma PopRemoveAwaiterStep(s: State, b: BaseId)
    requires Inv(s) && Enabled(s, Pop(b)) && s.queues[b][0].RemoveAwaiter?
    ensures Inv(Apply(s, Pop(b)))
  {
    var f := s.queues[b][0].frame;
    var y := s.frames[f].(hasAwaiter := false);
    var s1 := s.(frames := s.frames[f := y], queues := s.queues[b := s.queues[b][1..]]);
    HeadEvent(s, b);
    assert BaseOk(s, b);
    HandledRest(s, s1, b, y);
    AfterPop(s, s1, b);
    if s.frames[f].hasSuspendValue {
      assert FrameOk(s1, f);
    } else {
      assert Unreferenced(s1, f);
      DestroyKeepsInv(s1, Apply(s, Pop(b)), f);
    }
  }

  // The body of the frame that runs on base b comes to its next suspension point.

  lemma RunningFrame(s: State, b: BaseId)
    requires Inv(s) && b in s.loops && !s.loops[b].Idle?
    ensures var f := s.loops[b].frame;
      && f in s.frames && b in s.queues && s.frames[f].base == Some(b)
      && s.frames[f].destroyed == 0 && s.frames[f].resumed
      && !s.frames[f].hasSuspendValue && s.frames[f].awaiting == Nothing
      && !Queued(s, Run(f)) && !Queued(s, SetSuspendValue(f))
      && (s.loops[b].Running? <==> !s.frames[f].returned)
      && FrameOk(s, f) && LoopOf(s, f) == s.loops[b]
  {
    assert BaseOk(s, b);
    assert FrameOk(s, s.loops[b].frame);
  }

  lemma AwaitedFutureFrame(s: State, b: BaseId, h: HolderId, g: FrameId)
    requires Inv(s) && Enabled(s, AwaitFuture(b, h)) && g in s.frames
    ensures FrameOk(Apply(s, AwaitFuture(b, h)), g)
  {
    var s' := Apply(s, AwaitFuture(b, h));
    assert FrameOk(s, g);
    RunningFrame(s, b);
    QueuesKept(s, s');
    if g != s.loops[b].frame { FrameKept(s, s', g); }
  }

  lemma AwaitedFutureLink(s: State, b: BaseId, h: HolderId, g: FrameId)
    requires Inv(s) && Enabled(s, AwaitFuture(b, h)) && g in s.frames
    ensures LinkOk(Apply(s, AwaitFuture(b, h)), g)
  {
    var s' := Apply(s, AwaitFuture(b, h));
    assert LinkOk(s, g);
    RunningFrame(s, b);
    QueuesKept(s, s');
    if g != s.loops[b].frame { LinkKept(s, s', g); }
  }

  lemma AwaitFutureStep(s: State, b: BaseId, h: HolderId)
    requires Inv(s) && Enabled(s, AwaitFuture(b, h))
    ensures Inv(Apply(s, AwaitFuture(b, h)))
  {
    var s' := Apply(s, AwaitFuture(b, h));
    RunningFrame(s, b);
    forall c | c in s'.queues ensures BaseOk(s', c) { assert BaseOk(s, c); }
    forall g {:trigger FrameOk(s', g)} | g in s.frames { AwaitedFutureFrame(s, b, h, g); }
    forall g {:trigger LinkOk(s', g)} | g in s.frames { AwaitedFutureLink(s, b, h, g); }
    forall k | k in s'.holders
      ensures HolderOk(s', k)
    {
      if k != h { assert HolderOk(s, k); }
    }
  }

  /** The queues after a fresh frame got its event base and its RUN. */
  lemma AfterRunOn(s: State, s': State, f: FrameId, b: BaseId)
    requires f in s.frames && s.frames[f].base.None? && b in s.queues && b in s.loops && BaseOk(s, b)
    requires s'.frames.Keys == s.frames.Keys && s'.queues == s.queues[b := s.queues[b] + [Run(f)]]
    requires s'.frames[f].base == Some(b)
    requires forall g :: g in s.frames && g != f ==> s'.frames[g].base == s.frames[g].base
    ensures forall e {:trigger Queued(s', e)} :: Queued(s', e) <==> Queued(s, e) || e == Run(f)
  {
    assert forall e :: e in s.queues[b] ==> e.frame != f;
  }

  lemma BaseAfterRunOn(s: State, s': State, f: FrameId, b: BaseId, c: BaseId)
    requires f in s.frames && s.frames[f].base.None? && b in s.queues && c in s.queues && c in s.loops && BaseOk(s, c)
    requires s'.frames.Keys == s.frames.Keys && s'.queues == s.queues[b := s.queues[b] + [Run(f)]]
    requires s'.frames[f].base == Some(b) && c in s'.loops && (s'.loops[c] == s.loops[c] || s'.loops[c] == Idle)
    requires forall g :: g in s.frames && g != f ==> s'.frames[g].base == s.frames[g].base
    ensures BaseOk(s', c)
  {
  }

  lemma StartedFrame(s: State, f: FrameId, b: BaseId, g: FrameId)
    requires Inv(s) && Enabled(s, Start(f, b)) && g in s.frames
    ensures FrameOk(Apply(s, Start(f, b)), g)
  {
    var s' := Apply(s, Start(f, b));
    assert FrameOk(s, g) && FrameOk(s, f) && BaseOk(s, b);
    AfterRunOn(s, s', f, b);
    if g != f { FrameKept(s, s', g); }
  }

  lemma StartedLink(s: State, f: FrameId, b: BaseId, g: FrameId)
    requires Inv(s) && Enabled(s, Start(f, b)) && g in s.frames
    ensures LinkOk(Apply(s, Start(f, b)), g)
  {
    var s' := Apply(s, Start(f, b));
    assert LinkOk(s, g) && FrameOk(s, f) && BaseOk(s, b) && LinkOk(s, f);
    AfterRunOn(s, s', f, b);
    if g != f {
      FreshIsUnlinked(s, f, g);
      LinkKept(s, s', g);
    }
  }

  /** A fresh task is nobody's parent and nobody's awaited child. */
  lemma FreshIsUnlinked(s: State, f: FrameId, g: FrameId)
    requires Inv(s) && Fresh(s, f) && g in s.frames
    ensures s.frames[g].parent != Some(f)
    ensures s.frames[g].awaiting != OnChild(f)
    ensures s.frames[f] == NEW_FRAME.(owner := s.frames[f].owner)
  {
    assert FrameOk(s, f) && LinkOk(s, g) && FrameOk(s, g);
  }

  lemma StartStep(s: State, f: FrameId, b: BaseId)
    requires Inv(s) && Enabled(s, Start(f, b))
    ensures Inv(Apply(s, Start(f, b)))
  {
    var s' := Apply(s, Start(f, b));
    assert FrameOk(s, f);
    forall c | c in s'.queues ensures BaseOk(s', c) { assert BaseOk(s, c); BaseAfterRunOn(s, s', f, b, c); }
    forall g {:trigger FrameOk(s', g)} | g in s.frames { StartedFrame(s, f, b, g); }
    forall g {:trigger LinkOk(s', g)} | g in s.frames { StartedLink(s, f, b, g); }
    forall h | h in s'.holders ensures HolderOk(s', h) { assert HolderOk(s, h); }
  }

  /** A frame has suspended on its fresh child, whose RUN waits. */
  ghost predicate ChildAwaited(s: State, s': State, b: BaseId, c: FrameId) {
    && RunsBody(s, b) && Fresh(s, c) && c != s.loops[b].frame
    && var f := s.loops[b].frame;
       s' == State(s.frames[f := s.frames[f].(hasSuspendValue := true, awaiting := OnChild(c))]
                     [c := s.frames[c].(base := Some(b), parent := Some(f), startedAt := s.clock + 1)],
                   s.queues[b := s.queues[b] + [Run(c)]], s.loops[b := Idle], s.holders, s.clock + 1)
  }

  lemma AwaitChildIs(s: State, b: BaseId, c: FrameId)
    requires Enabled(s, AwaitChild(b, c))
    ensures ChildAwaited(s, Apply(s, AwaitChild(b, c)), b, c)
  {
  }

  lemma AwaitedChildFrame(s: State, s': State, b: BaseId, c: FrameId, g: FrameId)
    requires Inv(s) && ChildAwaited(s, s', b, c) && g in s.frames
    ensures FrameOk(s', g)
  {
    assert FrameOk(s, g) && FrameOk(s, c) && BaseOk(s, b);
    RunningFrame(s, b);
    AfterRunOn(s, s', c, b);
    if g != c && g != s.loops[b].frame { FrameKept(s, s', g); }
  }

  lemma AwaitedChildLink(s: State, s': State, b: BaseId, c: FrameId, g: FrameId)
    requires Inv(s) && ChildAwaited(s, s', b, c) && g in s.frames
    ensures LinkOk(s', g)
  {
    assert LinkOk(s, g) && FrameOk(s, c) && LinkOk(s, c) && BaseOk(s, b);
    RunningFrame(s, b);
    AfterRunOn(s, s', c, b);
    FreshIsUnlinked(s, c, g);
    if g != c && g != s.loops[b].frame { LinkKept(s, s', g); }
  }

  lemma AwaitChildStep(s: State, b: BaseId, c: FrameId)
    requires Inv(s) && Enabled(s, AwaitChild(b, c))
    ensures Inv(Apply(s, AwaitChild(b, c)))
  {
    var s' := Apply(s, AwaitChild(b, c));
    AwaitChildIs(s, b, c);
    RunningFrame(s, b);
    assert FrameOk(s, c);
    forall d | d in s'.queues ensures BaseOk(s', d) { assert BaseOk(s, d); BaseAfterRunOn(s, s', c, b, d); }
    forall g {:trigger FrameOk(s', g)} | g in s.frames { AwaitedChildFrame(s, s', b, c, g); }
    forall g {:trigger LinkOk(s', g)} | g in s.frames { AwaitedChildLink(s, s', b, c, g); }
    forall h | h in s'.holders ensures HolderOk(s', h) { assert HolderOk(s, h); }
  }

  /** The parent of a running child waits for it and has no SET_SUSPEND_VALUE queued. */
  lemma RunningChildsParent(s: State, b: BaseId)
    requires Inv(s) && b in s.loops && s.loops[b].Running? && s.loops[b].frame in s.frames
    requires s.frames[s.loops[b].frame].parent.Some?
    ensures var f := s.loops[b].frame; var p := s.frames[f].parent.value;
      && p in s.frames && p != f && s.frames[p].destroyed == 0 && s.frames[p].base == Some(b)
      && s.frames[p].awaiting == OnChild(f) && s.frames[p].hasSuspendValue && !Queued(s, SetSuspendValue(p))
      && LoopOf(s, p) != Running(p) && LoopOf(s, p) != Returning(p)
      && FrameOk(s, p) && LinkOk(s, p)
  {
    var f := s.loops[b].frame;
    RunningFrame(s, b);
    assert LinkOk(s, f);
    assert FrameOk(s, s.frames[f].parent.value) && LinkOk(s, s.frames[f].parent.value);
  }

  lemma ReturnedFrame(s: State, b: BaseId, g: FrameId)
    requires Inv(s) && Enabled(s, Return(b)) && g in s.frames
    ensures FrameOk(Apply(s, Return(b)), g)
  {
    var s' := Apply(s, Return(b));
    var f := s.loops[b].frame;
    assert FrameOk(s, g);
    RunningFrame(s, b);
    if s.frames[f].parent.Some? {
      ReturnedFrameToParent(s, b, g);
    } else {
      QueuesKept(s, s');
      if g != f { FrameKept(s, s', g); }
    }
  }

  lemma ReturnedFrameToParent(s: State, b: BaseId, g: FrameId)
    requires Inv(s) && Enabled(s, Return(b)) && g in s.frames && s.frames[s.loops[b].frame].parent.Some?
    ensures FrameOk(Apply(s, Return(b)), g)
  {
    var s' := Apply(s, Return(b));
    var f := s.loops[b].frame;
    var p := s.frames[f].parent.value;
    RunningFrame(s, b);
    RunningChildsParent(s, b);
    AfterEnqueue(s, s', b, SetSuspendValue(p));
    if g != f && g != p {
      assert FrameOk(s, g);
      FrameKept(s, s', g);
    }
  }

  lemma ReturnedLink(s: State, b: BaseId, g: FrameId)
    requires Inv(s) && Enabled(s, Return(b)) && g in s.frames
    ensures LinkOk(Apply(s, Return(b)), g)
  {
    var s' := Apply(s, Return(b));
    var f := s.loops[b].frame;
    assert LinkOk(s, g);
    RunningFrame(s, b);
    if s.frames[f].parent.Some? {
      ReturnedLinkToParent(s, b, g);
    } else {
      QueuesKept(s, s');
      if g != f { LinkKept(s, s', g); }
    }
  }

  lemma ReturnedLinkToParent(s: State, b: BaseId, g: FrameId)
    requires Inv(s) && Enabled(s, Return(b)) && g in s.frames && s.frames[s.loops[b].frame].parent.Some?
    ensures LinkOk(Apply(s, Return(b)), g)
  {
    var s' := Apply(s, Return(b));
    var f := s.loops[b].frame;
    var p := s.frames[f].parent.value;
    RunningFrame(s, b);
    RunningChildsParent(s, b);
    AfterEnqueue(s, s', b, SetSuspendValue(p));
    assert LinkOk(s, g);
    if g != f && g != p { LinkKept(s, s', g); }
  }

  lemma ReturnStep(s: State, b: BaseId)
    requires Inv(s) && Enabled(s, Return(b))
    ensures Inv(Apply(s, Return(b)))
  {
    var s' := Apply(s, Return(b));
    var f := s.loops[b].frame;
    RunningFrame(s, b);
    assert LinkOk(s, f);
    if s.frames[f].parent.Some? { RunningChildsParent(s, b); }
    forall c | c in s'.queues ensures BaseOk(s', c) { assert BaseOk(s, c); }
    forall g {:trigger FrameOk(s', g)} | g in s.frames { ReturnedFrame(s, b, g); }
    forall g {:trigger LinkOk(s', g)} | g in s.frames { ReturnedLink(s, b, g); }
    forall h | h in s'.holders ensures HolderOk(s', h) { assert HolderOk(s, h); }
  }

  lemma FinalSuspendFrame(s: State, b: BaseId, g: FrameId)
    requires Inv(s) && Enabled(s, FinalSuspend(b)) && g in s.frames
    requires g != s.loops[b].frame || s.frames[g].hasAwaiter
    ensures FrameOk(SetLoop(s, b, Idle), g)
  {
    var s' := SetLoop(s, b, Idle);
    assert FrameOk(s, g);
    RunningFrame(s, b);
    QueuesKept(s, s');
    if g != s.loops[b].frame { FrameKept(s, s', g); }
  }

  lemma FinalSuspendStep(s: State, b: BaseId)
    requires Inv(s) && Enabled(s, FinalSuspend(b))
    ensures Inv(Apply(s, FinalSuspend(b)))
  {
    var f := s.loops[b].frame;
    var s1 := SetLoop(s, b, Idle);
    RunningFrame(s, b);
    QueuesKept(s, s1);
    forall c | c in s1.queues ensures BaseOk(s1, c) { assert BaseOk(s, c); }
    forall g {:trigger FrameOk(s1, g)} | g in s.frames && (g != f || s.frames[g].hasAwaiter) { FinalSuspendFrame(s, b, g); }
    forall g {:trigger LinkOk(s1, g)} | g in s.frames ensures LinkOk(s1, g) { assert LinkOk(s, g); LinkKept(s, s1, g); }
    forall h | h in s1.holders ensures HolderOk(s1, h) { assert HolderOk(s, h); }
    if !s.frames[f].hasAwaiter {
      assert Unreferenced(s1, f);
      DestroyKeepsInv(s1, Apply(s, FinalSuspend(b)), f);
    }
  }

  lemma StepKeepsInv(s: State, a: Action)
    requires Inv(s) && Enabled(s, a)
    ensures Inv(Apply(s, a))
  {
    match a
    case Create(f, owner) => CreateStep(s, f, owner);
    case MoveTask(f, owner) =>
      assert FrameOk(s, f);
      OwnerStep(s, f, owner, false);
    case Start(f, b) => StartStep(s, f, b);
    case Release(f) => ReleaseStep(s, f);
    case ForceDestroy(f) =>
      if s.frames[f].base.Some? { OwnerStep(s, f, Nobody, true); }
    case MoveHolder(h, h') => MoveHolderStep(s, h, h');
    case Resolve(h) => ResolveStep(s, h);
    case Pop(b) =>
      match s.queues[b][0] {
        case Run(_) => PopRunStep(s, b);
        case SetSuspendValue(_) => PopSuspendValueStep(s, b);
        case RemoveAwaiter(_) => PopRemoveAwaiterStep(s, b);
      }
    case AwaitFuture(b, h) => AwaitFutureStep(s, b, h);
    case AwaitChild(b, c) => AwaitChildStep(s, b, c);
    case Return(b) => ReturnStep(s, b);
    case FinalSuspend(b) => FinalSuspendStep(s, b);
  }
}
