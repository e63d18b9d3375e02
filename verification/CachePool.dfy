/** The single-threaded object pool: a ring of free objects and generation-counted ids. */
module CachePools {
  import opened Wrappers

  datatype Id = Id(index: nat, useTime: nat)

  datatype Result<T> = Ok(value: T) | NoAvailableItem | ReleaseOfInactive

  // ---------------------------------------------------------------- specification

  /** `free` lists the free objects in the order in which they will be handed out. */
  datatype Pool = Pool(active: seq<bool>, useTime: seq<nat>, free: seq<nat>)

  datatype Op = Acquire | Release(index: nat)

  function InitialPool(size: nat): Pool {
    Pool(seq(size, _ => false), seq(size, _ => 0), seq(size, i => i))
  }

  /** The free ring lists exactly the inactive objects, each once. */
  ghost predicate PoolOk(p: Pool) {
    && |p.active| == |p.useTime|
    && (forall i, j :: 0 <= i < j < |p.free| ==> p.free[i] != p.free[j])
    && (forall i :: 0 <= i < |p.free| ==> p.free[i] < |p.active| && !p.active[p.free[i]])
    && (forall x: nat :: x < |p.active| && !p.active[x] ==> x in p.free)
  }

  /** The free list holds indices of objects; nothing more is needed to run an operation. */
  ghost predicate InBounds(p: Pool) {
    |p.active| == |p.useTime| && forall i :: 0 <= i < |p.free| ==> p.free[i] < |p.active|
  }

  /** The operations of the pool; a refused one changes nothing. */
  ghost function Step(p: Pool, op: Op): Pool
    requires InBounds(p)
  {
    match op
    case Acquire =>
      if p.free == [] then p
      else
        var x := p.free[0];
        Pool(p.active[x := true], p.useTime[x := p.useTime[x] + 1], p.free[1..])
    case Release(x) =>
      if x >= |p.active| || !p.active[x] then p
      else Pool(p.active[x := false], p.useTime, p.free + [x])
  }

  predicate IsActive(p: Pool, id: Id)
    requires |p.active| == |p.useTime|
  {
    id.index < |p.active| && p.active[id.index] && p.useTime[id.index] == id.useTime
  }

  lemma AcquireKeepsPoolOk(p: Pool)
    requires PoolOk(p) && p.free != []
    ensures PoolOk(Step(p, Acquire))
  {
    var q := Step(p, Acquire);
    assert forall i :: 0 <= i < |q.free| ==> q.free[i] == p.free[i + 1];
    forall x: nat | x < |q.active| && !q.active[x]
      ensures x in q.free
    {
      var i :| 0 <= i < |p.free| && p.free[i] == x;
      assert q.free[i - 1] == x;
    }
  }

  lemma ReleaseKeepsPoolOk(p: Pool, x: nat)
    requires PoolOk(p) && x < |p.active| && p.active[x]
    ensures PoolOk(Step(p, Release(x)))
  {
    var q := Step(p, Release(x));
    assert forall i :: 0 <= i < |p.free| ==> q.free[i] == p.free[i];
    assert q.free[|p.free|] == x;
    forall y: nat | y < |q.active| && !q.active[y]
      ensures y in q.free
    {
      if y != x {
        var i :| 0 <= i < |p.free| && p.free[i] == y;
        assert q.free[i] == y;
      }
    }
  }

  lemma StepKeepsPoolOk(p: Pool, op: Op)
    requires PoolOk(p)
    ensures PoolOk(Step(p, op)) && |Step(p, op).active| == |p.active|
  {
    match op
    case Acquire => if p.free != [] { AcquireKeepsPoolOk(p); }
    case Release(x) => if x < |p.active| && p.active[x] { ReleaseKeepsPoolOk(p, x); }
  }

  ghost predicate IsStep(p: Pool, op: Op, p': Pool) {
    InBounds(p) && p' == Step(p, op)
  }

  ghost predicate IsRun(pools: seq<Pool>, ops: seq<Op>, size: nat) {
    && |pools| == |ops| + 1
    && pools[0] == InitialPool(size)
    && (forall i {:trigger ops[i]} :: 0 <= i < |ops| ==> IsStep(pools[i], ops[i], pools[i + 1]))
  }

  lemma InitialPoolOk(size: nat)
    ensures PoolOk(InitialPool(size))
  {
    var free := InitialPool(size).free;
    forall x: nat | x < size
      ensures x in free
    {
      assert free[x] == x;
    }
  }

  lemma {:induction false} RunKeepsPoolOk(pools: seq<Pool>, ops: seq<Op>, size: nat, i: nat)
    requires IsRun(pools, ops, size) && i < |pools|
    ensures PoolOk(pools[i]) && |pools[i].active| == size
  {
    if i == 0 {
      InitialPoolOk(size);
    } else {
      RunKeepsPoolOk(pools, ops, size, i - 1);
      assert IsStep(pools[i - 1], ops[i - 1], pools[i]);
      StepKeepsPoolOk(pools[i - 1], ops[i - 1]);
    }
  }

  /** The id handed out by the i-th operation, which is an acquire that succeeds. */
  ghost function AcquiredId(p: Pool): Id
    requires InBounds(p) && p.free != []
  {
    Id(p.free[0], p.useTime[p.free[0]] + 1)
  }

  lemma {:induction false} GenerationsGrow(pools: seq<Pool>, ops: seq<Op>, size: nat, i: nat, j: nat, x: nat)
    requires IsRun(pools, ops, size) && i <= j < |pools| && x < size
    ensures |pools[i].useTime| == |pools[j].useTime| == size && pools[i].useTime[x] <= pools[j].useTime[x]
    decreases j - i
  {
    RunKeepsPoolOk(pools, ops, size, i);
    if i < j {
      assert IsStep(pools[i], ops[i], pools[i + 1]);
      StepKeepsPoolOk(pools[i], ops[i]);
      GenerationsGrow(pools, ops, size, i + 1, j, x);
    }
  }

  /** The object with this index is not released by the operations from i up to j. */
  predicate NotReleased(ops: seq<Op>, i: nat, j: nat, index: nat)
    requires i <= j <= |ops|
  {
    forall k :: i <= k < j ==> ops[k] != Release(index)
  }

  lemma {:induction false} ActiveUntilReleased(pools: seq<Pool>, ops: seq<Op>, size: nat, i: nat, j: nat, id: Id)
    requires IsRun(pools, ops, size) && i <= j < |pools| && id.index < size
    requires |pools[i].active| == |pools[i].useTime| == size && IsActive(pools[i], id)
    ensures |pools[j].active| == |pools[j].useTime| == size
    ensures IsActive(pools[j], id) <==> NotReleased(ops, i, j, id.index)
    ensures !IsActive(pools[j], id) ==> !pools[j].active[id.index] || pools[j].useTime[id.index] > id.useTime
  {
    RunKeepsPoolOk(pools, ops, size, j);
    if i < j {
      ActiveUntilReleased(pools, ops, size, i, j - 1, id);
      RunKeepsPoolOk(pools, ops, size, j - 1);
      assert IsStep(pools[j - 1], ops[j - 1], pools[j]);
      var p, op := pools[j - 1], ops[j - 1];
      GenerationsGrow(pools, ops, size, i, j - 1, id.index);
      assert NotReleased(ops, i, j, id.index) <==> NotReleased(ops, i, j - 1, id.index) && op != Release(id.index);
    }
  }

  /**
    The id an acquire hands out is active exactly between that acquire and the next release of its object:
    never before, and never again afterwards.
   */
  lemma IdIsActiveOnlyInItsSpan(pools: seq<Pool>, ops: seq<Op>, size: nat, i: nat, j: nat)
    requires IsRun(pools, ops, size) && i < |ops| && j < |pools|
    requires ops[i].Acquire? && pools[i].free != []
    ensures InBounds(pools[i]) && |pools[j].active| == |pools[j].useTime|
    ensures IsActive(pools[j], AcquiredId(pools[i])) <==> j > i && NotReleased(ops, i + 1, j, AcquiredId(pools[i]).index)
  {
    var id := AcquiredId(pools[i]);
    RunKeepsPoolOk(pools, ops, size, i);
    RunKeepsPoolOk(pools, ops, size, j);
    assert IsStep(pools[i], ops[i], pools[i + 1]);
    RunKeepsPoolOk(pools, ops, size, i + 1);
    if j <= i {
      GenerationsGrow(pools, ops, size, j, i, id.index);
    } else {
      ActiveUntilReleased(pools, ops, size, i + 1, j, id);
    }
  }

  // ---------------------------------------------------------------- who is handed out, and in which generation

  /** When the object was last released before the i-th operation; at first they count as released in the order of their indices. */
  function FreedAt(pools: seq<Pool>, ops: seq<Op>, size: nat, i: nat, x: nat): (r: int)
    requires |pools| == |ops| + 1 && i <= |ops| && x < size
    ensures r < i
  {
    if i == 0 then x - size
    else if ops[i - 1] == Release(x) && x < |pools[i - 1].active| && pools[i - 1].active[x] then i - 1
    else FreedAt(pools, ops, size, i - 1, x)
  }

  /** The free objects stand in the order in which they were released. */
  ghost predicate InOrder(pools: seq<Pool>, ops: seq<Op>, size: nat, i: nat)
    requires |pools| == |ops| + 1 && i <= |ops|
  {
    var free := pools[i].free;
    && (forall a :: 0 <= a < |free| ==> free[a] < size)
    && (forall a, b :: 0 <= a < b < |free| ==> FreedAt(pools, ops, size, i, free[a]) < FreedAt(pools, ops, size, i, free[b]))
  }

  lemma AcquireInOrder(pools: seq<Pool>, ops: seq<Op>, size: nat, i: nat)
    requires IsRun(pools, ops, size) && i < |ops| && ops[i].Acquire? && InOrder(pools, ops, size, i)
    ensures InOrder(pools, ops, size, i + 1)
  {
    var p, p' := pools[i], pools[i + 1];
    assert IsStep(p, ops[i], p');
    forall x | 0 <= x < size
      ensures FreedAt(pools, ops, size, i + 1, x) == FreedAt(pools, ops, size, i, x)
    {
    }
    if p.free != [] {
      assert forall a :: 0 <= a < |p'.free| ==> p'.free[a] == p.free[a + 1];
    }
  }

  lemma ReleaseInOrder(pools: seq<Pool>, ops: seq<Op>, size: nat, i: nat, x: nat)
    requires IsRun(pools, ops, size) && i < |ops| && ops[i] == Release(x) && InOrder(pools, ops, size, i)
    requires PoolOk(pools[i]) && |pools[i].active| == size
    ensures InOrder(pools, ops, size, i + 1)
  {
    var p, p' := pools[i], pools[i + 1];
    assert IsStep(p, ops[i], p');
    forall y | 0 <= y < size && (y != x || !p.active[x])
      ensures FreedAt(pools, ops, size, i + 1, y) == FreedAt(pools, ops, size, i, y)
    {
    }
    if x < size && p.active[x] {
      assert forall a :: 0 <= a < |p.free| ==> p'.free[a] == p.free[a] && p.free[a] != x;
    }
  }

  lemma {:induction false} FreeInOrder(pools: seq<Pool>, ops: seq<Op>, size: nat, i: nat)
    requires IsRun(pools, ops, size) && i <= |ops|
    ensures InOrder(pools, ops, size, i)
  {
    if i > 0 {
      FreeInOrder(pools, ops, size, i - 1);
      RunKeepsPoolOk(pools, ops, size, i - 1);
      match ops[i - 1]
      case Acquire => AcquireInOrder(pools, ops, size, i - 1);
      case Release(x) => ReleaseInOrder(pools, ops, size, i - 1, x);
    }
  }

  /** The object is inactive and was released before every other inactive one. */
  ghost predicate IsOldest(pools: seq<Pool>, ops: seq<Op>, size: nat, i: nat, x: nat)
    requires |pools| == |ops| + 1 && i <= |ops| && |pools[i].active| == size
  {
    && x < size && !pools[i].active[x]
    && forall y :: 0 <= y < size && !pools[i].active[y] && y != x ==>
         FreedAt(pools, ops, size, i, x) < FreedAt(pools, ops, size, i, y)
  }

  /** An acquire activates the object that was released before all the other inactive ones, and is refused when all are active. */
  lemma OldestFirst(pools: seq<Pool>, ops: seq<Op>, size: nat, i: nat)
    requires IsRun(pools, ops, size) && i < |ops| && ops[i].Acquire?
    ensures |pools[i].active| == size
    ensures if forall x :: 0 <= x < size ==> pools[i].active[x] then pools[i + 1] == pools[i]
      else exists x: nat :: IsOldest(pools, ops, size, i, x) && pools[i + 1].active == pools[i].active[x := true]
  {
    RunKeepsPoolOk(pools, ops, size, i);
    FreeInOrder(pools, ops, size, i);
    var p := pools[i];
    assert IsStep(p, ops[i], pools[i + 1]);
    if p.free != [] {
      var x := p.free[0];
      forall y | 0 <= y < size && !p.active[y] && y != x
        ensures FreedAt(pools, ops, size, i, x) < FreedAt(pools, ops, size, i, y)
      {
        var b :| 0 <= b < |p.free| && p.free[b] == y;
        assert b > 0;
      }
      assert IsOldest(pools, ops, size, i, x) && pools[i + 1].active == p.active[x := true];
    }
  }

  /** How often the object has been handed out before the i-th operation. */
  function TimesHandedOut(pools: seq<Pool>, ops: seq<Op>, i: nat, x: nat): nat
    requires |pools| == |ops| + 1 && i <= |ops|
  {
    if i == 0 then 0
    else
      TimesHandedOut(pools, ops, i - 1, x)
      + if ops[i - 1].Acquire? && x < |pools[i - 1].active| == |pools[i].active| && !pools[i - 1].active[x] && pools[i].active[x]
        then 1 else 0
  }

  /** The generation of an object is the number of times it has been handed out. */
  lemma {:induction false} GenerationCounts(pools: seq<Pool>, ops: seq<Op>, size: nat, i: nat, x: nat)
    requires IsRun(pools, ops, size) && i <= |ops| && x < size
    ensures |pools[i].useTime| == size && pools[i].useTime[x] == TimesHandedOut(pools, ops, i, x)
  {
    RunKeepsPoolOk(pools, ops, size, i);
    if i > 0 {
      GenerationCounts(pools, ops, size, i - 1, x);
      RunKeepsPoolOk(pools, ops, size, i - 1);
      assert IsStep(pools[i - 1], ops[i - 1], pools[i]);
    }
  }

  // ---------------------------------------------------------------- the ring

  /** The position `k` places after `head` in a ring. */
  function RingIndex(head: nat, k: nat, size: nat): nat
    requires head <= size && k <= size
  {
    if head + k < size then head + k else head + k - size
  }

  /** The `count` entries of the ring that start at `head`. */
  function RingList(ring: seq<nat>, head: nat, count: nat): seq<nat>
    requires head <= |ring| && count <= |ring|
  {
    seq(count, k requires 0 <= k < count => ring[RingIndex(head, k, |ring|)])
  }

  function Wrap(position: nat, size: nat): nat {
    if position >= size then 0 else position
  }

  lemma RingPop(ring: seq<nat>, head: nat, count: nat)
    requires head < |ring| && 0 < count <= |ring|
    ensures RingList(ring, head, count)[0] == ring[head]
    ensures RingList(ring, Wrap(head + 1, |ring|), count - 1) == RingList(ring, head, count)[1..]
    ensures RingIndex(head, count, |ring|) == RingIndex(Wrap(head + 1, |ring|), count - 1, |ring|)
  {
  }

  lemma RingPush(ring: seq<nat>, head: nat, count: nat, x: nat)
    requires head < |ring| && count < |ring|
    ensures RingList(ring[RingIndex(head, count, |ring|) := x], head, count + 1) == RingList(ring, head, count) + [x]
    ensures RingIndex(head, count + 1, |ring|) == Wrap(RingIndex(head, count, |ring|) + 1, |ring|)
  {
  }

  // ---------------------------------------------------------------- the pool object

  class SingleThreadCachePool {
    const size: nat
    var active: seq<bool>
    var useTime: seq<nat>
    var freeObjects: seq<nat>
    var head: nat
    var tail: nat
    var freeCount: nat

    ghost predicate RingOk()
      reads this
    {
      && |active| == |useTime| == |freeObjects| == size
      && freeCount <= size
      && (size == 0 ==> head == 0 && tail == 0)
      && (size > 0 ==> head < size && tail == RingIndex(head, freeCount, size))
    }

    /** The free objects in ring order. */
    ghost function FreeList(): seq<nat>
      requires RingOk()
      reads this
    {
      RingList(freeObjects, head, freeCount)
    }

    ghost function State(): Pool
      requires RingOk()
      reads this
    {
      Pool(active, useTime, FreeList())
    }

    ghost predicate Valid()
      reads this
    {
      RingOk() && PoolOk(State())
    }

    constructor (size: nat)
      ensures Valid() && this.size == size && State() == InitialPool(size)
    {
      this.size := size;
      active := seq(size, _ => false);
      useTime := seq(size, _ => 0);
      freeObjects := seq(size, i => i);
      head, tail, freeCount := 0, 0, size;
      new;
      assert freeObjects[0..size] == InitialPool(size).free;
      InitialPoolOk(size);
      assert State() == InitialPool(size);
    }

    method Acquire() returns (item: Result<nat>)
      requires Valid()
      modifies this
      ensures Valid() && State() == Step(old(State()), Op.Acquire)
      ensures item == if old(State()).free == [] then NoAvailableItem else Ok(old(State()).free[0])
    {
      ghost var p := State();
      StepKeepsPoolOk(p, Op.Acquire);
      if freeCount == 0 {
        return NoAvailableItem;
      }
      RingPop(freeObjects, head, freeCount);
      var index := freeObjects[head];
      assert index == p.free[0];
      head := head + 1;
      if head >= size {
        head := 0;
      }
      freeCount := freeCount - 1;
      active := active[index := true];
      useTime := useTime[index := useTime[index] + 1];
      assert State() == Step(p, Op.Acquire);
      return Ok(index);
    }

    method Release(index: nat) returns (done: Result<()>)
      requires Valid() && index < size
      modifies this
      ensures Valid() && State() == Step(old(State()), Op.Release(index))
      ensures done == if old(active[index]) then Ok(()) else ReleaseOfInactive
    {
      StepKeepsPoolOk(State(), Op.Release(index));
      if !active[index] {
        return ReleaseOfInactive;
      }
      RingHasRoom(State(), index);
      RingPush(freeObjects, head, freeCount, index);
      active := active[index := false];
      freeObjects := freeObjects[tail := index];
      tail := tail + 1;
      if tail >= size {
        tail := 0;
      }
      freeCount := freeCount + 1;
      return Ok(());
    }

    method CheckActive(id: Id) returns (yes: bool)
      requires Valid()
      ensures yes <==> IsActive(State(), id)
    {
      if id.index >= size {
        return false;
      }
      return active[id.index] && useTime[id.index] == id.useTime;
    }
  }

  lemma RunGrows(pools: seq<Pool>, ops: seq<Op>, size: nat, op: Op)
    requires IsRun(pools, ops, size)
    ensures InBounds(pools[|ops|]) && IsRun(pools + [Step(pools[|ops|], op)], ops + [op], size)
  {
    RunKeepsPoolOk(pools, ops, size, |ops|);
    var longer, more := pools + [Step(pools[|ops|], op)], ops + [op];
    forall i {:trigger more[i]} | 0 <= i < |more|
      ensures IsStep(longer[i], more[i], longer[i + 1])
    {
      if i < |ops| { assert IsStep(pools[i], ops[i], pools[i + 1]); }
    }
  }

  /** No two acquires of a run hand out the same id. */
  lemma IdsDiffer(pools: seq<Pool>, ops: seq<Op>, size: nat, i: nat, j: nat)
    requires IsRun(pools, ops, size) && i < j < |ops|
    requires ops[i].Acquire? && pools[i].free != [] && ops[j].Acquire? && pools[j].free != []
    ensures InBounds(pools[i]) && InBounds(pools[j]) && AcquiredId(pools[i]) != AcquiredId(pools[j])
  {
    IdIsActiveOnlyInItsSpan(pools, ops, size, i, j);
    IdIsActiveOnlyInItsSpan(pools, ops, size, j, j);
    IdIsActiveOnlyInItsSpan(pools, ops, size, i, j + 1);
    IdIsActiveOnlyInItsSpan(pools, ops, size, j, j + 1);
  }

  /** What an operation of a run hands out: an id, unless it is a release or is refused. */
  ghost predicate Handed(p: Pool, op: Op, id: Option<Id>) {
    && InBounds(p) && (id.Some? <==> op.Acquire? && p.free != [])
    && (id.Some? ==> id.value == AcquiredId(p))
  }

  method Perform(pool: SingleThreadCachePool, op: Op) returns (id: Option<Id>)
    requires pool.Valid() && (op.Release? ==> op.index < pool.size)
    modifies pool
    ensures pool.Valid() && pool.State() == Step(old(pool.State()), op) && Handed(old(pool.State()), op, id)
  {
    match op {
      case Acquire =>
        var item := pool.Acquire();
        if item.Ok? {
          return Some(Id(item.value, pool.useTime[item.value]));
        }
        return None;
      case Release(index) =>
        var done := pool.Release(index);
        return None;
    }
  }

  /**
    A pool object taken through any operations: the ids it hands out all differ, and at the end each of them is
    active exactly when its object has not been released since.
   */
  method Replay(size: nat, ops: seq<Op>) returns (pool: SingleThreadCachePool, ids: seq<Option<Id>>)
    requires forall i :: 0 <= i < |ops| && ops[i].Release? ==> ops[i].index < size
    ensures pool.Valid() && |ids| == |ops|
    ensures forall i :: 0 <= i < |ops| && ids[i].Some? ==> ops[i].Acquire?
    ensures forall i, j :: 0 <= i < j < |ops| && ids[i].Some? && ids[j].Some? ==> ids[i] != ids[j]
    ensures forall i :: 0 <= i < |ops| && ids[i].Some? ==>
      (IsActive(pool.State(), ids[i].value) <==> NotReleased(ops, i + 1, |ops|, ids[i].value.index))
  {
    pool := new SingleThreadCachePool(size);
    ids := [];
    ghost var pools := [pool.State()];
    for i := 0 to |ops|
      invariant fresh(pool) && pool.Valid() && pool.size == size && |ids| == i
      invariant IsRun(pools, ops[..i], size) && pool.State() == pools[i]
      invariant forall k :: 0 <= k < i ==> Handed(pools[k], ops[k], ids[k])
    {
      RunGrows(pools, ops[..i], size, ops[i]);
      assert ops[..i + 1] == ops[..i] + [ops[i]];
      var id := Perform(pool, ops[i]);
      ids, pools := ids + [id], pools + [pool.State()];
    }
    assert ops[..|ops|] == ops;
    forall i, j | 0 <= i < j < |ops| && ids[i].Some? && ids[j].Some?
      ensures ids[i] != ids[j]
    {
      IdsDiffer(pools, ops, size, i, j);
    }
    forall i | 0 <= i < |ops| && ids[i].Some?
      ensures IsActive(pool.State(), ids[i].value) <==> NotReleased(ops, i + 1, |ops|, ids[i].value.index)
    {
      IdIsActiveOnlyInItsSpan(pools, ops, size, i, |ops|);
    }
  }

  /** While some object is active the free list is not full. */
  lemma RingHasRoom(p: Pool, index: nat)
    requires PoolOk(p) && index < |p.active| && p.active[index]
    ensures |p.free| < |p.active|
  {
    Pigeonhole(p.free + [index], |p.active|);
  }

  /** Distinct numbers below n are at most n many. */
  lemma {:induction false} Pigeonhole(s: seq<nat>, n: nat)
    requires forall i, j :: 0 <= i < j < |s| ==> s[i] != s[j]
    requires forall i :: 0 <= i < |s| ==> s[i] < n
    ensures |s| <= n
  {
    assert s == [] || s[0] < n;
    if n > 0 {
      if k :| 0 <= k < |s| && s[k] == n - 1 {
        Pigeonhole(s[..k] + s[k + 1..], n - 1);
      } else {
        Pigeonhole(s, n - 1);
      }
    }
  }
}
