/** The partial-write queue of a non-blocking connection. */
module WriteQueues {
  datatype ConnectionState = ConnectingAndHandshaking | ReadingAndWriting | Unconnected

  /** What one transport call does: it takes as many bytes as it has room for, or fails. No room is EAGAIN. */
  datatype Transport = Room(count: nat) | Failure

  function Min(a: nat, b: nat): nat {
    if a < b then a else b
  }

  // ---------------------------------------------------------------- queues as values

  /** The bytes of the strings from the k-th on, in order. */
  function Flatten(queue: seq<string>, k: nat): string
    decreases |queue| - k
  {
    if k >= |queue| then [] else queue[k] + Flatten(queue, k + 1)
  }

  /** The same without the first `offset` bytes, which the transport has taken. */
  function Pending(queue: seq<string>, k: nat, offset: nat): string {
    if k >= |queue| || offset > |queue[k]| then [] else queue[k][offset..] + Flatten(queue, k + 1)
  }

  /** No string from the k-th on is empty, and the offset lies inside the k-th. */
  ghost predicate QueueOk(queue: seq<string>, k: nat, offset: nat) {
    && k <= |queue|
    && (forall i :: k <= i < |queue| ==> |queue[i]| > 0)
    && (if k == |queue| then offset == 0 else offset < |queue[k]|)
  }

  /** How draining ends: bytes sent, strings done with, bytes of the next one sent, and whether the transport held. */
  datatype Drained = Drained(count: nat, popped: nat, offset: nat, ok: bool)

  function AddCount(count: nat, d: Drained): Drained {
    d.(count := count + d.count)
  }

  /** Draining from the k-th string on; `calls[i]` is what the transport does when offered string i. */
  function Drain(queue: seq<string>, k: nat, offset: nat, calls: seq<Transport>): Drained
    requires |calls| >= |queue| && QueueOk(queue, k, offset)
    decreases |queue| - k
  {
    if k == |queue| then Drained(0, k, 0, true)
    else if calls[k].Failure? then Drained(0, k, offset, false)
    else
      var length := |queue[k]| - offset;
      var taken := Min(calls[k].count, length);
      if taken < length then Drained(taken, k, offset + taken, true)
      else AddCount(taken, Drain(queue, k + 1, 0, calls))
  }

  // ---------------------------------------------------------------- plain string facts

  lemma SplitConcat(s: string, offset: nat, taken: nat, rest: string)
    requires offset + taken <= |s|
    ensures s[offset..] + rest == s[offset..offset + taken] + (s[offset + taken..] + rest)
  {
  }

  lemma DropTwice(s: string, a: nat, b: nat)
    requires a + b <= |s|
    ensures s[a..][b..] == s[a + b..]
  {
  }

  lemma Rejoin(before: string, whole: string, n: nat)
    requires n <= |whole|
    ensures (before + whole[..n]) + whole[n..] == before + whole
  {
  }

  lemma PrefixGrows(whole: string, done: nat, next: string, rest: string)
    requires done <= |whole| && whole[done..] == next + rest
    ensures done + |next| <= |whole| && whole[..done] + next == whole[..done + |next|] && whole[done + |next|..] == rest
  {
    assert whole == whole[..done] + (next + rest);
  }

  // ---------------------------------------------------------------- draining

  /** The bytes the transport is offered come first in what is pending. */
  lemma PendingSplit(queue: seq<string>, k: nat, offset: nat, taken: nat)
    requires k < |queue| && offset + taken <= |queue[k]|
    ensures Pending(queue, k, offset) == queue[k][offset..offset + taken] + Pending(queue, k, offset + taken)
    ensures taken <= |Pending(queue, k, offset)| && Pending(queue, k, offset)[taken..] == Pending(queue, k, offset + taken)
  {
    SplitConcat(queue[k], offset, taken, Flatten(queue, k + 1));
  }

  lemma PendingRest(queue: seq<string>, k: nat)
    requires k < |queue|
    ensures Pending(queue, k, |queue[k]|) == Pending(queue, k + 1, 0)
  {
    assert queue[k][|queue[k]|..] + Flatten(queue, k + 1) == Flatten(queue, k + 1);
    assert k + 1 < |queue| ==> queue[k + 1][0..] == queue[k + 1];
  }

  /** Draining loses and reorders nothing: what it leaves is what was pending without the bytes sent. */
  lemma {:induction false} DrainConserves(queue: seq<string>, k: nat, offset: nat, calls: seq<Transport>)
    requires |calls| >= |queue| && QueueOk(queue, k, offset)
    ensures var d := Drain(queue, k, offset, calls);
      && d.count <= |Pending(queue, k, offset)|
      && Pending(queue, k, offset)[d.count..] == Pending(queue, d.popped, d.offset)
    decreases |queue| - k
  {
    if k < |queue| && calls[k].Room? {
      var taken := Min(calls[k].count, |queue[k]| - offset);
      PendingSplit(queue, k, offset, taken);
      if offset + taken == |queue[k]| {
        PendingRest(queue, k);
        DrainConserves(queue, k + 1, 0, calls);
        var later := Drain(queue, k + 1, 0, calls);
        DropTwice(Pending(queue, k, offset), taken, later.count);
        assert Drain(queue, k, offset, calls) == AddCount(taken, later);
        assert Pending(queue, k, offset)[taken..] == Pending(queue, k + 1, 0);
      }
    }
  }

  lemma {:induction false} DrainKeepsQueueOk(queue: seq<string>, k: nat, offset: nat, calls: seq<Transport>)
    requires |calls| >= |queue| && QueueOk(queue, k, offset)
    ensures var d := Drain(queue, k, offset, calls); QueueOk(queue, d.popped, d.offset)
    decreases |queue| - k
  {
    if k < |queue| && calls[k].Room? && calls[k].count >= |queue[k]| - offset {
      DrainKeepsQueueOk(queue, k + 1, 0, calls);
    }
  }

  /** The bytes of string j that the transport has not taken when draining comes to it. */
  function Offered(queue: seq<string>, k: nat, offset: nat, j: nat): int
    requires j < |queue|
  {
    if j == k then |queue[j]| - offset else |queue[j]|
  }

  /**
    Draining goes on exactly as long as the transport takes all it is offered: every string it is done with went out
    in full, and at the one it stops at the transport failed, or took less, and the offset moves by what it took.
   */
  lemma {:induction false} DrainStopsOnlyWhenFull(queue: seq<string>, k: nat, offset: nat, calls: seq<Transport>)
    requires |calls| >= |queue| && QueueOk(queue, k, offset)
    ensures var d := Drain(queue, k, offset, calls);
      && k <= d.popped <= |queue|
      && (forall j {:trigger calls[j]} :: k <= j < d.popped ==> calls[j].Room? && calls[j].count >= Offered(queue, k, offset, j))
      && (d.popped == |queue| ==> d.ok)
      && (d.popped < |queue| ==>
           && (d.ok <==> calls[d.popped].Room?)
           && (d.ok ==> calls[d.popped].count < Offered(queue, k, offset, d.popped))
           && Offered(queue, d.popped, d.offset, d.popped) ==
              Offered(queue, k, offset, d.popped) - if d.ok then calls[d.popped].count else 0)
    decreases |queue| - k
  {
    if k < |queue| && calls[k].Room? && calls[k].count >= |queue[k]| - offset {
      DrainStopsOnlyWhenFull(queue, k + 1, 0, calls);
    }
  }

  /** The draining loop after `done` bytes: `d` is what the whole draining comes to. */
  ghost predicate Draining(pending: string, done: nat, queue: seq<string>, k: nat, offset: nat, calls: seq<Transport>, d: Drained) {
    && QueueOk(queue, k, offset) && |calls| >= |queue|
    && done <= |pending| && Pending(queue, k, offset) == pending[done..]
    && d == AddCount(done, Drain(queue, k, offset, calls))
  }

  lemma DrainingStep(pending: string, done: nat, queue: seq<string>, k: nat, offset: nat, calls: seq<Transport>, d: Drained)
    requires Draining(pending, done, queue, k, offset, calls, d) && k < |queue|
    ensures calls[k].Failure? ==> d == Drained(done, k, offset, false)
    ensures calls[k].Room? ==>
      var n := Min(calls[k].count, |queue[k]| - offset);
      && done + n <= |pending|
      && pending[..done] + queue[k][offset..offset + n] == pending[..done + n]
      && (offset + n != |queue[k]| ==> d == Drained(done + n, k, offset + n, true))
      && (offset + n == |queue[k]| ==> Draining(pending, done + n, queue, k + 1, 0, calls, d))
  {
    if calls[k].Room? {
      DrainingPrefix(pending, done, queue, k, offset, Min(calls[k].count, |queue[k]| - offset));
      if calls[k].count >= |queue[k]| - offset {
        DrainingNext(pending, done, queue, k, offset, calls, d);
      }
    }
  }

  lemma DrainingNext(pending: string, done: nat, queue: seq<string>, k: nat, offset: nat, calls: seq<Transport>, d: Drained)
    requires Draining(pending, done, queue, k, offset, calls, d) && k < |queue|
    requires calls[k].Room? && calls[k].count >= |queue[k]| - offset
    ensures Draining(pending, done + |queue[k]| - offset, queue, k + 1, 0, calls, d)
  {
    DrainingPrefix(pending, done, queue, k, offset, |queue[k]| - offset);
    PendingRest(queue, k);
  }

  lemma DrainingPrefix(pending: string, done: nat, queue: seq<string>, k: nat, offset: nat, n: nat)
    requires k < |queue| && offset + n <= |queue[k]| && done <= |pending| && Pending(queue, k, offset) == pending[done..]
    ensures done + n <= |pending|
    ensures pending[..done] + queue[k][offset..offset + n] == pending[..done + n]
    ensures Pending(queue, k, offset + n) == pending[done + n..]
  {
    PendingSplit(queue, k, offset, n);
    PrefixGrows(pending, done, queue[k][offset..offset + n], Pending(queue, k, offset + n));
  }

  // ---------------------------------------------------------------- shortening and extending the queue

  lemma {:induction false} FlattenSuffix(queue: seq<string>, k: nat, j: nat)
    requires k + j <= |queue|
    ensures Flatten(queue[k..], j) == Flatten(queue, k + j)
    decreases |queue| - k - j
  {
    if k + j < |queue| {
      FlattenSuffix(queue, k, j + 1);
    }
  }

  lemma PendingSuffix(queue: seq<string>, k: nat, offset: nat)
    requires QueueOk(queue, k, offset)
    ensures QueueOk(queue[k..], 0, offset) && Pending(queue[k..], 0, offset) == Pending(queue, k, offset)
  {
    if k < |queue| { FlattenSuffix(queue, k, 1); }
  }

  lemma {:induction false} FlattenAppend(queue: seq<string>, k: nat, data: string)
    requires k <= |queue|
    ensures Flatten(queue + [data], k) == Flatten(queue, k) + data
    decreases |queue| - k
  {
    if k == |queue| {
      assert Flatten(queue + [data], k + 1) == [];
      assert [] + data == data + [];
    } else {
      FlattenAppend(queue, k + 1, data);
      assert queue[k] + (Flatten(queue, k + 1) + data) == (queue[k] + Flatten(queue, k + 1)) + data;
    }
  }

  lemma PendingAppend(queue: seq<string>, offset: nat, data: string)
    requires QueueOk(queue, 0, offset) && data != []
    ensures QueueOk(queue + [data], 0, offset)
    ensures Pending(queue + [data], 0, offset) == Pending(queue, 0, offset) + data
  {
    if queue == [] {
      assert Flatten(queue + [data], 1) == [];
      assert data[0..] + [] == [] + data;
    } else {
      FlattenAppend(queue, 1, data);
      assert queue[0][offset..] + (Flatten(queue, 1) + data) == (queue[0][offset..] + Flatten(queue, 1)) + data;
    }
  }

  // ---------------------------------------------------------------- the connection object

  class SystemIOObject {
    var currentState: ConnectionState
    var writeQueue: seq<string>
    var writeOffset: nat
    var writeEventEnabled: bool
    ghost var accepted: string
    ghost var sent: string

    /** Write interest is on exactly while bytes are pending. */
    ghost predicate Valid()
      reads this
    {
      && QueueOk(writeQueue, 0, writeOffset)
      && (writeEventEnabled <==> writeQueue != [])
    }

    /** What went out, followed by what waits. */
    ghost function Kept(): string
      reads this
    {
      sent + Pending(writeQueue, 0, writeOffset)
    }

    /** It is what was handed in. */
    ghost predicate Conserved()
      reads this
    {
      Kept() == accepted
    }

    constructor ()
      ensures Valid() && Conserved() && accepted == [] && currentState == Unconnected && writeQueue == []
    {
      currentState, writeQueue, writeOffset, writeEventEnabled := Unconnected, [], 0, false;
      accepted, sent := [], [];
    }

    /** The write goes straight to a transport that fails, and its bytes are gone. */
    ghost predicate Loses(data: string, transport: Transport)
      reads this
    {
      transport.Failure? && data != [] && writeQueue == [] && currentState == ReadingAndWriting
    }

    method Write(data: string, transport: Transport)
      requires Valid()
      modifies this
      ensures Valid() && currentState == old(currentState) && accepted == old(accepted) + data
      ensures Kept() == old(Kept()) + if old(Loses(data, transport)) then [] else data
      ensures old(Conserved()) ==> (Conserved() <==> !old(Loses(data, transport)))
      ensures sent == old(sent) +
        if old(writeQueue) == [] && currentState == ReadingAndWriting && transport.Room?
        then data[..Min(transport.count, |data|)] else []
      ensures |writeQueue| <= |old(writeQueue)| + 1
    {
      accepted := accepted + data;
      if data == [] {
        return;
      }
      if writeQueue != [] || currentState != ReadingAndWriting {
        QueueData(data);
        return;
      }
      if transport.Failure? {
        assert |old(accepted)| < |accepted|;
        return;
      }
      WriteDirect(data, transport.count);
    }

    /** Data waits its turn behind what is queued, or for the handshake. */
    method QueueData(data: string)
      requires Valid() && data != []
      modifies this`writeQueue, this`writeEventEnabled
      ensures Valid() && Kept() == old(Kept()) + data && |writeQueue| == |old(writeQueue)| + 1
    {
      PendingAppend(writeQueue, writeOffset, data);
      assert sent + (Pending(writeQueue, 0, writeOffset) + data) == Kept() + data;
      writeQueue := writeQueue + [data];
      EnableWriteEvent();
    }

    /** The first transport call for data that finds the queue empty. */
    method WriteDirect(data: string, room: nat)
      requires Valid() && data != [] && writeQueue == []
      modifies this`sent, this`writeQueue, this`writeOffset, this`writeEventEnabled
      ensures Valid() && Kept() == old(Kept()) + data && sent == old(sent) + data[..Min(room, |data|)]
      ensures |writeQueue| <= 1
    {
      var n := Min(room, |data|);
      Rejoin(sent, data, n);
      assert Kept() == sent;
      sent := sent + data[..n];
      if n == |data| {
        assert data[n..] == [];
        return;
      }
      // both a partial write and a would-block queue what is left
      PendingAppend(writeQueue, 0, data[n..]);
      assert Pending(writeQueue, 0, 0) + data[n..] == data[n..];
      writeQueue := writeQueue + [data[n..]];
      writeOffset := 0;
      EnableWriteEvent();
    }

    method CheckToWrite(calls: seq<Transport>) returns (result: int)
      requires Valid() && |calls| >= |writeQueue|
      modifies this
      ensures Valid() && currentState == old(currentState) && accepted == old(accepted)
      ensures var d := Drain(old(writeQueue), 0, old(writeOffset), calls);
        var pending := old(Pending(writeQueue, 0, writeOffset));
        && d.count <= |pending| && d.popped <= |old(writeQueue)|
        && sent == old(sent) + pending[..d.count]
        && writeQueue == old(writeQueue)[d.popped..] && writeOffset == d.offset
        && result == (if d.ok then 0 else -1)
      ensures Kept() == old(Kept()) && (old(Conserved()) ==> Conserved())
    {
      ghost var d := Drain(writeQueue, 0, writeOffset, calls);
      DrainConserves(writeQueue, 0, writeOffset, calls);
      DrainKeepsQueueOk(writeQueue, 0, writeOffset, calls);
      PendingSuffix(writeQueue, d.popped, d.offset);
      Rejoin(sent, Pending(writeQueue, 0, writeOffset), d.count);
      result := DrainQueue(calls);
      if writeQueue == [] {
        DisableWriteEvent();
      }
    }

    /** The loop of CheckToWrite. */
    method DrainQueue(calls: seq<Transport>) returns (result: int)
      requires QueueOk(writeQueue, 0, writeOffset) && |calls| >= |writeQueue|
      modifies this`writeQueue, this`writeOffset, this`sent
      ensures var d := Drain(old(writeQueue), 0, old(writeOffset), calls);
        var pending := old(Pending(writeQueue, 0, writeOffset));
        && d.count <= |pending| && d.popped <= |old(writeQueue)|
        && sent == old(sent) + pending[..d.count]
        && writeQueue == old(writeQueue)[d.popped..] && writeOffset == d.offset
        && result == (if d.ok then 0 else -1)
    {
      ghost var queue, pending, done: nat := writeQueue, Pending(writeQueue, 0, writeOffset), 0;
      ghost var d := Drain(writeQueue, 0, writeOffset, calls);
      var i := 0;
      while writeQueue != []
        invariant i <= |queue| && writeQueue == queue[i..]
        invariant Draining(pending, done, queue, i, writeOffset, calls, d)
        invariant sent == old(sent) + pending[..done]
        decreases |writeQueue|
      {
        var data := writeQueue[0];
        DrainingStep(pending, done, queue, i, writeOffset, calls, d);
        if calls[i].Failure? {
          return -1;
        }
        var n := Min(calls[i].count, |data| - writeOffset);
        sent := sent + data[writeOffset..writeOffset + n];
        done := done + n;
        writeOffset := writeOffset + n;
        assert sent == old(sent) + pending[..done];
        if writeOffset != |data| {
          return 0;
        }
        writeQueue := writeQueue[1..];
        writeOffset := 0;
        i := i + 1;
      }
      return 0;
    }

    method EnableWriteEvent()
      modifies this`writeEventEnabled
      ensures writeEventEnabled
    {
      if writeEventEnabled {
        return;
      }
      writeEventEnabled := true;
    }

    method DisableWriteEvent()
      modifies this`writeEventEnabled
      ensures !writeEventEnabled
    {
      if !writeEventEnabled {
        return;
      }
      writeEventEnabled := false;
    }
  }

  // ---------------------------------------------------------------- the life of a connection

  /** What happens to a connection: a write, a writable event with what the transport does then, or a change of state. */
  datatype Event =
    | Data(data: string, transport: Transport)
    | Writable(calls: seq<Transport>)
    | Become(state: ConnectionState)

  function Grown(kept: string, event: Event, gone: bool): string {
    if event.Data? && !gone then kept + event.data else kept
  }

  /** The data of the first writes, in order, without those that were lost. */
  function Surviving(events: seq<Event>, lost: seq<bool>): string
    requires |lost| <= |events|
  {
    if lost == [] then []
    else
      var n := |lost| - 1;
      Grown(Surviving(events, lost[..n]), events[n], lost[n])
  }

  lemma SurvivingNext(events: seq<Event>, lost: seq<bool>, gone: bool)
    requires |lost| < |events|
    ensures Surviving(events, lost + [gone]) == Grown(Surviving(events, lost), events[|lost|], gone)
  {
    assert (lost + [gone])[..|lost|] == lost;
  }

  predicate FailedWrite(event: Event) {
    event.Data? && event.transport.Failure?
  }

  method Happen(conn: SystemIOObject, event: Event) returns (gone: bool)
    requires conn.Valid() && (event.Writable? ==> |event.calls| >= |conn.writeQueue|)
    modifies conn
    ensures conn.Valid() && |conn.writeQueue| <= |old(conn.writeQueue)| + 1
    ensures gone <==> event.Data? && old(conn.Loses(event.data, event.transport))
    ensures gone ==> FailedWrite(event)
    ensures conn.Kept() == Grown(old(conn.Kept()), event, gone)
  {
    gone := false;
    match event {
      case Data(data, transport) =>
        gone := transport.Failure? && data != [] && conn.writeQueue == [] && conn.currentState == ReadingAndWriting;
        conn.Write(data, transport);
      case Writable(calls) =>
        var _ := conn.CheckToWrite(calls);
      case Become(state) =>
        conn.currentState := state;
    }
  }

  /**
    Over the whole life of a connection, what went out followed by what waits is the data of all writes in order,
    except of those that met a failing transport with nothing queued.
   */
  method Serve(events: seq<Event>) returns (conn: SystemIOObject, lost: seq<bool>)
    requires forall i :: 0 <= i < |events| && events[i].Writable? ==> |events[i].calls| >= i
    ensures conn.Valid() && |lost| == |events|
    ensures conn.Kept() == Surviving(events, lost)
    ensures forall i {:trigger lost[i]} :: 0 <= i < |lost| && lost[i] ==> FailedWrite(events[i])
  {
    conn := new SystemIOObject();
    lost := [];
    for i := 0 to |events|
      invariant fresh(conn) && conn.Valid() && |lost| == i && |conn.writeQueue| <= i
      invariant conn.Kept() == Surviving(events, lost)
      invariant forall k {:trigger lost[k]} :: 0 <= k < |lost| && lost[k] ==> FailedWrite(events[k])
    {
      var gone := Happen(conn, events[i]);
      SurvivingNext(events, lost, gone);
      lost := lost + [gone];
    }
  }
}
