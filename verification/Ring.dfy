/** Values shared by several components. */
module Common {
  datatype Option<+T> = None | Some(value: T)

  /** Number of values of a 64-bit `size_t`. */
  const WORD: nat := 0x1_0000_0000_0000_0000
}

/** The shared-memory pipe: a ring of slots guarded by two counting semaphores.
    `Ring` is the value of one pipe; `PipeIPC` is the object that updates it in place. */
module PipeRing {
  import opened Common

  /** `items[i] == None` is a slot holding the empty pointer that `reset()` leaves;
      `Some(x)` is a slot to which a sender assigned its pointer `x`. */
  datatype Ring<T> = Ring(
    capacity: nat, indexPush: nat, indexPop: nat, size: nat,
    nempty: nat, nstored: nat, items: seq<Option<T>>, shutdown: bool)

  /** How a sender waits for a free slot. `WaitTimed` is WAIT_IF_FULL with a timeout. */
  datatype Mode = WaitIfFull | WaitTimed | SoftFailIfFull

  /** `Blocked` stands for a call that has not returned yet. */
  datatype SendResult = Sent(hadError: bool) | SendBlocked
  datatype ReceiveResult<+T> = Received(ptr: Option<T>) | TimedOut | ReceiveBlocked

  ghost predicate Shape<T>(r: Ring<T>) {
    && 0 < r.capacity < WORD
    && |r.items| == r.capacity
    && r.indexPush < r.capacity
    && r.indexPop < r.capacity
    && r.size < WORD
  }

  function Fresh<T>(capacity: nat): Ring<T> {
    Ring(capacity, 0, 0, 0, capacity, 0, seq(capacity, _ => None), false)
  }

  // ---- The atomic steps ----

  /** The locked section of Send. */
  function Push<T>(r: Ring<T>, x: T): Ring<T>
    requires Shape(r)
  {
    r.(items := r.items[r.indexPush := Some(x)],
       indexPush := (r.indexPush + 1) % r.capacity,
       size := (r.size + 1) % WORD)
  }

  /** The locked section of Receive, without the pointer it hands out. */
  function Pop<T>(r: Ring<T>): Ring<T>
    requires Shape(r)
  {
    r.(items := r.items[r.indexPop := None],
       indexPop := (r.indexPop + 1) % r.capacity,
       size := (r.size + WORD - 1) % WORD)
  }

  function TakeEmpty<T>(r: Ring<T>): Ring<T> requires r.nempty > 0 { r.(nempty := r.nempty - 1) }
  function TakeStored<T>(r: Ring<T>): Ring<T> requires r.nstored > 0 { r.(nstored := r.nstored - 1) }
  function PostEmpty<T>(r: Ring<T>): Ring<T> { r.(nempty := r.nempty + 1) }
  function PostStored<T>(r: Ring<T>): Ring<T> { r.(nstored := r.nstored + 1) }

  /** `operator bool`. */
  predicate Usable<T>(r: Ring<T>) { !r.shutdown || r.size > 0 }

  // ---- Whole calls that run without interference ----

  function SendAlone<T>(r: Ring<T>, x: T, mode: Mode): (Ring<T>, SendResult)
    requires Shape(r)
  {
    if r.shutdown then (r, Sent(false))
    else if r.nempty == 0 then (r, if mode.WaitIfFull? then SendBlocked else Sent(true))
    else (PostStored(Push(TakeEmpty(r), x)), Sent(false))
  }

  function ReceiveAlone<T>(r: Ring<T>, timed: bool): (Ring<T>, ReceiveResult<T>)
    requires Shape(r)
  {
    if r.nstored == 0 then (r, if timed then TimedOut else ReceiveBlocked)
    else (PostEmpty(Pop(TakeStored(r))), Received(r.items[r.indexPop]))
  }

  function ShutdownAlone<T>(r: Ring<T>): Ring<T> {
    PostEmpty(PostStored(r.(shutdown := true)))
  }

  // ---- What the ring stands for ----

  /** How far slot `i` lies ahead of slot `from`, going round the ring. */
  function Distance(from: nat, i: nat, capacity: nat): (d: nat)
    requires from < capacity && i < capacity
    ensures d < capacity && Ahead(from, d, capacity) == i
  {
    if i >= from then i - from else i + capacity - from
  }

  /** The slot `d` places ahead of slot `from`. */
  function Ahead(from: nat, d: nat, capacity: nat): (i: nat)
    requires from < capacity && d <= capacity
    ensures i < capacity
  {
    if from + d < capacity then from + d else from + d - capacity
  }

  lemma AheadIsModulo(from: nat, d: nat, capacity: nat)
    requires from < capacity && d <= capacity
    ensures Ahead(from, d, capacity) == (from + d) % capacity
  {
    if from + d >= capacity {
      var over := from + d - capacity;
      assert (capacity + over) % capacity == over;
    }
  }

  /** The live window, from `indexPop` on, holds exactly the queue `q`; every other slot is reset. */
  ghost predicate Window<T>(r: Ring<T>, q: seq<T>)
    requires Shape(r)
  {
    && |q| <= r.capacity
    && r.indexPush == Ahead(r.indexPop, |q|, r.capacity)
    && forall i {:trigger r.items[i]} :: 0 <= i < r.capacity ==>
         r.items[i] == (var d := Distance(r.indexPop, i, r.capacity); if d < |q| then Some(q[d]) else None)
  }

  /** A quiescent, running pipe that stands for the bounded queue `q`. */
  ghost predicate Represents<T>(r: Ring<T>, q: seq<T>) {
    && Shape(r)
    && !r.shutdown
    && Window(r, q)
    && r.size == |q| == r.nstored
    && r.nempty == r.capacity - |q|
  }

  lemma AdvanceIsAhead(i: nat, capacity: nat)
    requires i < capacity
    ensures (i + 1) % capacity == Ahead(i, 1, capacity)
  {
    AheadIsModulo(i, 1, capacity);
  }

  lemma PushAppends<T>(r: Ring<T>, q: seq<T>, x: T)
    requires Shape(r) && Window(r, q) && |q| < r.capacity
    ensures Window(Push(r, x), q + [x])
    ensures r.items[r.indexPush] == None
  {
    AdvanceIsAhead(r.indexPush, r.capacity);
    var r' := Push(r, x);
    forall i | 0 <= i < r.capacity
      ensures var d := Distance(r'.indexPop, i, r.capacity);
              r'.items[i] == if d < |q| + 1 then Some((q + [x])[d]) else None
    {
      if i == r.indexPush {
        assert Distance(r.indexPop, i, r.capacity) == |q|;
      } else {
        assert r'.items[i] == r.items[i];
      }
    }
  }

  lemma PopRemovesHead<T>(r: Ring<T>, q: seq<T>)
    requires Shape(r) && Window(r, q) && |q| > 0
    ensures r.items[r.indexPop] == Some(q[0])
    ensures Window(Pop(r), q[1..])
  {
    AdvanceIsAhead(r.indexPop, r.capacity);
    var r' := Pop(r);
    forall i | 0 <= i < r.capacity
      ensures var d := Distance(r'.indexPop, i, r.capacity);
              r'.items[i] == if d < |q| - 1 then Some(q[1..][d]) else None
    {
      if i == r.indexPop {
      } else {
        assert r'.items[i] == r.items[i];
        assert Distance(r.indexPop, i, r.capacity) == Distance(r'.indexPop, i, r.capacity) + 1;
      }
    }
  }

  /** A fresh pipe is the empty queue. */
  lemma FreshIsEmpty<T>(capacity: nat)
    requires 0 < capacity < WORD
    ensures Represents(Fresh<T>(capacity), [])
  {
  }

  /** Uninterrupted Send is enqueue on the bounded queue, with its three ways to meet a full one. */
  lemma SendIsEnqueue<T>(r: Ring<T>, q: seq<T>, x: T, mode: Mode)
    requires Represents(r, q)
    ensures |q| < r.capacity ==>
              SendAlone(r, x, mode).1 == Sent(false) && Represents(SendAlone(r, x, mode).0, q + [x])
    ensures |q| == r.capacity ==>
              SendAlone(r, x, mode) == (r, if mode.WaitIfFull? then SendBlocked else Sent(true))
  {
    if |q| < r.capacity {
      PushAppends(TakeEmpty(r), q, x);
      var p := Push(TakeEmpty(r), x);
      assert Window(p, q + [x]);
      assert PostStored(p).items == p.items;
    }
  }

  /** Uninterrupted Receive is dequeue: it hands out the oldest element, or waits on an empty queue. */
  lemma ReceiveIsDequeue<T>(r: Ring<T>, q: seq<T>, timed: bool)
    requires Represents(r, q)
    ensures q != [] ==>
              ReceiveAlone(r, timed).1 == Received(Some(q[0])) && Represents(ReceiveAlone(r, timed).0, q[1..])
    ensures q == [] ==>
              ReceiveAlone(r, timed) == (r, if timed then TimedOut else ReceiveBlocked)
  {
    if q != [] {
      PopRemovesHead(TakeStored(r), q);
      var p := Pop(TakeStored(r));
      assert Window(p, q[1..]);
      assert PostEmpty(p).items == p.items;
    }
  }

  /** The pipe as the source has it: one object, updated in place. */
  class PipeIPC<T> {
    var indexPush: nat
    var indexPop: nat
    const capacity: nat
    var size: nat
    var nempty: nat
    var nstored: nat
    const items: array<Option<T>>
    var shutdown: bool

    ghost function View(): Ring<T>
      reads this, items
    {
      Ring(capacity, indexPush, indexPop, size, nempty, nstored, items[..], shutdown)
    }

    constructor (capacityIn: nat)
      requires 0 < capacityIn < WORD
      ensures View() == Fresh(capacityIn) && capacity == nempty == items.Length == capacityIn
      ensures fresh(items)
    {
      indexPush, indexPop, size, nempty, nstored, shutdown := 0, 0, 0, capacityIn, 0, false;
      capacity := capacityIn;
      items := new Option<T>[capacityIn];
      new;
      for i := 0 to capacity
        invariant indexPush == 0 && indexPop == 0 && size == 0 && nempty == capacity && nstored == 0 && !shutdown
        invariant forall k :: 0 <= k < i ==> items[k] == None
      {
        items[i] := None;
      }
      assert items[..] == seq(capacity, _ => None);
    }

    method Send(ptr: T, mode: Mode) returns (result: SendResult)
      requires Shape(View())
      modifies this, items
      ensures Shape(View())
      ensures (View(), result) == SendAlone(old(View()), ptr, mode)
      ensures result == SendBlocked <==> !old(shutdown) && old(nempty) == 0 && mode == WaitIfFull
      ensures result == Sent(true) <==> !old(shutdown) && old(nempty) == 0 && mode != WaitIfFull
      ensures old(shutdown) || old(nempty) == 0 ==> View() == old(View())
      ensures !old(shutdown) && old(nempty) > 0 ==>
                && items[old(indexPush)] == Some(ptr) && indexPush == (old(indexPush) + 1) % capacity
                && nempty == old(nempty) - 1 && nstored == old(nstored) + 1
    {
      if shutdown {
        return Sent(false);
      }
      if nempty == 0 {
        // try_wait fails, timed_wait times out, wait does not return
        return if mode == WaitIfFull then SendBlocked else Sent(true);
      }
      nempty := nempty - 1;
      var success := !shutdown;
      if success {
        items[indexPush] := Some(ptr);
        indexPush := (indexPush + 1) % capacity;
        size := (size + 1) % WORD;
        nstored := nstored + 1;
      }
      assert View() == PostStored(Push(TakeEmpty(old(View())), ptr)) by {
        assert View().items == old(View().items)[old(indexPush) := Some(ptr)];
      }
      return Sent(!success);
    }

    method Receive(timed: bool) returns (result: ReceiveResult<T>)
      requires Shape(View())
      modifies this, items
      ensures Shape(View())
      ensures (View(), result) == ReceiveAlone(old(View()), timed)
      ensures result == TimedOut <==> old(nstored) == 0 && timed
      ensures result == ReceiveBlocked <==> old(nstored) == 0 && !timed
      ensures old(nstored) == 0 ==> View() == old(View())
      ensures old(nstored) > 0 ==>
                && result == Received(old(items[indexPop])) && items[old(indexPop)] == None
                && nstored == old(nstored) - 1 && nempty == old(nempty) + 1
    {
      if nstored == 0 {
        return if timed then TimedOut else ReceiveBlocked;
      }
      nstored := nstored - 1;
      var ptr := items[indexPop];
      items[indexPop] := None;
      assert View().items == old(View().items)[old(indexPop) := None];
      indexPop := (indexPop + 1) % capacity;
      size := (size + WORD - 1) % WORD;
      nempty := nempty + 1;
      return Received(ptr);
    }

    method Shutdown()
      modifies this
      ensures View() == ShutdownAlone(old(View()))
      ensures shutdown && nstored == old(nstored) + 1 && nempty == old(nempty) + 1
    {
      shutdown := true;
      nstored := nstored + 1;
      nempty := nempty + 1;
    }
  }
}
