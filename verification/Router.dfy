/** The router: a list of weak pipe pointers that prunes itself while it broadcasts. */
module PipeRouter {
  import opened Common
  import opened PipeRing

  ghost predicate Distinct<T>(xs: seq<T>) {
    forall i, j {:trigger xs[i], xs[j]} :: 0 <= i < j < |xs| ==> xs[i] != xs[j]
  }

  /** What the loop does to a list entry whose pointer has expired: overwrite it with the last one, drop the last. */
  function SwapWithLast<T>(xs: seq<T>, i: nat): (ys: seq<T>)
    requires i < |xs|
    ensures |ys| == |xs| - 1
  {
    xs[i := xs[|xs| - 1]][..|xs| - 1]
  }

  lemma SwapWithLastRemoves<T>(xs: seq<T>, i: nat)
    requires i < |xs| && Distinct(xs)
    ensures var ys := SwapWithLast(xs, i);
            && Distinct(ys)
            && ys[..i] == xs[..i]
            && (forall p :: p in ys <==> p in xs && p != xs[i])
            && (forall p :: p in ys[i..] <==> p in xs[i..] && p != xs[i])
  {
    var ys := SwapWithLast(xs, i);
    var last := |xs| - 1;
    assert ys[..i] == xs[..i];
    forall p | p in xs[i..] && p != xs[i] ensures p in ys[i..] {
      var k :| 0 <= k < |xs[i..]| && xs[i..][k] == p;
      assert ys[i..][if i + k == last then 0 else k] == p;
    }
    forall p | p in ys[i..] ensures p in xs[i..] && p != xs[i] {
      var k :| 0 <= k < |ys[i..]| && ys[i..][k] == p;
      assert p == xs[if k == 0 then last else i + k];
      assert xs[i..][if k == 0 then last - i else k] == p;
    }
    assert xs == xs[..i] + xs[i..] && ys == ys[..i] + ys[i..];
    assert xs[i] !in xs[..i];
  }

  ghost function Members<T>(xs: seq<T>): set<T> {
    set p | p in xs
  }

  /** `tried` are the pipes whose weak pointer has been locked so far, in that order; `locks` says which of the attempts
      succeeded. */
  ghost function Locked<T>(tried: seq<T>, locks: nat -> bool): set<T> {
    set k | 0 <= k < |tried| && locks(k) :: tried[k]
  }

  /** The loop over what was `all` the list has tried the pipes `tried`, each once. Those it could lock fill
      `list[..i]`, the others are off the list, and the rest is still to be tried. */
  ghost predicate Visiting<T>(list: seq<T>, i: nat, all: set<T>, tried: seq<T>, locks: nat -> bool) {
    && i <= |list|
    && Distinct(list) && Distinct(tried)
    && Members(list[..i]) == Locked(tried, locks)
    && Members(list[i..]) !! Members(tried)
    && all == Members(list[i..]) + Members(tried)
  }

  lemma TryOne<T>(tried: seq<T>, locks: nat -> bool, p: T)
    requires Distinct(tried) && p !in tried
    ensures Distinct(tried + [p]) && Members(tried + [p]) == Members(tried) + {p}
    ensures Locked(tried + [p], locks) == Locked(tried, locks) + (if locks(|tried|) then {p} else {})
  {
    var more := tried + [p];
    assert more[|tried|] == p;
    forall q | q in Locked(tried, locks) ensures q in Locked(more, locks) {
      var k :| 0 <= k < |tried| && locks(k) && tried[k] == q;
      assert more[k] == q;
    }
  }

  lemma ListIsPart<T>(list: seq<T>, i: nat, all: set<T>, tried: seq<T>, locks: nat -> bool)
    requires Visiting(list, i, all, tried, locks)
    ensures Distinct(list) && Members(list) <= all
  {
    assert list == list[..i] + list[i..];
    assert Locked(tried, locks) <= Members(tried);
  }

  lemma NotTriedYet<T>(list: seq<T>, i: nat, all: set<T>, tried: seq<T>, locks: nat -> bool)
    requires Visiting(list, i, all, tried, locks) && i < |list|
    ensures list[i] in all && list[i] !in tried && list[i] !in Locked(tried, locks)
  {
    assert list[i..][0] == list[i];
    assert list[i] in Members(list[i..]);
  }

  lemma PruneStep<T>(list: seq<T>, i: nat, all: set<T>, tried: seq<T>, locks: nat -> bool)
    requires Visiting(list, i, all, tried, locks) && i < |list| && !locks(|tried|)
    ensures Visiting(SwapWithLast(list, i), i, all, tried + [list[i]], locks)
    ensures Locked(tried + [list[i]], locks) == Locked(tried, locks)
  {
    SwapWithLastRemoves(list, i);
    NotTriedYet(list, i, all, tried, locks);
    TryOne(tried, locks, list[i]);
    assert list[i] in Members(list[i..]) by { assert list[i..][0] == list[i]; }
  }

  lemma VisitStep<T>(list: seq<T>, i: nat, all: set<T>, tried: seq<T>, locks: nat -> bool)
    requires Visiting(list, i, all, tried, locks) && i < |list| && locks(|tried|)
    ensures Visiting(list, i + 1, all, tried + [list[i]], locks)
    ensures Locked(tried + [list[i]], locks) == Locked(tried, locks) + {list[i]}
  {
    assert list[..i + 1] == list[..i] + [list[i]];
    assert list[i..] == [list[i]] + list[i + 1..];
    assert list[i] !in list[i + 1..];
    NotTriedYet(list, i, all, tried, locks);
    TryOne(tried, locks, list[i]);
  }

  lemma VisitedAll<T>(list: seq<T>, all: set<T>, tried: seq<T>, locks: nat -> bool)
    requires Visiting(list, |list|, all, tried, locks)
    ensures Members(list) == Locked(tried, locks) && Members(tried) == all
  {
    assert list[..|list|] == list;
  }

  lemma LockNext<T>(list: seq<T>, locks: nat -> bool, i: nat)
    requires Distinct(list) && i < |list|
    ensures Locked(list[..i + 1], locks) == Locked(list[..i], locks) + (if locks(i) then {list[i]} else {})
    ensures list[i] !in Locked(list[..i], locks)
  {
    assert list[..i + 1] == list[..i] + [list[i]];
    TryOne(list[..i], locks, list[i]);
  }

  /** No two of these pipes share storage. */
  ghost predicate Separate<T>(all: set<PipeIPC<T>>)
    reads all, set p | p in all :: p.items
  {
    && (forall p, q {:trigger p.items, q.items} :: p in all && q in all && p != q ==> p.items != q.items)
    && forall p {:trigger p.View()} :: p in all ==> Shape(p.View())
  }

  lemma PartIsSeparate<T>(all: set<PipeIPC<T>>, part: set<PipeIPC<T>>)
    requires Separate(all) && part <= all
    ensures Separate(part)
  {
  }

  /** A pipe that is running and has no free slot. */
  predicate Full<T>(r: Ring<T>) { !r.shutdown && r.nempty == 0 }

  /** What a sender that does not have to wait makes of a pipe: a pipe that is shut down or full stays as it is, the
      others have `ptr` stored behind what they held. */
  ghost function Given<T>(r: Ring<T>, ptr: T): Ring<T>
    requires Shape(r)
  {
    if r.shutdown || r.nempty == 0 then r else PostStored(Push(TakeEmpty(r), ptr))
  }

  /** The state of each pipe after the loop has visited `done` out of `was`. */
  ghost predicate SentTo<T>(was: map<PipeIPC<T>, Ring<T>>, done: set<PipeIPC<T>>, ptr: T, mode: Mode)
    reads was.Keys, set p | p in was.Keys :: p.items
    requires forall p :: p in was ==> Shape(was[p])
  {
    forall p {:trigger p.View()} :: p in was ==>
      && p.View() == (if p in done then Given(was[p], ptr) else was[p])
      && (p in done && Full(was[p]) ==> mode != WaitIfFull)
  }

  ghost function Failed<T>(was: map<PipeIPC<T>, Ring<T>>, done: set<PipeIPC<T>>): set<PipeIPC<T>>
    requires done <= was.Keys
  {
    set p | p in done && Full(was[p])
  }

  lemma FailedGrows<T>(was: map<PipeIPC<T>, Ring<T>>, done: set<PipeIPC<T>>, pipe: PipeIPC<T>)
    requires done <= was.Keys && pipe in was && pipe !in done
    ensures |Failed(was, done + {pipe})| == |Failed(was, done)| + (if Full(was[pipe]) then 1 else 0)
  {
    var before, after := Failed(was, done), Failed(was, done + {pipe});
    assert pipe !in before;
    if Full(was[pipe]) {
      assert after == before + {pipe};
    } else {
      assert after == before;
    }
  }

  /** A pipe that stood for a queue with room now stands for that queue and the new element behind it. */
  lemma GivenIsEnqueued<T>(r: Ring<T>, q: seq<T>, ptr: T)
    requires Represents(r, q) && |q| < r.capacity
    ensures Represents(Given(r, ptr), q + [ptr])
  {
    SendIsEnqueue(r, q, ptr, SoftFailIfFull);
  }

  /** One pipe's turn: it takes its Send, and the other pipes are left alone. */
  method SendTo<T>(pipe: PipeIPC<T>, ptr: T, mode: Mode, ghost was: map<PipeIPC<T>, Ring<T>>,
                   ghost done: set<PipeIPC<T>>)
    returns (sent: SendResult)
    requires Separate(was.Keys) && pipe in was && pipe !in done
    requires forall p :: p in was ==> Shape(was[p])
    requires SentTo(was, done, ptr, mode)
    modifies pipe, pipe.items
    ensures Separate(was.Keys)
    ensures sent == SendBlocked <==> Full(was[pipe]) && mode == WaitIfFull
    ensures sent == Sent(true) <==> Full(was[pipe]) && mode != WaitIfFull
    ensures SentTo(was, if sent == SendBlocked then done else done + {pipe}, ptr, mode)
  {
    sent := pipe.Send(ptr, mode);
    forall p | p in was && p != pipe ensures p.View() == old(p.View()) {
    }
    ghost var done' := if sent == SendBlocked then done else done + {pipe};
    forall p | p in was
      ensures p.View() == (if p in done' then Given(was[p], ptr) else was[p])
      ensures p in done' && Full(was[p]) ==> mode != WaitIfFull
    {
      if p == pipe {
        assert old(pipe.View()) == was[pipe];
      } else {
        assert p.View() == old(p.View());
      }
    }
  }

  /** The same, and the errors so far are counted. */
  method SendAndCount<T>(pipe: PipeIPC<T>, ptr: T, mode: Mode, before: nat, ghost was: map<PipeIPC<T>, Ring<T>>,
                         ghost done: set<PipeIPC<T>>)
    returns (sent: SendResult, count: nat)
    requires Separate(was.Keys) && pipe in was && pipe !in done && done <= was.Keys
    requires forall p :: p in was ==> Shape(was[p])
    requires SentTo(was, done, ptr, mode) && before == |Failed(was, done)|
    modifies pipe, pipe.items
    ensures Separate(was.Keys)
    ensures sent == SendBlocked <==> Full(was[pipe]) && mode == WaitIfFull
    ensures sent == Sent(true) <==> Full(was[pipe]) && mode != WaitIfFull
    ensures SentTo(was, if sent == SendBlocked then done else done + {pipe}, ptr, mode)
    ensures sent.Sent? ==> count == |Failed(was, done + {pipe})|
  {
    sent := SendTo(pipe, ptr, mode, was, done);
    FailedGrows(was, done, pipe);
    count := if sent == Sent(true) then before + 1 else before;
  }

  /** The call has sent to the pipes it locked, but for the last one, `full`, and now waits for a slot of that. */
  ghost predicate StuckAt<T>(was: map<PipeIPC<T>, Ring<T>>, tried: seq<PipeIPC<T>>, locks: nat -> bool, ptr: T,
                             mode: Mode)
    reads was.Keys, set p | p in was.Keys :: p.items
    requires forall p :: p in was ==> Shape(was[p])
  {
    && tried != [] && Distinct(tried) && Members(tried) <= was.Keys
    && var before, full := tried[..|tried| - 1], tried[|tried| - 1];
       && locks(|tried| - 1) && Full(was[full]) && mode == WaitIfFull
       && SentTo(was, Locked(before, locks), ptr, mode)
  }

  /** Exactly the pipes in `done` have taken their Shutdown. */
  ghost predicate ShutDown<T>(was: map<PipeIPC<T>, Ring<T>>, done: set<PipeIPC<T>>)
    reads was.Keys, set p | p in was.Keys :: p.items
  {
    forall p {:trigger p.View()} :: p in was ==> p.View() == if p in done then ShutdownAlone(was[p]) else was[p]
  }

  method ShutdownOne<T>(pipe: PipeIPC<T>, ghost was: map<PipeIPC<T>, Ring<T>>, ghost done: set<PipeIPC<T>>)
    requires Separate(was.Keys) && pipe in was && pipe !in done && ShutDown(was, done)
    modifies pipe
    ensures Separate(was.Keys) && ShutDown(was, done + {pipe})
  {
    pipe.Shutdown();
    assert forall p {:trigger p.View()} :: p in was && p != pipe ==> p.View() == old(p.View());
  }

  class RouterIPC<T> {
    var pipes: seq<PipeIPC<T>>

    ghost function Listed(): set<PipeIPC<T>>
      reads this
    {
      Members(pipes)
    }

    /** No pipe is listed twice, and no two pipes share storage. */
    ghost predicate Valid()
      reads this, Listed(), set p | p in Listed() :: p.items
    {
      Distinct(pipes) && Separate(Listed())
    }

    constructor ()
      ensures Valid() && pipes == []
    {
      pipes := [];
    }

    /** `constructed` says whether the segment had room for the new pipe; if not, the caller gets a null pointer. */
    method RegisterAsReceiver(capacity: nat, constructed: bool) returns (pipe: PipeIPC?<T>)
      requires Valid() && 0 < capacity < WORD
      modifies this
      ensures Valid() && (pipe != null <==> constructed)
      ensures pipe == null ==> pipes == old(pipes)
      ensures pipe != null ==> fresh(pipe) && fresh(pipe.items) && pipes == old(pipes) + [pipe]
                               && pipe.capacity == capacity && Represents(pipe.View(), [])
    {
      if !constructed {
        return null;
      }
      pipe := new PipeIPC<T>(capacity);
      FreshIsEmpty<T>(capacity);
      pipes := pipes + [pipe];
      assert Listed() == old(Listed()) + {pipe};
    }

    /** The loop of Send stands at entry `i`, has tried `tried`, and counted `count` errors. */
    ghost predicate Going(was: map<PipeIPC<T>, Ring<T>>, tried: seq<PipeIPC<T>>, locks: nat -> bool, i: nat, count: nat,
                          ptr: T, mode: Mode)
      reads this, was.Keys, set p | p in was.Keys :: p.items
      requires forall p :: p in was ==> Shape(was[p])
    {
      && Visiting(pipes, i, was.Keys, tried, locks) && Locked(tried, locks) <= was.Keys
      && Separate(was.Keys) && SentTo(was, Locked(tried, locks), ptr, mode)
      && count == |Failed(was, Locked(tried, locks))|
    }

    /** One turn of that loop. */
    method Attempt(i: nat, ptr: T, mode: Mode, before: nat, alive: bool, ghost was: map<PipeIPC<T>, Ring<T>>,
                   ghost tried: seq<PipeIPC<T>>, ghost locks: nat -> bool)
      returns (next: nat, sent: SendResult, count: nat)
      requires forall p :: p in was ==> Shape(was[p])
      requires i < |pipes| && Going(was, tried, locks, i, before, ptr, mode) && alive == locks(|tried|)
      modifies this, was.Keys, set p | p in was.Keys :: p.items
      ensures next <= |pipes| && |pipes| - next < old(|pipes|) - i
      ensures sent.Sent? ==> Going(was, tried + [old(pipes[i])], locks, next, count, ptr, mode)
      ensures sent == SendBlocked ==> Valid() && StuckAt(was, tried + [old(pipes[i])], locks, ptr, mode)
    {
      var pipe := pipes[i];
      NotTriedYet(pipes, i, was.Keys, tried, locks);
      if !alive {
        PruneStep(pipes, i, was.Keys, tried, locks);
        pipes := SwapWithLast(pipes, i);
        return i, Sent(false), before;
      }
      VisitStep(pipes, i, was.Keys, tried, locks);
      ListIsPart(pipes, i, was.Keys, tried, locks);
      sent, count := SendAndCount(pipe, ptr, mode, before, was, Locked(tried, locks));
      next := i + 1;
      if sent == SendBlocked {
        assert (tried + [pipe])[..|tried|] == tried;
        PartIsSeparate(was.Keys, Listed());
      }
    }

    /** The k-th weak pointer that is locked is alive if `locks(k)`; pipes may die at any moment. `was` is what the
        listed pipes held before. The answer is `None` if the call is left waiting at a full pipe, holding the
        router's mutex. Otherwise every listed pipe has been tried exactly once, the list is a permutation of the
        pipes that could be locked, each of them was sent to exactly once, no other one was, and the answer is how
        many of them reported an error. */
    method Send(ptr: T, mode: Mode, locks: nat -> bool, ghost was: map<PipeIPC<T>, Ring<T>>)
      returns (errors: Option<nat>, ghost tried: seq<PipeIPC<T>>)
      requires Valid()
      requires was.Keys == Listed() && forall p :: p in was ==> was[p] == p.View()
      modifies this, was.Keys, set p | p in was.Keys :: p.items
      ensures Valid()
      ensures errors.Some? ==>
                && Distinct(tried) && Members(tried) == was.Keys
                && Listed() == Locked(tried, locks)
                && SentTo(was, Listed(), ptr, mode)
                && errors.value == |set p | p in Listed() && !was[p].shutdown && was[p].nempty == 0|
      ensures errors == None ==> StuckAt(was, tried, locks, ptr, mode)
    {
      var count, i, attempts := 0, 0, 0;
      tried := [];
      while i < |pipes|
        invariant 0 <= i <= |pipes| && attempts == |tried|
        invariant Going(was, tried, locks, i, count, ptr, mode)
        decreases |pipes| - i
      {
        ghost var pipe := pipes[i];
        var sent: SendResult;
        i, sent, count := Attempt(i, ptr, mode, count, locks(attempts), was, tried, locks);
        tried, attempts := tried + [pipe], attempts + 1;
        if sent == SendBlocked {
          return None, tried;
        }
      }
      VisitedAll(pipes, was.Keys, tried, locks);
      assert Failed(was, Listed()) == set p | p in Listed() && !was[p].shutdown && was[p].nempty == 0;
      return Some(count), tried;
    }

    /** Of the listed pipes, each tried once and in order, exactly those that could be locked are shut down. */
    method Shutdown(locks: nat -> bool, ghost was: map<PipeIPC<T>, Ring<T>>)
      requires Valid()
      requires was.Keys == Listed() && forall p :: p in was ==> was[p] == p.View()
      modifies was.Keys
      ensures Valid()
      ensures ShutDown(was, Locked(pipes, locks))
    {
      var i := 0;
      while i < |pipes|
        invariant 0 <= i <= |pipes|
        invariant Valid() && ShutDown(was, Locked(pipes[..i], locks))
      {
        LockNext(pipes, locks, i);
        assert pipes[i] in was;
        if locks(i) {
          ShutdownOne(pipes[i], was, Locked(pipes[..i], locks));
        }
        i := i + 1;
      }
      assert pipes[..i] == pipes;
    }

    /** How many of the listed pipes, each tried once and in order, could be locked. */
    method NumReceivers(locks: nat -> bool) returns (count: nat)
      requires Valid()
      ensures count == |Locked(pipes, locks)|
    {
      count := 0;
      var i := 0;
      while i < |pipes|
        invariant 0 <= i <= |pipes|
        invariant count == |Locked(pipes[..i], locks)|
      {
        LockNext(pipes, locks, i);
        if locks(i) {
          count := count + 1;
        }
        i := i + 1;
      }
      assert pipes[..i] == pipes;
    }
  }
}
