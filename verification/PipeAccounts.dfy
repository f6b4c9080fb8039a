/** Permits and counters across Shutdown: who can still be served, and what `operator bool` tells. */
module PipeAccounts {
  import opened Common
  import opened PipeRing
  import opened PipeProtocol
  import opened PipeCalls
  import opened PipeSafety
  import opened PipeShutdown

  // ---- Permits ----

  /** How many shutdowns have posted `nstored` in a run, and how many `nempty`. */
  function Wakes<T>(acts: seq<Action<T>>): nat {
    if acts == [] then 0 else Bit(acts[0].WakeReceiver?) + Wakes(acts[1..])
  }

  function SenderWakes<T>(acts: seq<Action<T>>): nat {
    if acts == [] then 0 else Bit(acts[0].WakeSender?) + SenderWakes(acts[1..])
  }

  /** How many senders have seen the flag with a permit in hand, and kept the permit. */
  ghost function Kept<T>(s: State<T>, acts: seq<Action<T>>, s': State<T>): nat
    requires Run(s, acts, s')
    decreases |acts|
  {
    if acts == [] then 0
    else Bit(acts[0].Check? && s.ring.shutdown) + Kept(Next(s, acts[0]), acts[1..], s')
  }

  lemma {:induction false} AccountsRun<T>(s: State<T>, acts: seq<Action<T>>, s': State<T>)
    requires Run(s, acts, s')
    ensures StoredSurplus(s') == StoredSurplus(s) + Wakes(acts)
    ensures FreeTotal(s') == FreeTotal(s) + SenderWakes(acts) - Kept(s, acts, s')
    decreases |acts|
  {
    if acts != [] {
      SurplusStep(s, acts[0]);
      AccountsRun(Next(s, acts[0]), acts[1..], s');
    }
  }

  lemma LiveIsDifference<T>(s: State<T>)
    requires Balanced(s)
    ensures |Live(s.ring.items)| == |s.pushed| - |s.received|
  {
    assert |multiset(s.pushed)| == |s.pushed| && |multiset(s.received)| == |s.received|;
  }

  /** Permit accounting in every reachable state, also across shutdowns: permits for elements are elements plus posts of
      shutdowns less empty receives; permits for slots are slots, plus posts and empty receives, less the permits that
      senders kept when they saw the flag. */
  lemma PermitsAcrossShutdown<T>(capacity: nat, n: nat, acts: seq<Action<T>>, s: State<T>)
    requires 0 < capacity < WORD && Run(Init(capacity, n), acts, s)
    ensures s.ring.nstored + Count(KStored, s.actors) + Count(KAwake, s.actors) + s.empties
            == |Live(s.ring.items)| + Wakes(acts)
    ensures s.ring.nempty + Count(KPermit, s.actors) + Count(KCleared, s.actors) + Count(KTaken, s.actors)
            + |Live(s.ring.items)| + Kept(Init(capacity, n), acts, s)
            == capacity + s.empties + SenderWakes(acts)
  {
    InitInv<T>(capacity, n);
    InvRun(Init(capacity, n), acts, s);
    AccountsRun(Init(capacity, n), acts, s);
    LiveIsDifference(s);
  }

  // ---- When every receive that comes back empty was woken by a shutdown ----

  ghost predicate NoneLeft<T>(items: seq<Option<T>>) {
    forall i {:trigger items[i]} :: 0 <= i < |items| ==> items[i] == None
  }

  lemma {:induction false} NoneLeftIsNoneLive<T>(items: seq<Option<T>>)
    requires NoneLeft(items)
    ensures Live(items) == multiset{}
  {
    if items != [] {
      NoneLeftIsNoneLive(items[1..]);
    }
  }

  /** A receive that finds its slot empty finds all slots empty. */
  ghost predicate NothingBehind<T>(s: State<T>)
    requires Shape(s.ring)
  {
    s.ring.capacity == 1 || (Count(KCleared, s.actors) == 0 && (InOrder(s) || NoneLeft(s.ring.items)))
  }

  lemma NothingBehindEmpty<T>(s: State<T>)
    requires Shape(s.ring) && NothingBehind(s) && s.ring.items[s.ring.indexPop] == None
    ensures NoneLeft(s.ring.items)
  {
    if s.ring.capacity > 1 && InOrder(s) {
      assert Distance(s.ring.indexPop, s.ring.indexPop, s.ring.capacity) == 0;
      assert Pending(s) == [];
    }
  }

  lemma NothingBehindStep<T>(s: State<T>, a: Action<T>)
    requires Shape(s.ring) && s.ring.shutdown && NothingBehind(s) && Enabled(s, a)
    ensures Shape(Next(s, a).ring) && Next(s, a).ring.shutdown && NothingBehind(Next(s, a))
  {
    NextKeepsShape(s, a);
    if s.ring.capacity > 1 {
      ClearedStep(s, a);
      if InOrder(s) {
        InOrderStep(s, a);
      }
    }
  }

  /** What the shutdowns have posted covers the empty receives so far. */
  lemma CoveredStep<T>(s: State<T>, a: Action<T>)
    requires Shape(s.ring) && Balanced(s) && NothingBehind(s) && Enabled(s, a) && s.empties <= StoredSurplus(s)
    ensures Next(s, a).empties <= StoredSurplus(Next(s, a))
  {
    SurplusStep(s, a);
    if a.Take? && s.ring.items[s.ring.indexPop] == None {
      NothingBehindEmpty(s);
      NoneLeftIsNoneLive(s.ring.items);
      LiveIsDifference(s);
      CountMove(KAwake, s.actors, a.t, Taken);
    }
  }

  lemma {:induction false} CoveredRun<T>(s: State<T>, acts: seq<Action<T>>, s': State<T>)
    requires Inv(s) && s.ring.shutdown && NothingBehind(s) && s.empties <= StoredSurplus(s) && Run(s, acts, s')
    ensures s'.empties <= StoredSurplus(s')
    decreases |acts|
  {
    if acts != [] {
      CoveredStep(s, acts[0]);
      NothingBehindStep(s, acts[0]);
      ShutdownStep(s, acts[0]);
      CoveredRun(Next(s, acts[0]), acts[1..], s');
    }
  }

  /** Senders past the flag check can leave elements for which there is no permit: receivers have passed their slots. */
  lemma Strand<T>(s: State<T>, r: nat, t: nat) returns (acts: seq<Action<T>>, s': State<T>)
    requires SteppedOver(s, r) && s.ring.capacity >= 2 && t < |s.actors| && s.actors[t].Cleared?
    ensures Run(s, acts, s') && s'.empties == 2 && StoredSurplus(s') == 1
  {
    var s1 := Next(s, Store(t));
    var s2 := Next(s1, Announce(t));
    SurplusStep(s, Store(t));
    SurplusStep(s1, Announce(t));
    assert s2.ring.items[s2.ring.indexPop] == None;
    acts, s' := ReceiveIsARun(s2, r, false);
    SurplusAfterReceive(s2, s');
    Then(s1, Announce(t), acts, s');
    Then(s, Store(t), [Announce(t)] + acts, s');
    acts := [Store(t)] + ([Announce(t)] + acts);
  }

  /** Drain the queue, wake a receiver for nothing, and let a cleared sender store behind its back. */
  lemma DrainAndStepOver<T>(s: State<T>, r: nat, z: nat) returns (acts: seq<Action<T>>, s': State<T>)
    requires Draining(s, z) && r < |s.actors| && s.actors[r].Idle?
    ensures Run(s, acts, s') && SteppedOver(s', r) && KeepsCleared(s, s')
  {
    var a1, s1 := Drain(s, r, z);
    var a2: seq<Action<T>>;
    a2, s' := StepOver(s1, r, z);
    RunConcat(s, a1, s1, a2, s');
    acts := a1 + a2;
  }

  /** In every continuation of `s` empty receives do not outnumber the shutdowns' posts: each element stored has a
      permit with which a receiver can fetch it. */
  ghost predicate AlwaysCovered<T(!new)>(s: State<T>) {
    forall later, s' :: Run(s, later, s') ==> s'.empties <= Wakes(later)
  }

  /** That holds after a Shutdown exactly if no sender was past the flag check, or the pipe has only one slot; `r` is
      any actor that is free to receive. */
  lemma AlwaysCoveredExactly<T(!new)>(capacity: nat, n: nat, acts: seq<Action<T>>, s: State<T>, z: nat, r: nat)
    requires 0 < capacity < WORD && Run(Init(capacity, n), acts, s) && !s.ring.shutdown
    requires Enabled(s, SetFlag(z)) && r < |s.actors| && r != z && s.actors[r].Idle? && Shape(s.ring)
    ensures AlwaysCovered(Next(s, SetFlag(z))) <==> capacity == 1 || Count(KCleared, s.actors) == 0
  {
    var s0 := Next(s, SetFlag(z));
    FlagIsDraining(capacity, n, acts, s, z);
    if capacity == 1 || Count(KCleared, s.actors) == 0 {
      forall later, s' | Run(s0, later, s') ensures s'.empties <= Wakes(later) {
        CoveredRun(s0, later, s');
        AccountsRun(s0, later, s');
      }
    } else {
      var t := SomeActor(KCleared, s0.actors);
      var a1, s1 := DrainAndStepOver(s0, r, z);
      var a2, s2 := Strand(s1, r, t);
      RunConcat(s0, a1, s1, a2, s2);
      AccountsRun(s0, a1 + a2, s2);
      assert !AlwaysCovered(s0);
    }
  }

  // ---- What operator bool says ----

  lemma {:induction false} LiveAtMost<T>(items: seq<Option<T>>)
    ensures |Live(items)| <= |items|
  {
    if items != [] {
      LiveAtMost(items[1..]);
    }
  }

  lemma VanishesExactly(queued: nat, empties: nat)
    requires queued < WORD
    ensures (queued - empties) % WORD == 0 <==> queued == empties % WORD
  {
    var k, e := empties / WORD, empties % WORD;
    assert queued - empties == (queued - e) + -k * WORD;
    AddWords(queued - e, -k);
  }

  lemma {:induction false} AddWords(x: int, k: int)
    ensures (x + k * WORD) % WORD == x % WORD
    decreases if k < 0 then -k else k
  {
    if k > 0 {
      AddWords(x, k - 1);
    } else if k < 0 {
      AddWords(x, k + 1);
    }
  }

  /** The documented meaning of `operator bool` is "not shut down, or elements are queued". It holds in exactly the
      states where, counting modulo the word, no receive has come back empty, or where elements are queued and
      their number is not that of the empty receives: each empty receive takes one from the counter, which wraps
      below zero. */
  lemma UsableExactly<T>(capacity: nat, n: nat, acts: seq<Action<T>>, s: State<T>)
    requires 0 < capacity < WORD && Run(Init(capacity, n), acts, s)
    ensures Shape(s.ring)
    ensures var queued, empties := |Live(s.ring.items)|, s.empties % WORD;
            (Usable(s.ring) <==> !s.ring.shutdown || queued > 0)
            <==> !s.ring.shutdown || empties == 0 || (queued > 0 && queued != empties)
  {
    assert Inv(s) by {
      InitInv<T>(capacity, n);
      InvRun(Init(capacity, n), acts, s);
    }
    SizeIsBalance(s);
    LiveAtMost(s.ring.items);
    VanishesExactly(|Live(s.ring.items)|, s.empties);
  }

  /** The counter is what is queued less the empty receives, modulo the word. */
  lemma SizeIsBalance<T>(s: State<T>)
    requires Shape(s.ring) && Conserved(s)
    ensures s.ring.size == (|Live(s.ring.items)| - s.empties) % WORD
  {
    assert |s.pushed| == |s.received| + |Live(s.ring.items)| by {
      assert |multiset(s.pushed)| == |s.pushed| && |multiset(s.received)| == |s.received|;
    }
  }

  /** It fails in both ways, from every state in which a pipe can be shut down. Once the queue has been drained and one
      woken receiver has come back empty, the empty pipe looks usable; */
  lemma EmptyLooksUsable<T>(capacity: nat, n: nat, acts: seq<Action<T>>, s: State<T>, z: nat, r: nat)
    returns (later: seq<Action<T>>, s': State<T>)
    requires 0 < capacity < WORD && Run(Init(capacity, n), acts, s) && !s.ring.shutdown
    requires Enabled(s, SetFlag(z)) && r < |s.actors| && r != z && s.actors[r].Idle? && Shape(s.ring)
    ensures Run(Next(s, SetFlag(z)), later, s')
    ensures s'.ring.shutdown && |Live(s'.ring.items)| == 0 && s'.ring.size == WORD - 1 && Usable(s'.ring)
    ensures SteppedOver(s', r) && KeepsCleared(Next(s, SetFlag(z)), s')
  {
    var s0 := Next(s, SetFlag(z));
    FlagIsDraining(capacity, n, acts, s, z);
    later, s' := DrainAndStepOver(s0, r, z);
    InvRun(s0, later, s');
    EmptyCounter(s');
  }

  lemma EmptyCounter<T>(s: State<T>)
    requires Conserved(s) && s.received == s.pushed && s.empties == 1
    ensures |Live(s.ring.items)| == 0 && s.ring.size == WORD - 1
  {
    LiveIsDifference(s);
  }

  lemma StoreThenCounter<T>(s: State<T>, t: nat)
    requires Inv(s) && s.ring.shutdown && s.received == s.pushed && s.empties == 1 && Enabled(s, Store(t))
    ensures var s' := Next(s, Store(t));
            Inv(s') && s'.ring.shutdown && |Live(s'.ring.items)| == 1 && s'.ring.size == 0
  {
    ShutdownStep(s, Store(t));
    LiveIsDifference(Next(s, Store(t)));
  }

  /** and if a sender past the flag check stores its element then, the pipe holds it and looks unusable. */
  lemma QueuedLooksUnusable<T>(capacity: nat, n: nat, acts: seq<Action<T>>, s: State<T>, z: nat, r: nat, t: nat)
    returns (later: seq<Action<T>>, s': State<T>)
    requires 0 < capacity < WORD && Run(Init(capacity, n), acts, s) && !s.ring.shutdown
    requires Enabled(s, SetFlag(z)) && r < |s.actors| && r != z && s.actors[r].Idle? && Shape(s.ring)
    requires t < |s.actors| && s.actors[t].Cleared?
    ensures Run(Next(s, SetFlag(z)), later, s')
    ensures s'.ring.shutdown && |Live(s'.ring.items)| == 1 && s'.ring.size == 0 && !Usable(s'.ring)
  {
    var s0 := Next(s, SetFlag(z));
    var s1: State<T>;
    later, s1 := EmptyLooksUsable(capacity, n, acts, s, z, r);
    assert Inv(s1) by {
      FlagIsDraining(capacity, n, acts, s, z);
      InvRun(s0, later, s1);
    }
    s' := Next(s1, Store(t));
    StoreThenCounter(s1, t);
    Then(s1, Store(t), [], s');
    RunConcat(s0, later, s1, [Store(t)] + [], s');
    later := later + ([Store(t)] + []);
  }

  /** Shutting down an idle empty pipe and receiving once is enough for the first. */
  lemma WakeUpLooksUsable<T>(capacity: nat, n: nat) returns (acts: seq<Action<T>>, s: State<T>)
    requires 0 < capacity < WORD && n > 0
    ensures Run(Init<T>(capacity, n), acts, s)
    ensures s.ring.shutdown && s.received == s.pushed == [] && Usable(s.ring) && s.ring.size == WORD - 1
  {
    var a1, s1 := ShutdownIsARun(Init<T>(capacity, n), 0);
    var a2: seq<Action<T>>;
    a2, s := ReceiveIsARun(s1, 0, false);
    RunConcat(Init(capacity, n), a1, s1, a2, s);
    acts := a1 + a2;
  }

  /** The second needs a sender past the flag check: for every capacity, a sender can be there while others are free. */
  lemma SomeoneIsCleared<T>(capacity: nat, n: nat, x: T) returns (acts: seq<Action<T>>, s: State<T>)
    requires 0 < capacity < WORD && n >= 3
    ensures Run(Init<T>(capacity, n), acts, s) && !s.ring.shutdown && Shape(s.ring)
    ensures |s.actors| == n && s.actors[0] == Cleared(x) && s.actors[1] == s.actors[2] == Idle
  {
    var s0 := Init<T>(capacity, n);
    var s1 := Next(s0, Enter(0, x, WaitIfFull));
    var s2 := Next(s1, Acquire(0));
    s := Next(s2, Check(0));
    Then(s2, Check(0), [], s);
    Then(s1, Acquire(0), [Check(0)], s);
    Then(s0, Enter(0, x, WaitIfFull), [Acquire(0)] + [Check(0)], s);
    acts := [Enter(0, x, WaitIfFull)] + ([Acquire(0)] + [Check(0)]);
  }
}
