/** Exactly when delivery order survives Shutdown. */
module PipeShutdown {
  import opened Common
  import opened PipeRing
  import opened PipeProtocol
  import opened PipeCalls
  import opened PipeSafety

  lemma {:induction false} SomeActor<T>(k: Kind, actors: seq<Pc<T>>) returns (t: nat)
    requires Count(k, actors) > 0
    ensures t < |actors| && Is(k, actors[t])
  {
    if Is(k, actors[0]) {
      t := 0;
    } else {
      t := SomeActor(k, actors[1..]);
      t := t + 1;
    }
  }

  // ---- Two senders in flight can be delivered in the wrong order ----

  /** Shutdown `z` has set the flag and posted nothing yet. */
  ghost predicate Draining<T>(s: State<T>, z: nat) {
    && Shape(s.ring) && s.ring.shutdown && InOrder(s)
    && z < |s.actors| && s.actors[z].Flagged?
    && StoredSurplus(s) == 0
  }

  ghost predicate KeepsCleared<T>(s: State<T>, s': State<T>) {
    && |s'.actors| == |s.actors|
    && s'.pushed == s.pushed && s'.ring.capacity == s.ring.capacity
    && forall t {:trigger s'.actors[t]} :: 0 <= t < |s.actors| && s.actors[t].Cleared? ==> s'.actors[t] == s.actors[t]
  }

  lemma DrainTake<T>(s: State<T>, z: nat, t: nat)
    requires Draining(s, z) && Enabled(s, Take(t)) && Pending(s) != []
    ensures Draining(Next(s, Take(t)), z) && |Pending(Next(s, Take(t)))| == |Pending(s)| - 1
  {
    InOrderTake(s, t);
    SurplusStep(s, Take(t));
  }

  lemma DrainElse<T>(s: State<T>, z: nat, a: Action<T>)
    requires Draining(s, z) && Enabled(s, a) && (a.Awaken? || a.Announce? || a.Free?)
    ensures Draining(Next(s, a), z) && Pending(Next(s, a)) == Pending(s)
    ensures Count(KStored, Next(s, a).actors) == Count(KStored, s.actors) - Bit(a.Announce?)
  {
    InOrderElse(s, a);
    SurplusStep(s, a);
    CountMove(KStored, s.actors, a.t, Next(s, a).actors[a.t]);
  }

  /** The steps that bring the queue closer to empty leave the cleared senders where they are. */
  lemma DrainFrame<T>(s: State<T>, a: Action<T>)
    requires Shape(s.ring) && Enabled(s, a) && (a.Awaken? || a.Announce? || a.Free? || a.Take?)
    ensures KeepsCleared(s, Next(s, a))
  {
  }

  ghost predicate Receiving<T>(pc: Pc<T>) { pc.Idle? || pc.Awake? || pc.Taken? }

  ghost function Rank<T>(pc: Pc<T>): nat { if pc.Taken? then 2 else if pc.Idle? then 1 else 0 }

  /** The step that receiver `r`, or else the senders and the other receivers, should take next. */
  lemma DrainChoice<T>(s: State<T>, r: nat, z: nat) returns (a: Action<T>)
    requires Draining(s, z) && r < |s.actors| && Receiving(s.actors[r])
    requires Pending(s) != [] || !s.actors[r].Idle?
    ensures Enabled(s, a) && (a.t != r ==> a.Announce? || a.Take?)
    ensures || a.Announce? || (a.Take? && Pending(s) != [])
            || (a.Awaken? && s.actors[r].Idle?) || (a.Free? && s.actors[r].Taken?)
  {
    if s.actors[r].Taken? {
      a := Free(r);
    } else if s.actors[r].Awake? {
      CountMove(KAwake, s.actors, r, Idle);
      a := Take(r);
    } else if s.ring.nstored > 0 {
      a := Awaken(r);
    } else if Count(KStored, s.actors) > 0 {
      var t := SomeActor(KStored, s.actors);
      a := Announce(t);
    } else {
      var t := SomeActor(KAwake, s.actors);
      a := Take(t);
    }
  }

  /** How far receiver `r` and the rest are from having emptied the queue. */
  ghost predicate Closer<T>(s': State<T>, s: State<T>, r: nat)
    requires r < |s.actors| == |s'.actors|
  {
    || |Pending(s')| < |Pending(s)|
    || (|Pending(s')| == |Pending(s)|
        && (|| Count(KStored, s'.actors) < Count(KStored, s.actors)
            || (Count(KStored, s'.actors) == Count(KStored, s.actors) && Rank(s'.actors[r]) < Rank(s.actors[r]))))
  }

  lemma DrainOnce<T>(s: State<T>, r: nat, z: nat) returns (a: Action<T>, s': State<T>)
    requires Draining(s, z) && r < |s.actors| && Receiving(s.actors[r])
    requires Pending(s) != [] || !s.actors[r].Idle?
    ensures Enabled(s, a) && s' == Next(s, a) && Draining(s', z) && KeepsCleared(s, s')
    ensures Receiving(s'.actors[r]) && Closer(s', s, r)
  {
    a := DrainChoice(s, r, z);
    s' := Next(s, a);
    DrainFrame(s, a);
    if a.Take? {
      DrainTake(s, z, a.t);
    } else {
      DrainElse(s, z, a);
    }
  }

  /** The queue can be drained while the cleared senders stand still. */
  lemma {:induction false} Drain<T>(s: State<T>, r: nat, z: nat) returns (acts: seq<Action<T>>, s': State<T>)
    requires Draining(s, z) && r < |s.actors| && Receiving(s.actors[r])
    ensures Run(s, acts, s') && Draining(s', z) && Pending(s') == [] && KeepsCleared(s, s')
    ensures s'.actors[r].Idle?
    decreases |Pending(s)|, Count(KStored, s.actors), Rank(s.actors[r])
  {
    if Pending(s) == [] && s.actors[r].Idle? {
      return [], s;
    }
    var a, mid := DrainOnce(s, r, z);
    acts, s' := Drain(mid, r, z);
    Then(s, a, acts, s');
    acts := [a] + acts;
  }

  /** A drained pipe whose receivers have stepped over the slot the next sender will fill. */
  ghost predicate SteppedOver<T>(s: State<T>, r: nat) {
    && Shape(s.ring) && s.ring.shutdown
    && r < |s.actors| && s.actors[r].Idle?
    && s.received == s.pushed && s.empties == 1 && StoredSurplus(s) == 1
    && s.ring.indexPop == (s.ring.indexPush + 1) % s.ring.capacity
    && forall i {:trigger s.ring.items[i]} :: 0 <= i < s.ring.capacity ==> s.ring.items[i] == None
  }

  lemma StepOver<T>(s: State<T>, r: nat, z: nat) returns (acts: seq<Action<T>>, s': State<T>)
    requires Draining(s, z) && Pending(s) == [] && r < |s.actors| && s.actors[r].Idle?
    ensures Run(s, acts, s') && SteppedOver(s', r) && KeepsCleared(s, s')
  {
    var s1 := Next(s, WakeReceiver(z));
    SurplusStep(s, WakeReceiver(z));
    acts, s' := ReceiveIsARun(s1, r, false);
    SurplusAfterReceive(s1, s');
    Then(s, WakeReceiver(z), acts, s');
    acts := [WakeReceiver(z)] + acts;
  }

  lemma SurplusAfterReceive<T>(s: State<T>, s': State<T>)
    requires Shape(s.ring) && s.ring.nstored > 0 && s'.actors == s.actors && s'.ring == ReceiveAlone(s.ring, false).0
    requires |s'.pushed| - |s'.received| - s'.empties == |s.pushed| - |s.received| - s.empties - 1
    ensures StoredSurplus(s') == StoredSurplus(s)
  {
  }

  /** The second of two pushes is delivered first. */
  lemma DeliverSecondFirst<T>(s: State<T>, r: nat, t1: nat, t2: nat) returns (acts: seq<Action<T>>, s': State<T>)
    requires SteppedOver(s, r) && s.ring.capacity >= 2
    requires t1 < |s.actors| && t2 < |s.actors| && t1 != t2 && s.actors[t1].Cleared? && s.actors[t2].Cleared?
    ensures Run(s, acts, s')
    ensures s'.received == s.pushed + [s.actors[t2].x]
    ensures s'.pushed == s.pushed + [s.actors[t1].x] + [s.actors[t2].x]
  {
    var s1 := Next(s, Store(t1));
    var s2 := Next(s1, Announce(t1));
    var s3 := Next(s2, Store(t2));
    assert s3.ring.items[s3.ring.indexPop] == Some(s.actors[t2].x);
    acts, s' := ReceiveIsARun(s3, r, false);
    Then(s2, Store(t2), acts, s');
    Then(s1, Announce(t1), [Store(t2)] + acts, s');
    Then(s, Store(t1), [Announce(t1)] + ([Store(t2)] + acts), s');
    acts := [Store(t1)] + ([Announce(t1)] + ([Store(t2)] + acts));
  }

  lemma TwoClearedCount<T>(actors: seq<Pc<T>>, t1: nat, t2: nat)
    requires t1 < |actors| && t2 < |actors| && t1 != t2 && actors[t1].Cleared? && actors[t2].Cleared?
    ensures Count(KCleared, actors) >= 2
  {
    CountMove(KCleared, actors, t1, Idle);
    CountMove(KCleared, actors[t1 := Idle], t2, Idle);
  }

  lemma SwapTwo<T>(s: State<T>, r: nat, z: nat, t1: nat, t2: nat) returns (acts: seq<Action<T>>, s': State<T>)
    requires Draining(s, z) && r < |s.actors| && s.actors[r].Idle? && s.ring.capacity >= 2
    requires t1 < |s.actors| && t2 < |s.actors| && s.actors[t1].Cleared? && s.actors[t2].Cleared?
    requires s.actors[t1].x != s.actors[t2].x
    ensures Run(s, acts, s') && !(s'.received <= s'.pushed)
  {
    var a1, s1 := Drain(s, r, z);
    var a2, s2 := StepOver(s1, r, z);
    var a3: seq<Action<T>>;
    a3, s' := DeliverSecondFirst(s2, r, t1, t2);
    RunConcat(s1, a2, s2, a3, s');
    RunConcat(s, a1, s1, a2 + a3, s');
    acts := a1 + (a2 + a3);
    assert s'.received[|s2.pushed|] == s.actors[t2].x && s'.pushed[|s2.pushed|] == s.actors[t1].x;
  }

  lemma FlagIsDraining<T>(capacity: nat, n: nat, acts: seq<Action<T>>, s: State<T>, z: nat)
    requires 0 < capacity < WORD && Run(Init(capacity, n), acts, s) && !s.ring.shutdown && Enabled(s, SetFlag(z))
    ensures Shape(s.ring) && Inv(Next(s, SetFlag(z))) && Draining(Next(s, SetFlag(z)), z)
    ensures s.ring.capacity == capacity
    ensures Count(KCleared, Next(s, SetFlag(z)).actors) == Count(KCleared, s.actors)
  {
    InitInv<T>(capacity, n);
    InvRun(Init(capacity, n), acts, s);
    FlagLeavesRunway(s, z);
    InOrderElse(s, SetFlag(z));
    SurplusStep(s, SetFlag(z));
    CountMove(KCleared, s.actors, z, Flagged);
  }

  /** Two senders past the flag check with different elements can be delivered in the wrong order,
      from whatever state Shutdown found them in. */
  lemma OrderBreaksAfterShutdown<T>(
      capacity: nat, n: nat, acts: seq<Action<T>>, s: State<T>, z: nat, r: nat, t1: nat, t2: nat)
    returns (later: seq<Action<T>>, s': State<T>)
    requires 0 < capacity < WORD && Run(Init(capacity, n), acts, s) && !s.ring.shutdown
    requires Enabled(s, SetFlag(z)) && r < |s.actors| && r != z && s.actors[r].Idle? && Shape(s.ring)
    requires t1 < |s.actors| && t2 < |s.actors| && s.actors[t1].Cleared? && s.actors[t2].Cleared?
    requires s.actors[t1].x != s.actors[t2].x
    ensures Run(Next(s, SetFlag(z)), later, s') && !(s'.received <= s'.pushed)
  {
    var s0 := Next(s, SetFlag(z));
    FlagIsDraining(capacity, n, acts, s, z);
    TwoClearedCount(s.actors, t1, t2);
    later, s' := SwapTwo(s0, r, z, t1, t2);
  }

  ghost predicate ClearedAgree<T>(actors: seq<Pc<T>>) {
    forall t, u {:trigger actors[t], actors[u]} ::
      0 <= t < |actors| && 0 <= u < |actors| && actors[t].Cleared? && actors[u].Cleared? ==> actors[t].x == actors[u].x
  }

  /** In every continuation of `s` receivers have seen a prefix of what was pushed. */
  ghost predicate AlwaysInOrder<T(!new)>(s: State<T>) {
    forall later, s' :: Run(s, later, s') ==> s'.received <= s'.pushed
  }

  /** Delivery stays in order in every continuation of a Shutdown exactly when the senders past the flag check
      carry one and the same element; `r` is any actor that is free to receive. */
  lemma OrderAfterShutdownExactly<T(!new,00)>(capacity: nat, n: nat, acts: seq<Action<T>>, s: State<T>, z: nat, r: nat)
    requires 0 < capacity < WORD && Run(Init(capacity, n), acts, s) && !s.ring.shutdown
    requires Enabled(s, SetFlag(z)) && r < |s.actors| && r != z && s.actors[r].Idle? && Shape(s.ring)
    ensures AlwaysInOrder(Next(s, SetFlag(z))) <==> ClearedAgree(s.actors)
  {
    var s0 := Next(s, SetFlag(z));
    if ClearedAgree(s.actors) {
      var x: T := *;
      if t: nat :| t < |s.actors| && s.actors[t].Cleared? {
        x := s.actors[t].x;
      }
      assert ClearedCarry(s.actors, x);
      forall later, s' | Run(s0, later, s') ensures s'.received <= s'.pushed {
        OrderKeptAfterShutdown(capacity, n, acts, s, z, x, later, s');
      }
    } else {
      var t: nat, u: nat :| t < |s.actors| && u < |s.actors| && s.actors[t].Cleared? && s.actors[u].Cleared?
                            && s.actors[t].x != s.actors[u].x;
      var later, s' := OrderBreaksAfterShutdown(capacity, n, acts, s, z, r, t, u);
      assert !AlwaysInOrder(s0);
    }
  }
}
