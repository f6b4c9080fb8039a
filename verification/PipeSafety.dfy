/** What every run of the pipe guarantees, before, during and after Shutdown. */
module PipeSafety {
  import opened Common
  import opened PipeRing
  import opened PipeProtocol

  // ---- What the steps of a run say ----

  /** Each store of a run is of the element its actor came with: `given` holds what actors have come with so far. */
  function Stores<T>(acts: seq<Action<T>>, given: map<nat, T>): seq<T> {
    if acts == [] then []
    else
      match acts[0]
      case Enter(t, x, _) => Stores(acts[1..], given[t := x])
      case Store(t) => (if t in given then [given[t]] else []) + Stores(acts[1..], given)
      case _ => Stores(acts[1..], given)
  }

  function Takes<T>(acts: seq<Action<T>>): nat {
    if acts == [] then 0 else Bit(acts[0].Take?) + Takes(acts[1..])
  }

  ghost predicate FlagSet<T>(acts: seq<Action<T>>) {
    exists t: nat :: SetFlag(t) in acts
  }

  ghost predicate Carry<T>(actors: seq<Pc<T>>, given: map<nat, T>) {
    forall t {:trigger actors[t]} ::
      0 <= t < |actors| && (actors[t].Waiting? || actors[t].Permit? || actors[t].Cleared?)
      ==> t in given && given[t] == actors[t].x
  }

  lemma FlagSetFirst<T>(a: Action<T>, acts: seq<Action<T>>)
    ensures FlagSet([a] + acts) <==> a.SetFlag? || FlagSet(acts)
  {
    if a.SetFlag? {
      assert SetFlag(a.t) in [a] + acts;
    }
    if FlagSet(acts) {
      var t: nat :| SetFlag(t) in acts;
      assert SetFlag(t) in [a] + acts;
    }
  }

  lemma {:induction false} StepsDecideFrom<T>(s: State<T>, acts: seq<Action<T>>, s': State<T>, given: map<nat, T>)
    requires Run(s, acts, s') && Carry(s.actors, given)
    ensures s'.pushed == s.pushed + Stores(acts, given)
    ensures |s'.received| + s'.empties == |s.received| + s.empties + Takes(acts)
    decreases |acts|
  {
    if acts != [] {
      var a := acts[0];
      CarryStep(s, a, given);
      StepDecides(s, a, given);
      StepsDecideFrom(Next(s, a), acts[1..], s', if a.Enter? then given[a.t := a.x] else given);
    }
  }

  lemma {:induction false} FlagAlong<T>(s: State<T>, acts: seq<Action<T>>, s': State<T>)
    requires Run(s, acts, s')
    ensures s'.ring.shutdown <==> s.ring.shutdown || FlagSet(acts)
    decreases |acts|
  {
    if acts != [] {
      FlagAlong(Next(s, acts[0]), acts[1..], s');
      FlagSetFirst(acts[0], acts[1..]);
      assert acts == [acts[0]] + acts[1..];
    }
  }

  lemma CarryStep<T>(s: State<T>, a: Action<T>, given: map<nat, T>)
    requires Shape(s.ring) && Enabled(s, a) && Carry(s.actors, given)
    ensures Carry(Next(s, a).actors, if a.Enter? then given[a.t := a.x] else given)
  {
  }

  lemma StepDecides<T>(s: State<T>, a: Action<T>, given: map<nat, T>)
    requires Shape(s.ring) && Enabled(s, a) && Carry(s.actors, given)
    ensures Next(s, a).pushed == s.pushed + (if a.Store? then [given[a.t]] else [])
    ensures a.Store? ==> a.t in given
    ensures |Next(s, a).received| + Next(s, a).empties == |s.received| + s.empties + Bit(a.Take?)
  {
  }

  /** What is stored is what the callers of Send came with; every take hands out an element or comes back empty; and the
      flag is set exactly by shutdowns. */
  lemma StepsDecide<T>(capacity: nat, n: nat, acts: seq<Action<T>>, s: State<T>)
    requires 0 < capacity < WORD && Run(Init(capacity, n), acts, s)
    ensures s.pushed == Stores(acts, map[])
    ensures |s.received| + s.empties == Takes(acts)
    ensures s.ring.shutdown <==> exists t: nat :: SetFlag(t) in acts
  {
    StepsDecideFrom(Init(capacity, n), acts, s, map[]);
    FlagAlong(Init(capacity, n), acts, s);
  }

  // ---- While the pipe is running ----

  lemma SizeOfPending<T>(s: State<T>)
    requires Shape(s.ring) && Counted(s) && Running(s)
    ensures s.ring.size == |Pending(s)| == |s.pushed| - |s.received|
  {
    assert |Pending(s)| == |s.pushed| - |s.received|;
  }

  /** Every permit stands for one free slot or one stored element, whoever holds it. */
  lemma PermitConservation<T>(capacity: nat, n: nat, acts: seq<Action<T>>, s: State<T>)
    requires 0 < capacity < WORD && Run(Init(capacity, n), acts, s) && !s.ring.shutdown
    ensures Shape(s.ring)
    ensures s.ring.nempty + Count(KPermit, s.actors) + Count(KCleared, s.actors) + s.ring.size
            + Count(KTaken, s.actors) == capacity
    ensures s.ring.size == s.ring.nstored + Count(KStored, s.actors) + Count(KAwake, s.actors)
    ensures forall t :: Enabled(s, Store(t)) ==> s.ring.items[s.ring.indexPush] == None
    ensures forall t :: Enabled(s, Take(t)) ==> s.ring.items[s.ring.indexPop].Some?
  {
    InitInv<T>(capacity, n);
    InvRun(Init(capacity, n), acts, s);
    SizeOfPending(s);
    forall t | Enabled(s, Store(t)) ensures s.ring.items[s.ring.indexPush] == None { RunningStep(s, Store(t)); }
    forall t | Enabled(s, Take(t)) ensures s.ring.items[s.ring.indexPop].Some? { RunningStep(s, Take(t)); }
  }

  /** The ring refines a bounded queue: what was received, then what the live window holds, is what was pushed. */
  lemma FifoRefinement<T>(capacity: nat, n: nat, acts: seq<Action<T>>, s: State<T>)
    requires 0 < capacity < WORD && Run(Init(capacity, n), acts, s) && !s.ring.shutdown
    ensures Shape(s.ring) && Window(s.ring, Pending(s))
    ensures s.received + Pending(s) == s.pushed && |Pending(s)| == s.ring.size <= capacity
    ensures s.ring.indexPush == (s.ring.indexPop + s.ring.size) % capacity
    ensures s.empties == 0 && Usable(s.ring)
  {
    InitInv<T>(capacity, n);
    InvRun(Init(capacity, n), acts, s);
    SizeOfPending(s);
    AheadIsModulo(s.ring.indexPop, s.ring.size, capacity);
  }

  // ---- In every state, also across Shutdown ----

  /** No push ever overwrites an undelivered element, whatever Shutdown and wake-up receives did to the permits;
      so nothing is lost or duplicated: pushed is received plus what the slots hold. */
  lemma NoOverwrite<T>(capacity: nat, n: nat, acts: seq<Action<T>>, s: State<T>)
    requires 0 < capacity < WORD && Run(Init(capacity, n), acts, s)
    ensures Shape(s.ring) && multiset(s.pushed) == multiset(s.received) + Live(s.ring.items)
    ensures forall t :: Enabled(s, Store(t)) ==> s.ring.items[s.ring.indexPush] == None
  {
    InitInv<T>(capacity, n);
    InvRun(Init(capacity, n), acts, s);
    forall t | Enabled(s, Store(t)) ensures s.ring.items[s.ring.indexPush] == None { InvStep(s, Store(t)); }
  }

  /** After the flag is set: either delivery is still in order from the window, or the receivers have overtaken
      the senders, and then everything pushed before the overtaking, `base`, has been delivered first. */
  ghost predicate Overtaken<T>(s: State<T>, base: seq<T>) {
    base <= s.received && base <= s.pushed
  }

  ghost predicate QueueFirst<T>(s: State<T>, queued: seq<T>) {
    && Inv(s) && s.ring.shutdown
    && (InOrder(s) || Overtaken(s, queued))
    && queued <= s.pushed
  }

  /** Either delivery stays in order, or a receive comes back empty and finds everything pushed so far delivered. */
  lemma InOrderStep<T>(s: State<T>, a: Action<T>)
    requires Shape(s.ring) && InOrder(s) && Enabled(s, a)
    requires a.Store? ==> s.ring.items[s.ring.indexPush] == None
    ensures Shape(Next(s, a).ring)
    ensures a.Take? && Pending(s) == [] ==> DriedUp(Next(s, a))
    ensures !(a.Take? && Pending(s) == []) ==> InOrder(Next(s, a))
  {
    NextKeepsShape(s, a);
    if a.Store? {
      InOrderStore(s, a.t);
    } else if a.Take? {
      if Pending(s) != [] {
        InOrderTake(s, a.t);
      }
    } else {
      InOrderElse(s, a);
    }
  }

  /** Everything pushed has been delivered, and every slot is reset. */
  ghost predicate DriedUp<T>(s: State<T>)
    requires Shape(s.ring)
  {
    && s.received == s.pushed
    && forall i {:trigger s.ring.items[i]} :: 0 <= i < s.ring.capacity ==> s.ring.items[i] == None
  }

  lemma QueueFirstStep<T>(s: State<T>, queued: seq<T>, a: Action<T>)
    requires QueueFirst(s, queued) && Enabled(s, a)
    ensures QueueFirst(Next(s, a), queued)
  {
    SlotIsFree(s, a);
    if InOrder(s) {
      InOrderStep(s, a);
    }
    PrefixesStay(s, queued, a);
    assert Inv(Next(s, a)) by { ShutdownStep(s, a); }
  }

  lemma SlotIsFree<T>(s: State<T>, a: Action<T>)
    requires Inv(s) && s.ring.shutdown && Enabled(s, a)
    ensures a.Store? ==> s.ring.items[s.ring.indexPush] == None
  {
    ShutdownStep(s, a);
  }

  /** Both histories only grow. */
  lemma PrefixesStay<T>(s: State<T>, queued: seq<T>, a: Action<T>)
    requires Shape(s.ring) && Enabled(s, a) && queued <= s.pushed
    ensures queued <= Next(s, a).pushed && (Overtaken(s, queued) ==> Overtaken(Next(s, a), queued))
  {
  }

  lemma {:induction false} QueueFirstRun<T>(s: State<T>, queued: seq<T>, acts: seq<Action<T>>, s': State<T>)
    requires QueueFirst(s, queued) && Run(s, acts, s')
    ensures QueueFirst(s', queued)
    decreases |acts|
  {
    if acts != [] {
      QueueFirstStep(s, queued, acts[0]);
      QueueFirstRun(Next(s, acts[0]), queued, acts[1..], s');
    }
  }

  /** The elements queued when Shutdown sets the flag are delivered in FIFO order, and all of them before any
      receive comes back empty, whatever senders were in flight. */
  lemma QueuedBeforeShutdownIsDelivered<T>(capacity: nat, n: nat, acts: seq<Action<T>>, s: State<T>, z: nat,
                                          later: seq<Action<T>>, s': State<T>)
    requires 0 < capacity < WORD && Run(Init(capacity, n), acts, s) && !s.ring.shutdown
    requires Enabled(s, SetFlag(z)) && Shape(s.ring) && Run(Next(s, SetFlag(z)), later, s')
    ensures s'.received <= s.pushed || s.pushed <= s'.received
    ensures s'.empties > 0 ==> s.pushed <= s'.received
  {
    InitInv<T>(capacity, n);
    InvRun(Init(capacity, n), acts, s);
    FlagLeavesRunway(s, z);
    var s0 := Next(s, SetFlag(z));
    assert Pending(s0) == Pending(s) && s0.ring.items == s.ring.items;
    QueueFirstRun(s0, s.pushed, later, s');
    if InOrder(s') {
      assert s'.received <= s'.pushed;
    }
  }

  // ---- When delivery stays in order after Shutdown ----

  ghost predicate ClearedCarry<T>(actors: seq<Pc<T>>, x: T) {
    forall t {:trigger actors[t]} :: 0 <= t < |actors| && actors[t].Cleared? ==> actors[t].x == x
  }

  /** Past position `m` there is nothing but copies of `x`. */
  ghost predicate TailIs<T>(xs: seq<T>, m: nat, x: T) {
    m <= |xs| && forall i {:trigger xs[i]} :: m <= i < |xs| ==> xs[i] == x
  }

  ghost predicate Drifted<T>(s: State<T>, x: T, m: nat)
    requires Shape(s.ring)
  {
    && TailIs(s.received, m, x) && TailIs(s.pushed, m, x) && s.received[..m] == s.pushed[..m]
    && forall i {:trigger s.ring.items[i]} ::
         0 <= i < s.ring.capacity && s.ring.items[i].Some? ==> s.ring.items[i].value == x
  }

  ghost predicate Orderly<T>(s: State<T>, x: T) {
    && Inv(s) && s.ring.shutdown
    && ClearedCarry(s.actors, x)
    && (InOrder(s) || exists m: nat :: Drifted(s, x, m))
  }

  lemma ReceivedIsNoLonger<T>(s: State<T>)
    requires Shape(s.ring) && Conserved(s)
    ensures |s.received| <= |s.pushed|
  {
    assert |multiset(s.pushed)| == |s.pushed| && |multiset(s.received)| == |s.received|;
  }

  lemma OrderlyIsPrefix<T>(s: State<T>, x: T)
    requires Orderly(s, x)
    ensures s.received <= s.pushed
  {
    if !InOrder(s) {
      var m: nat :| Drifted(s, x, m);
      ReceivedIsNoLonger(s);
      forall i | 0 <= i < |s.received| ensures s.received[i] == s.pushed[i] {
        if i < m {
          assert s.received[..m][i] == s.pushed[..m][i];
        }
      }
    }
  }

  lemma DriftedStep<T>(s: State<T>, x: T, m: nat, a: Action<T>)
    requires Shape(s.ring) && s.ring.shutdown && Enabled(s, a)
    requires Drifted(s, x, m) && ClearedCarry(s.actors, x)
    ensures Shape(Next(s, a).ring) && Drifted(Next(s, a), x, m)
  {
    var s' := Next(s, a);
    NextKeepsShape(s, a);
    assert s'.received[..m] == s.received[..m] && s'.pushed[..m] == s.pushed[..m];
  }

  lemma ClearedCarryStep<T>(s: State<T>, x: T, a: Action<T>)
    requires Shape(s.ring) && s.ring.shutdown && Enabled(s, a) && ClearedCarry(s.actors, x)
    ensures ClearedCarry(Next(s, a).actors, x)
  {
  }

  lemma OrderlyStep<T>(s: State<T>, x: T, a: Action<T>)
    requires Orderly(s, x) && Enabled(s, a)
    ensures Orderly(Next(s, a), x)
  {
    var s' := Next(s, a);
    SlotIsFree(s, a);
    ClearedCarryStep(s, x, a);
    if InOrder(s) {
      InOrderStep(s, a);
      if a.Take? && Pending(s) == [] {
        assert Drifted(s', x, |s'.pushed|);
      }
    } else {
      var m: nat :| Drifted(s, x, m);
      DriftedStep(s, x, m, a);
    }
    assert Inv(s') by { ShutdownStep(s, a); }
  }

  lemma {:induction false} OrderlyRun<T>(s: State<T>, x: T, acts: seq<Action<T>>, s': State<T>)
    requires Orderly(s, x) && Run(s, acts, s')
    ensures Orderly(s', x)
    decreases |acts|
  {
    if acts != [] {
      OrderlyStep(s, x, acts[0]);
      OrderlyRun(Next(s, acts[0]), x, acts[1..], s');
    }
  }

  /** If the senders past the flag check when Shutdown runs all carry the same element (none, one, or copies),
      receivers see a prefix of what was pushed for ever after. */
  lemma OrderKeptAfterShutdown<T>(capacity: nat, n: nat, acts: seq<Action<T>>, s: State<T>, z: nat, x: T,
                                  later: seq<Action<T>>, s': State<T>)
    requires 0 < capacity < WORD && Run(Init(capacity, n), acts, s) && !s.ring.shutdown
    requires Enabled(s, SetFlag(z)) && Shape(s.ring) && Run(Next(s, SetFlag(z)), later, s')
    requires ClearedCarry(s.actors, x)
    ensures s'.received <= s'.pushed
  {
    InitInv<T>(capacity, n);
    InvRun(Init(capacity, n), acts, s);
    FlagLeavesRunway(s, z);
    var s0 := Next(s, SetFlag(z));
    assert InOrder(s0) by {
      assert Pending(s0) == Pending(s) && s0.ring.items == s.ring.items;
    }
    OrderlyRun(s0, x, later, s');
    OrderlyIsPrefix(s', x);
  }
}
