/** Every interleaving of any number of senders, receivers and shutdowns on one pipe.
    Each semaphore operation, each locked section and each access to the atomic flag is one step. */
module PipeProtocol {
  import opened Common
  import opened PipeRing

  /** Where an actor stands inside a call on the pipe. A receiver that has not been woken is `Idle`. */
  datatype Pc<T> =
    | Idle
    | Waiting(x: T, mode: Mode)  // Send: saw no shutdown, now waits for a free slot
    | Permit(x: T)               // Send: took a permit from nempty
    | Cleared(x: T)              // Send: looked at the flag again and saw no shutdown
    | Stored                     // Send: pushed, nstored not posted yet
    | Awake                      // Receive: took a permit from nstored
    | Taken                      // Receive: popped, nempty not posted yet
    | Flagged                    // Shutdown: set the flag
    | Woken                      // Shutdown: posted nstored, nempty not posted yet

  datatype Kind = KPermit | KCleared | KStored | KAwake | KTaken

  predicate Is<T>(k: Kind, pc: Pc<T>) {
    match k
    case KPermit => pc.Permit?
    case KCleared => pc.Cleared?
    case KStored => pc.Stored?
    case KAwake => pc.Awake?
    case KTaken => pc.Taken?
  }

  /** `pushed` and `received` record, in the order of the pipe's mutex, the elements stored and the
      elements handed out; `empties` counts the receives that came back with an empty pointer. */
  datatype State<T> = State(ring: Ring<T>, actors: seq<Pc<T>>, pushed: seq<T>, received: seq<T>, empties: nat)

  datatype Action<T> =
    | Enter(t: nat, x: T, mode: Mode)
    | Acquire(t: nat)
    | GiveUp(t: nat)
    | Check(t: nat)
    | Store(t: nat)
    | Announce(t: nat)
    | Awaken(t: nat)
    | Take(t: nat)
    | Free(t: nat)
    | SetFlag(t: nat)
    | WakeReceiver(t: nat)
    | WakeSender(t: nat)

  ghost predicate Enabled<T>(s: State<T>, a: Action<T>) {
    && a.t < |s.actors|
    && var pc := s.actors[a.t];
       match a
       case Enter(_, _, _) => pc.Idle?
       case Acquire(_) => pc.Waiting? && s.ring.nempty > 0
       case GiveUp(_) => pc.Waiting? && match pc.mode {
         case WaitIfFull => false
         case WaitTimed => true
         case SoftFailIfFull => s.ring.nempty == 0 }
       case Check(_) => pc.Permit?
       case Store(_) => pc.Cleared?
       case Announce(_) => pc.Stored?
       case Awaken(_) => pc.Idle? && s.ring.nstored > 0
       case Take(_) => pc.Awake?
       case Free(_) => pc.Taken?
       case SetFlag(_) => pc.Idle?
       case WakeReceiver(_) => pc.Flagged?
       case WakeSender(_) => pc.Woken?
  }

  function At<T>(s: State<T>, t: nat, pc: Pc<T>): State<T>
    requires t < |s.actors|
  {
    s.(actors := s.actors[t := pc])
  }

  ghost function Next<T>(s: State<T>, a: Action<T>): State<T>
    requires Shape(s.ring) && Enabled(s, a)
  {
    var pc := s.actors[a.t];
    match a
    case Enter(t, x, mode) => At(s, t, if s.ring.shutdown then Idle else Waiting(x, mode))
    case Acquire(t) => At(s, t, Permit(pc.x)).(ring := TakeEmpty(s.ring))
    case GiveUp(t) => At(s, t, Idle)
    case Check(t) => At(s, t, if s.ring.shutdown then Idle else Cleared(pc.x))
    case Store(t) => At(s, t, Stored).(ring := Push(s.ring, pc.x), pushed := s.pushed + [pc.x])
    case Announce(t) => At(s, t, Idle).(ring := PostStored(s.ring))
    case Awaken(t) => At(s, t, Awake).(ring := TakeStored(s.ring))
    case Take(t) =>
      var got := s.ring.items[s.ring.indexPop];
      At(s, t, Taken).(ring := Pop(s.ring),
                       received := if got.Some? then s.received + [got.value] else s.received,
                       empties := if got.Some? then s.empties else s.empties + 1)
    case Free(t) => At(s, t, Idle).(ring := PostEmpty(s.ring))
    case SetFlag(t) => At(s, t, Flagged).(ring := s.ring.(shutdown := true))
    case WakeReceiver(t) => At(s, t, Woken).(ring := PostStored(s.ring))
    case WakeSender(t) => At(s, t, Idle).(ring := PostEmpty(s.ring))
  }

  lemma NextKeepsShape<T>(s: State<T>, a: Action<T>)
    requires Shape(s.ring) && Enabled(s, a)
    ensures Shape(Next(s, a).ring) && |Next(s, a).actors| == |s.actors|
    ensures Next(s, a).ring.capacity == s.ring.capacity
  {
  }

  /** `s` becomes `s'` by taking the steps `acts` in order. */
  ghost predicate Run<T>(s: State<T>, acts: seq<Action<T>>, s': State<T>)
    decreases |acts|
  {
    if acts == [] then s == s'
    else
      && Shape(s.ring)
      && Enabled(s, acts[0])
      && Run(Next(s, acts[0]), acts[1..], s')
  }

  /** A new pipe, and `n` actors that have not called it yet. */
  function Init<T>(capacity: nat, n: nat): State<T> {
    State(Fresh(capacity), seq(n, _ => Idle), [], [], 0)
  }

  // ---- Counting actors and live slots ----

  function Bit(b: bool): nat { if b then 1 else 0 }

  function Count<T>(k: Kind, actors: seq<Pc<T>>): nat {
    if actors == [] then 0 else Bit(Is(k, actors[0])) + Count(k, actors[1..])
  }

  lemma {:induction false} CountMove<T>(k: Kind, actors: seq<Pc<T>>, t: nat, pc: Pc<T>)
    requires t < |actors|
    ensures Count(k, actors[t := pc]) == Count(k, actors) - Bit(Is(k, actors[t])) + Bit(Is(k, pc))
    ensures Count(k, actors) >= Bit(Is(k, actors[t]))
  {
    var moved := actors[t := pc];
    if t == 0 {
      assert moved[1..] == actors[1..];
    } else {
      CountMove(k, actors[1..], t - 1, pc);
      assert moved[1..] == actors[1..][t - 1 := pc];
    }
  }

  lemma CountsMove<T>(actors: seq<Pc<T>>, t: nat, pc: Pc<T>)
    requires t < |actors|
    ensures forall k :: Count(k, actors[t := pc]) == Count(k, actors) - Bit(Is(k, actors[t])) + Bit(Is(k, pc))
    ensures forall k :: Count(k, actors) >= Bit(Is(k, actors[t]))
  {
    forall k
      ensures Count(k, actors[t := pc]) == Count(k, actors) - Bit(Is(k, actors[t])) + Bit(Is(k, pc))
      ensures Count(k, actors) >= Bit(Is(k, actors[t]))
    {
      CountMove(k, actors, t, pc);
    }
  }

  lemma {:induction false} NobodyYet<T>(k: Kind, n: nat)
    ensures Count<T>(k, seq(n, _ => Idle)) == 0
  {
    if n > 0 {
      NobodyYet<T>(k, n - 1);
      assert seq<Pc<T>>(n, _ => Idle)[1..] == seq<Pc<T>>(n - 1, _ => Idle);
    }
  }

  ghost function One<T>(o: Option<T>): multiset<T> { if o.Some? then multiset{o.value} else multiset{} }

  /** The undelivered elements that the slots hold. */
  ghost function Live<T>(items: seq<Option<T>>): multiset<T> {
    if items == [] then multiset{} else One(items[0]) + Live(items[1..])
  }

  lemma {:induction false} LiveMove<T>(items: seq<Option<T>>, i: nat, o: Option<T>)
    requires i < |items|
    ensures Live(items[i := o]) + One(items[i]) == Live(items) + One(o)
  {
    var moved := items[i := o];
    if i == 0 {
      assert moved[1..] == items[1..];
    } else {
      var rest := items[1..];
      LiveMove(rest, i - 1, o);
      assert moved[1..] == rest[i - 1 := o];
      AddToBoth(One(items[0]), Live(moved[1..]), One(items[i]), Live(rest), One(o));
    }
  }

  lemma AddToBoth<T>(h: multiset<T>, a: multiset<T>, b: multiset<T>, c: multiset<T>, d: multiset<T>)
    requires a + b == c + d
    ensures (h + a) + b == (h + c) + d
  {
    Regroup(h, a, b);
    Regroup(h, c, d);
  }

  lemma Regroup<T>(a: multiset<T>, b: multiset<T>, c: multiset<T>)
    ensures (a + b) + c == a + (b + c)
  {
  }

  lemma StoreBalance<T>(pushed: seq<T>, received: seq<T>, items: seq<Option<T>>, i: nat, x: T)
    requires i < |items| && items[i] == None
    requires multiset(pushed) == multiset(received) + Live(items)
    ensures multiset(pushed + [x]) == multiset(received) + Live(items[i := Some(x)])
  {
    LiveMove(items, i, Some(x));
    assert Live(items[i := Some(x)]) + multiset{} == Live(items[i := Some(x)]);
    assert multiset(pushed + [x]) == multiset(pushed) + multiset{x};
    Regroup(multiset(received), Live(items), multiset{x});
  }

  lemma TakeBalance<T>(pushed: seq<T>, received: seq<T>, items: seq<Option<T>>, i: nat)
    requires i < |items|
    requires multiset(pushed) == multiset(received) + Live(items)
    ensures items[i] == None ==> Live(items[i := None]) == Live(items)
    ensures items[i].Some? ==> multiset(pushed) == multiset(received + [items[i].value]) + Live(items[i := None])
  {
    LiveMove(items, i, None);
    var rest := Live(items[i := None]);
    assert Live(items) + multiset{} == Live(items);
    assert rest + multiset{} == rest;
    if items[i].Some? {
      var x := items[i].value;
      assert Live(items) == rest + multiset{x} == multiset{x} + rest;
      assert multiset(received + [x]) == multiset(received) + multiset{x};
      Regroup(multiset(received), multiset{x}, rest);
    }
  }

  lemma {:induction false} NoneLive<T>(n: nat)
    ensures Live<T>(seq(n, _ => None)) == multiset{}
  {
    if n > 0 {
      NoneLive<T>(n - 1);
      assert seq<Option<T>>(n, _ => None)[1..] == seq<Option<T>>(n - 1, _ => None);
    }
  }

  // ---- The invariant of every reachable state ----

  /** Nothing is lost or duplicated. */
  ghost predicate Balanced<T>(s: State<T>) {
    multiset(s.pushed) == multiset(s.received) + Live(s.ring.items)
  }

  /** The counter field is the number of stores minus takes, as a `size_t`. */
  ghost predicate Counted<T>(s: State<T>) {
    s.ring.size == (|s.pushed| - |s.received| - s.empties) % WORD
  }

  ghost predicate Conserved<T>(s: State<T>) { Balanced(s) && Counted(s) }

  /** The elements pushed and not yet received, oldest first, if delivery has been in order so far. */
  function Pending<T>(s: State<T>): seq<T> {
    if |s.received| <= |s.pushed| then s.pushed[|s.received|..] else []
  }

  /** Delivery has been in order, and no receive has come back empty. */
  ghost predicate InOrder<T>(s: State<T>)
    requires Shape(s.ring)
  {
    Window(s.ring, Pending(s)) && s.received + Pending(s) == s.pushed && s.empties == 0
  }

  /** Permits for stored elements, in `nstored` or held, less the elements they stand for. */
  ghost function StoredSurplus<T>(s: State<T>): int {
    s.ring.nstored + Count(KStored, s.actors) + Count(KAwake, s.actors) - (|s.pushed| - |s.received| - s.empties)
  }

  /** Permits for free slots, in `nempty` or held, plus the elements that are in the way. */
  ghost function FreeTotal<T>(s: State<T>): int {
    s.ring.nempty + Count(KPermit, s.actors) + Count(KCleared, s.actors) + Count(KTaken, s.actors)
    + (|s.pushed| - |s.received| - s.empties)
  }

  ghost predicate NoShutdownYet<T>(actors: seq<Pc<T>>) {
    forall t {:trigger actors[t]} :: 0 <= t < |actors| ==> !actors[t].Flagged? && !actors[t].Woken?
  }

  /** While the pipe is running every permit stands for one slot or one element. */
  ghost predicate Running<T>(s: State<T>)
    requires Shape(s.ring)
  {
    && !s.ring.shutdown && NoShutdownYet(s.actors)
    && InOrder(s)
    && StoredSurplus(s) == 0 && FreeTotal(s) == s.ring.capacity
  }

  /** The slots that the senders past the flag check are going to fill are all free. */
  ghost predicate Runway<T>(r: Ring<T>, n: nat)
    requires Shape(r)
  {
    && n <= r.capacity
    && forall d {:trigger Ahead(r.indexPush, d, r.capacity)} :: 0 <= d < n ==>
         r.items[Ahead(r.indexPush, d, r.capacity)] == None
  }

  ghost predicate Inv<T>(s: State<T>) {
    && Shape(s.ring)
    && Conserved(s)
    && if s.ring.shutdown then Runway(s.ring, Count(KCleared, s.actors)) else Running(s)
  }

  lemma InitInv<T>(capacity: nat, n: nat)
    requires 0 < capacity < WORD
    ensures Running(Init<T>(capacity, n)) && Inv(Init<T>(capacity, n))
  {
    var s := Init<T>(capacity, n);
    forall k ensures Count(k, s.actors) == 0 { NobodyYet<T>(k, n); }
    NoneLive<T>(capacity);
  }

  lemma SizeStep(d: int)
    ensures (d % WORD + 1) % WORD == (d + 1) % WORD
    ensures (d % WORD + WORD - 1) % WORD == (d - 1) % WORD
  {
  }

  lemma StoreKeepsBalance<T>(s: State<T>, t: nat)
    requires Shape(s.ring) && Balanced(s) && Enabled(s, Store(t)) && s.ring.items[s.ring.indexPush] == None
    ensures Balanced(Next(s, Store(t)))
  {
    StoreBalance(s.pushed, s.received, s.ring.items, s.ring.indexPush, s.actors[t].x);
  }

  lemma TakeKeepsBalance<T>(s: State<T>, t: nat)
    requires Shape(s.ring) && Balanced(s) && Enabled(s, Take(t))
    ensures Balanced(Next(s, Take(t)))
  {
    TakeBalance(s.pushed, s.received, s.ring.items, s.ring.indexPop);
  }

  lemma StepKeepsCount<T>(s: State<T>, a: Action<T>)
    requires Shape(s.ring) && Counted(s) && Enabled(s, a)
    ensures Counted(Next(s, a))
  {
    SizeStep(|s.pushed| - |s.received| - s.empties);
  }

  // ---- Delivery in order ----

  lemma InOrderStore<T>(s: State<T>, t: nat)
    requires Shape(s.ring) && InOrder(s) && Enabled(s, Store(t)) && s.ring.items[s.ring.indexPush] == None
    ensures InOrder(Next(s, Store(t)))
  {
    var s', q := Next(s, Store(t)), Pending(s);
    var d := Distance(s.ring.indexPop, s.ring.indexPush, s.ring.capacity);
    assert |q| <= d < s.ring.capacity;
    PushAppends(s.ring, q, s.actors[t].x);
    assert Pending(s') == q + [s.actors[t].x];
  }

  lemma InOrderTake<T>(s: State<T>, t: nat)
    requires Shape(s.ring) && InOrder(s) && Enabled(s, Take(t)) && Pending(s) != []
    ensures InOrder(Next(s, Take(t))) && s.ring.items[s.ring.indexPop] == Some(Pending(s)[0])
    ensures Pending(Next(s, Take(t))) == Pending(s)[1..]
  {
    var s', q := Next(s, Take(t)), Pending(s);
    PopRemovesHead(s.ring, q);
    assert Pending(s') == q[1..];
  }

  lemma InOrderElse<T>(s: State<T>, a: Action<T>)
    requires Shape(s.ring) && InOrder(s) && Enabled(s, a) && !a.Store? && !a.Take?
    ensures Shape(Next(s, a).ring) && InOrder(Next(s, a)) && Pending(Next(s, a)) == Pending(s)
  {
    var s' := Next(s, a);
    NextKeepsShape(s, a);
    assert s'.ring.items == s.ring.items && Pending(s') == Pending(s);
  }

  // ---- Permits ----

  /** Only a shutdown's posts, and a sender that gives up after its second look at the flag, change the accounts. */
  lemma SurplusStep<T>(s: State<T>, a: Action<T>)
    requires Shape(s.ring) && Enabled(s, a)
    ensures StoredSurplus(Next(s, a)) == StoredSurplus(s) + Bit(a.WakeReceiver?)
    ensures FreeTotal(Next(s, a)) == FreeTotal(s) + Bit(a.WakeSender?) - Bit(a.Check? && s.ring.shutdown)
  {
    CountsMove(s.actors, a.t, Next(s, a).actors[a.t]);
  }

  /** An actor that is about to store holds a permit for a free slot. */
  lemma RoomToStore<T>(s: State<T>, t: nat)
    requires Shape(s.ring) && Running(s) && Enabled(s, Store(t))
    ensures |Pending(s)| < s.ring.capacity && s.ring.items[s.ring.indexPush] == None
  {
    CountMove(KCleared, s.actors, t, Idle);
    assert Distance(s.ring.indexPop, s.ring.indexPush, s.ring.capacity) == |Pending(s)|;
  }

  /** An actor that is about to take holds a permit for an element. */
  lemma SomethingToTake<T>(s: State<T>, t: nat)
    requires Shape(s.ring) && Running(s) && Enabled(s, Take(t))
    ensures Pending(s) != []
  {
    CountMove(KAwake, s.actors, t, Idle);
  }

  lemma RunningInOrder<T>(s: State<T>, a: Action<T>)
    requires Shape(s.ring) && Running(s) && Enabled(s, a)
    ensures Shape(Next(s, a).ring) && InOrder(Next(s, a))
    ensures a.Store? ==> s.ring.items[s.ring.indexPush] == None
    ensures a.Take? ==> Pending(s) != [] && s.ring.items[s.ring.indexPop] == Some(Pending(s)[0])
  {
    NextKeepsShape(s, a);
    if a.Store? {
      RoomToStore(s, a.t);
      InOrderStore(s, a.t);
    } else if a.Take? {
      SomethingToTake(s, a.t);
      InOrderTake(s, a.t);
    } else {
      InOrderElse(s, a);
    }
  }

  lemma RunningPermits<T>(s: State<T>, a: Action<T>)
    requires Shape(s.ring) && Running(s) && Enabled(s, a) && !a.SetFlag?
    ensures var s' := Next(s, a);
            && !s'.ring.shutdown && NoShutdownYet(s'.actors)
            && StoredSurplus(s') == 0 && FreeTotal(s') == s'.ring.capacity
  {
    SurplusStep(s, a);
  }

  /** A step of a running pipe keeps the permit accounting, or is the first Shutdown. */
  lemma RunningStep<T>(s: State<T>, a: Action<T>)
    requires Shape(s.ring) && Conserved(s) && Running(s) && Enabled(s, a)
    ensures Shape(Next(s, a).ring) && Conserved(Next(s, a))
    ensures !a.SetFlag? ==> Running(Next(s, a))
    ensures a.Store? ==> s.ring.items[s.ring.indexPush] == None
    ensures a.Take? ==> Pending(s) != [] && s.ring.items[s.ring.indexPop] == Some(Pending(s)[0])
  {
    RunningInOrder(s, a);
    StepConserves(s, a);
    if !a.SetFlag? {
      RunningPermits(s, a);
    }
  }

  lemma StepConserves<T>(s: State<T>, a: Action<T>)
    requires Shape(s.ring) && Conserved(s) && Enabled(s, a)
    requires a.Store? ==> s.ring.items[s.ring.indexPush] == None
    ensures Shape(Next(s, a).ring) && Conserved(Next(s, a))
  {
    NextKeepsShape(s, a);
    StepKeepsCount(s, a);
    if a.Store? {
      StoreKeepsBalance(s, a.t);
    } else if a.Take? {
      TakeKeepsBalance(s, a.t);
    } else {
      assert Balanced(Next(s, a)) by {
        assert Next(s, a).ring.items == s.ring.items;
      }
    }
  }

  lemma RunwayFromWindow<T>(r: Ring<T>, q: seq<T>, n: nat)
    requires Shape(r) && Window(r, q) && |q| + n <= r.capacity
    ensures Runway(r, n)
  {
    forall d | 0 <= d < n ensures r.items[Ahead(r.indexPush, d, r.capacity)] == None {
      assert Distance(r.indexPop, Ahead(r.indexPush, d, r.capacity), r.capacity) == |q| + d;
    }
  }

  /** The first Shutdown finds enough free slots for every sender past the flag check. */
  lemma FlagLeavesRunway<T>(s: State<T>, t: nat)
    requires Shape(s.ring) && Conserved(s) && Running(s) && Enabled(s, SetFlag(t))
    ensures Inv(Next(s, SetFlag(t)))
  {
    var s' := Next(s, SetFlag(t));
    CountMove(KCleared, s.actors, t, Flagged);
    RunwayFromWindow(s.ring, Pending(s), Count(KCleared, s.actors));
    assert s'.ring.items == s.ring.items;
  }

  lemma RunwayAfterPush<T>(r: Ring<T>, x: T, n: nat)
    requires Shape(r) && Runway(r, n) && n > 0
    ensures r.items[r.indexPush] == None && Shape(Push(r, x)) && Runway(Push(r, x), n - 1)
  {
    assert Ahead(r.indexPush, 0, r.capacity) == r.indexPush;
    AdvanceIsAhead(r.indexPush, r.capacity);
    var r' := Push(r, x);
    forall d | 0 <= d < n - 1 ensures r'.items[Ahead(r'.indexPush, d, r.capacity)] == None {
      assert Ahead(r'.indexPush, d, r.capacity) == Ahead(r.indexPush, d + 1, r.capacity);
    }
  }

  lemma RunwayAfterPop<T>(r: Ring<T>, n: nat)
    requires Shape(r) && Runway(r, n)
    ensures Shape(Pop(r)) && Runway(Pop(r), n)
  {
    forall d | 0 <= d < n ensures Pop(r).items[Ahead(r.indexPush, d, r.capacity)] == None {
      assert r.items[Ahead(r.indexPush, d, r.capacity)] == None;
    }
  }

  lemma ClearedStep<T>(s: State<T>, a: Action<T>)
    requires Shape(s.ring) && s.ring.shutdown && Enabled(s, a)
    ensures Count(KCleared, Next(s, a).actors) == Count(KCleared, s.actors) - Bit(a.Store?)
    ensures a.Store? ==> Count(KCleared, s.actors) > 0
  {
    CountMove(KCleared, s.actors, a.t, Next(s, a).actors[a.t]);
  }

  /** After the flag is set no sender joins those past the check, and each of them uses up one free slot. */
  lemma ShutdownStep<T>(s: State<T>, a: Action<T>)
    requires Inv(s) && s.ring.shutdown && Enabled(s, a)
    ensures Inv(Next(s, a))
    ensures a.Store? ==> s.ring.items[s.ring.indexPush] == None
    ensures Count(KCleared, Next(s, a).actors) == Count(KCleared, s.actors) - Bit(a.Store?)
  {
    ClearedStep(s, a);
    var n := Count(KCleared, s.actors);
    if a.Store? {
      RunwayAfterPush(s.ring, s.actors[a.t].x, n);
    } else if a.Take? {
      RunwayAfterPop(s.ring, n);
    }
    StepConserves(s, a);
  }

  lemma InvStep<T>(s: State<T>, a: Action<T>)
    requires Inv(s) && Enabled(s, a)
    ensures Inv(Next(s, a))
    ensures a.Store? ==> s.ring.items[s.ring.indexPush] == None
  {
    if s.ring.shutdown {
      ShutdownStep(s, a);
    } else {
      RunningStep(s, a);
      NextKeepsShape(s, a);
      if a.SetFlag? {
        FlagLeavesRunway(s, a.t);
      }
    }
  }

  lemma {:induction false} InvRun<T>(s: State<T>, acts: seq<Action<T>>, s': State<T>)
    requires Inv(s) && Run(s, acts, s')
    ensures Inv(s') && s'.ring.capacity == s.ring.capacity
    decreases |acts|
  {
    if acts != [] {
      InvStep(s, acts[0]);
      NextKeepsShape(s, acts[0]);
      InvRun(Next(s, acts[0]), acts[1..], s');
    }
  }
}
