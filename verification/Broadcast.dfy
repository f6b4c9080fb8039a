/** All senders go through one router: its mutex gives the sends one global order, and every interleaving of the
    router's loop with receivers, shutdowns, registrations and dying pipes respects it. */
module Broadcast {
  import opened Common
  import opened PipeRing
  import opened PipeProtocol
  import opened PipeSafety
  import opened PipeRouter

  /** A registered pipe. Its elements are tickets, positions in the router's send order. Actor 0 is the router's
      call on this pipe; the others receive or shut down. `since` is the length of the order at registration. */
  datatype Station = Station(pipe: State<nat>, alive: bool, failed: bool, since: nat)

  datatype Phase = Fetch | Holding | Calling

  /** The call of Send that holds the mutex: it stands at entry `i` of the list. */
  datatype Cursor = Cursor(i: nat, phase: Phase, mode: Mode)

  datatype Hub<E> = Hub(stations: seq<Station>, list: seq<nat>, order: seq<E>, cursor: Option<Cursor>)

  datatype Event<E> =
    | Register(capacity: nat, actors: nat)
    | Die(p: nat)
    | Begin(x: E, mode: Mode)
    | Lock
    | Prune
    | Call(a: Action<nat>)
    | Advance
    | Finish
    | Step(p: nat, a: Action<nat>)

  function Current<E>(h: Hub<E>): Option<nat> {
    if h.cursor.Some? && h.cursor.value.phase != Fetch && h.cursor.value.i < |h.list|
    then Some(h.list[h.cursor.value.i]) else None
  }

  ghost predicate InCall<E>(h: Hub<E>, p: nat) {
    h.cursor.Some? && h.cursor.value.phase == Calling && Current(h) == Some(p)
  }

  predicate RouterAction(a: Action<nat>) {
    a.t == 0 && (a.Acquire? || a.GiveUp? || a.Check? || a.Store? || a.Announce?)
  }

  predicate ClientAction(a: Action<nat>) {
    a.t > 0 && !a.Enter?
  }

  ghost predicate Possible<E>(h: Hub<E>, e: Event<E>) {
    match e
    case Register(capacity, actors) => h.cursor == None && 0 < capacity < WORD && actors > 0
    case Die(p) => p < |h.stations| && h.stations[p].alive && Current(h) != Some(p)
    case Begin(_, _) => h.cursor == None
    case Lock =>
      && h.cursor.Some? && h.cursor.value.phase == Fetch && h.cursor.value.i < |h.list|
      && h.list[h.cursor.value.i] < |h.stations| && h.stations[h.list[h.cursor.value.i]].alive
    case Prune =>
      && h.cursor.Some? && h.cursor.value.phase == Fetch && h.cursor.value.i < |h.list|
      && h.list[h.cursor.value.i] < |h.stations| && !h.stations[h.list[h.cursor.value.i]].alive
    case Call(a) =>
      && Current(h).Some? && Current(h).value < |h.stations| && |h.order| > 0
      && var pipe := h.stations[Current(h).value].pipe;
         && Shape(pipe.ring) && Enabled(pipe, a)
         && (if h.cursor.value.phase == Holding then a == Enter(0, |h.order| - 1, h.cursor.value.mode)
             else RouterAction(a))
    case Advance =>
      && Current(h).Some? && Current(h).value < |h.stations| && h.cursor.value.phase == Calling
      && var pipe := h.stations[Current(h).value].pipe;
         |pipe.actors| > 0 && pipe.actors[0].Idle?
    case Finish => h.cursor.Some? && h.cursor.value.phase == Fetch && h.cursor.value.i == |h.list|
    case Step(p, a) =>
      && p < |h.stations| && h.stations[p].alive && ClientAction(a)
      && Shape(h.stations[p].pipe.ring) && Enabled(h.stations[p].pipe, a)
  }

  function AtStation<E>(h: Hub<E>, p: nat, st: Station): Hub<E>
    requires p < |h.stations|
  {
    h.(stations := h.stations[p := st])
  }

  ghost function After<E>(h: Hub<E>, e: Event<E>): Hub<E>
    requires Possible(h, e)
  {
    match e
    case Register(capacity, actors) =>
      h.(stations := h.stations + [Station(Init(capacity, actors), true, false, |h.order|)],
         list := h.list + [|h.stations|])
    case Die(p) => AtStation(h, p, h.stations[p].(alive := false))
    case Begin(x, mode) => h.(order := h.order + [x], cursor := Some(Cursor(0, Fetch, mode)))
    case Lock => h.(cursor := Some(h.cursor.value.(phase := Holding)))
    case Prune => h.(list := SwapWithLast(h.list, h.cursor.value.i))
    case Call(a) =>
      var p := Current(h).value;
      var st := h.stations[p];
      AtStation(h, p, st.(pipe := Next(st.pipe, a), failed := st.failed || a.GiveUp?))
      .(cursor := Some(h.cursor.value.(phase := Calling)))
    case Advance => h.(cursor := Some(h.cursor.value.(i := h.cursor.value.i + 1, phase := Fetch)))
    case Finish => h.(cursor := None)
    case Step(p, a) => AtStation(h, p, h.stations[p].(pipe := Next(h.stations[p].pipe, a)))
  }

  ghost predicate History<E>(h: Hub<E>, events: seq<Event<E>>, h': Hub<E>)
    decreases |events|
  {
    if events == [] then h == h'
    else Possible(h, events[0]) && History(After(h, events[0]), events[1..], h')
  }

  function Start<E>(): Hub<E> { Hub([], [], [], None) }

  // ---- One pipe with one sender at a time ----

  ghost predicate SingleSender(actors: seq<Pc<nat>>) {
    && |actors| > 0
    && forall t {:trigger actors[t]} :: 0 < t < |actors| ==>
         !actors[t].Waiting? && !actors[t].Permit? && !actors[t].Cleared? && !actors[t].Stored?
  }

  ghost predicate PipeOk(s: State<nat>) {
    && Inv(s)
    && SingleSender(s.actors)
    && (s.ring.shutdown ==> exists x: nat :: Orderly(s, x))
  }

  lemma SingleSenderStep(s: State<nat>, a: Action<nat>)
    requires Shape(s.ring) && SingleSender(s.actors) && Enabled(s, a) && (a.Enter? ==> a.t == 0)
    ensures SingleSender(Next(s, a).actors)
  {
  }

  lemma PipeOkFlag(s: State<nat>, t: nat)
    requires Inv(s) && SingleSender(s.actors) && !s.ring.shutdown && Enabled(s, SetFlag(t))
    ensures exists x: nat :: Orderly(Next(s, SetFlag(t)), x)
  {
    var s' := Next(s, SetFlag(t));
    FlagLeavesRunway(s, t);
    var x := if s.actors[0].Cleared? then s.actors[0].x else 0;
    assert ClearedCarry(s'.actors, x);
    assert InOrder(s') by {
      assert Pending(s') == Pending(s) && s'.ring.items == s.ring.items;
    }
    assert Orderly(s', x);
  }

  lemma PipeOkStep(s: State<nat>, a: Action<nat>)
    requires PipeOk(s) && Enabled(s, a) && (a.Enter? ==> a.t == 0)
    ensures PipeOk(Next(s, a))
  {
    InvStep(s, a);
    SingleSenderStep(s, a);
    if s.ring.shutdown {
      var x: nat :| Orderly(s, x);
      OrderlyStep(s, x, a);
    } else if a.SetFlag? {
      PipeOkFlag(s, a.t);
    } else {
      NextKeepsFlag(s, a);
    }
  }

  lemma NextKeepsFlag(s: State<nat>, a: Action<nat>)
    requires Shape(s.ring) && Enabled(s, a) && !a.SetFlag?
    ensures Next(s, a).ring.shutdown == s.ring.shutdown
  {
  }

  lemma PipeOkDelivers(s: State<nat>)
    requires PipeOk(s)
    ensures s.received <= s.pushed
  {
    if s.ring.shutdown {
      var x: nat :| Orderly(s, x);
      OrderlyIsPrefix(s, x);
    }
  }

  // ---- The invariant ----

  ghost predicate Increasing(xs: seq<nat>) {
    forall i, j {:trigger xs[i], xs[j]} :: 0 <= i < j < |xs| ==> xs[i] < xs[j]
  }

  ghost predicate Below(xs: seq<nat>, bound: nat) {
    forall i {:trigger xs[i]} :: 0 <= i < |xs| ==> xs[i] < bound
  }

  function Range(from: nat, to: nat): seq<nat>
    requires from <= to
  {
    seq(to - from, i requires 0 <= i => from + i)
  }

  /** The router's current Send has not stored its ticket in pipe `p`, and may still do so. */
  ghost predicate Outstanding<E>(h: Hub<E>, p: nat) {
    && h.cursor.Some? && h.cursor.value.i <= |h.list|
    && p in h.list[h.cursor.value.i..]
    && (InCall(h, p) ==> p < |h.stations| && OnTheWay(h.stations[p].pipe))
  }

  ghost predicate OnTheWay(s: State<nat>) {
    |s.actors| > 0 && !s.actors[0].Idle? && !s.actors[0].Stored?
  }

  /** The tickets a pipe may hold by now are those below this bound. */
  function Bound(tickets: nat, outstanding: bool): nat
    requires outstanding ==> tickets > 0
  {
    if outstanding then tickets - 1 else tickets
  }

  /** `tickets` sends have begun; `outstanding` tells whether the last one may still store its ticket here, and
      `inCall` whether the router is inside this pipe's Send. */
  ghost predicate StationFits(st: Station, tickets: nat, outstanding: bool, inCall: bool, listed: bool) {
    && (outstanding || inCall ==> tickets > 0)
    && |st.pipe.actors| > 0
    && var bound, pc := Bound(tickets, outstanding), st.pipe.actors[0];
       && (pc.Idle? || (inCall && (pc.Stored? || ((pc.Waiting? || pc.Permit? || pc.Cleared?) && pc.x == tickets - 1))))
       && Increasing(st.pipe.pushed) && Below(st.pipe.pushed, bound)
       && (st.alive ==> listed)
       && (st.alive && !st.failed && !st.pipe.ring.shutdown ==>
             st.since <= bound && st.pipe.pushed == Range(st.since, bound))
  }

  ghost predicate StationOk<E>(h: Hub<E>, p: nat)
    requires p < |h.stations|
  {
    StationFits(h.stations[p], |h.order|, Outstanding(h, p), InCall(h, p), p in h.list)
  }

  ghost predicate CursorOk<E>(h: Hub<E>) {
    h.cursor.Some? ==>
      && |h.order| > 0 && h.cursor.value.i <= |h.list|
      && (h.cursor.value.phase != Fetch ==> h.cursor.value.i < |h.list|)
  }

  ghost predicate PipesOk(stations: seq<Station>) {
    forall p {:trigger stations[p]} :: 0 <= p < |stations| ==> PipeOk(stations[p].pipe)
  }

  ghost predicate HubOk<E>(h: Hub<E>) {
    && CursorOk(h)
    && Distinct(h.list)
    && (forall p :: p in h.list ==> p < |h.stations|)
    && forall p {:trigger h.stations[p]} :: 0 <= p < |h.stations| ==> StationOk(h, p)
  }

  // ---- Every event keeps the invariant ----

  lemma PipesOkUpdate(stations: seq<Station>, p: nat, st: Station)
    requires PipesOk(stations) && p < |stations| && PipeOk(st.pipe)
    ensures PipesOk(stations[p := st])
  {
  }

  lemma NewPipeOk(capacity: nat, actors: nat)
    requires 0 < capacity < WORD && actors > 0
    ensures PipeOk(Init(capacity, actors))
  {
    InitInv<nat>(capacity, actors);
  }

  lemma PipesOkRegister(stations: seq<Station>, st: Station)
    requires PipesOk(stations) && PipeOk(st.pipe)
    ensures PipesOk(stations + [st])
  {
  }

  lemma PipesOkStep<E>(h: Hub<E>, e: Event<E>)
    requires PipesOk(h.stations) && Possible(h, e)
    ensures PipesOk(After(h, e).stations)
  {
    var h' := After(h, e);
    match e
    case Register(capacity, actors) =>
      NewPipeOk(capacity, actors);
      PipesOkRegister(h.stations, h'.stations[|h.stations|]);
    case Die(p) =>
      PipesOkUpdate(h.stations, p, h'.stations[p]);
    case Step(p, a) =>
      PipeOkStep(h.stations[p].pipe, a);
      PipesOkUpdate(h.stations, p, h'.stations[p]);
    case Call(a) =>
      var p := Current(h).value;
      PipeOkStep(h.stations[p].pipe, a);
      PipesOkUpdate(h.stations, p, h'.stations[p]);
    case _ =>
  }

  lemma FitsStep(st: Station, tickets: nat, outstanding: bool, inCall: bool, listed: bool, a: Action<nat>)
    requires StationFits(st, tickets, outstanding, inCall, listed) && SingleSender(st.pipe.actors)
    requires Shape(st.pipe.ring) && Enabled(st.pipe, a) && ClientAction(a)
    ensures StationFits(st.(pipe := Next(st.pipe, a)), tickets, outstanding, inCall, listed)
    ensures OnTheWay(Next(st.pipe, a)) == OnTheWay(st.pipe)
  {
    assert st.pipe.actors[a.t].Stored? ==> false;
  }

  /** The router enters a pipe's Send. */
  lemma FitsEnter(st: Station, tickets: nat, mode: Mode)
    requires StationFits(st, tickets, true, false, true)
    requires Shape(st.pipe.ring) && Enabled(st.pipe, Enter(0, tickets - 1, mode))
    ensures var pipe' := Next(st.pipe, Enter(0, tickets - 1, mode));
            StationFits(st.(pipe := pipe'), tickets, OnTheWay(pipe'), true, true)
  {
  }

  lemma FitsStore(st: Station, tickets: nat)
    requires StationFits(st, tickets, OnTheWay(st.pipe), true, true)
    requires Shape(st.pipe.ring) && Enabled(st.pipe, Store(0))
    ensures StationFits(st.(pipe := Next(st.pipe, Store(0))), tickets, false, true, true)
  {
    if st.alive && !st.failed && !st.pipe.ring.shutdown {
      assert Range(st.since, tickets) == Range(st.since, tickets - 1) + [tickets - 1];
    }
  }

  /** The router takes a further step inside a pipe's Send. */
  lemma FitsCall(st: Station, tickets: nat, a: Action<nat>)
    requires StationFits(st, tickets, OnTheWay(st.pipe), true, true)
    requires Shape(st.pipe.ring) && Enabled(st.pipe, a) && RouterAction(a)
    ensures var pipe' := Next(st.pipe, a);
            StationFits(st.(pipe := pipe', failed := st.failed || a.GiveUp?), tickets, OnTheWay(pipe'), true, true)
  {
    if a.Store? {
      FitsStore(st, tickets);
    }
  }

  lemma RegisterOk<E>(h: Hub<E>, capacity: nat, actors: nat)
    requires HubOk(h) && Possible(h, Register(capacity, actors))
    ensures HubOk(After(h, Register(capacity, actors)))
  {
    var h' := After(h, Register(capacity, actors));
    var n := |h.stations|;
    assert forall k {:trigger h.list[k]} :: 0 <= k < |h.list| ==> h.list[k] in h.list;
    forall p | 0 <= p < |h'.stations| ensures StationOk(h', p) {
      if p < n {
        assert StationOk(h, p);
        assert p in h.list ==> p in h'.list;
        assert !h.stations[p].alive || p in h'.list;
        assert p in h'.list ==> p in h.list;
      } else {
        assert h'.list[|h.list|] == n;
        assert Range(|h.order|, |h.order|) == [];
      }
    }
  }

  lemma BeginOk<E>(h: Hub<E>, x: E, mode: Mode)
    requires HubOk(h) && Possible(h, Begin(x, mode))
    ensures HubOk(After(h, Begin(x, mode)))
  {
    var h' := After(h, Begin(x, mode));
    assert h'.list[0..] == h.list;
    forall p | 0 <= p < |h'.stations| ensures StationOk(h', p) {
      assert StationOk(h, p);
    }
  }

  lemma PruneOk<E>(h: Hub<E>)
    requires HubOk(h) && Possible(h, Prune)
    ensures HubOk(After(h, Prune))
  {
    var h' := After(h, Prune);
    SwapWithLastRemoves(h.list, h.cursor.value.i);
    forall p | 0 <= p < |h'.stations| ensures StationOk(h', p) {
      assert StationOk(h, p);
    }
  }

  lemma AdvanceOk<E>(h: Hub<E>)
    requires HubOk(h) && Possible(h, Advance)
    ensures HubOk(After(h, Advance))
  {
    var h' := After(h, Advance);
    var i := h.cursor.value.i;
    assert h.list[i..] == [h.list[i]] + h.list[i + 1..];
    assert h.list[i] !in h.list[i + 1..];
    forall p | 0 <= p < |h'.stations| ensures StationOk(h', p) {
      assert StationOk(h, p);
    }
  }

  lemma QuietOk<E>(h: Hub<E>, e: Event<E>)
    requires HubOk(h) && Possible(h, e) && (e.Lock? || e.Finish? || e.Die?)
    ensures HubOk(After(h, e))
  {
    var h' := After(h, e);
    forall p | 0 <= p < |h'.stations| ensures StationOk(h', p) {
      assert StationOk(h, p);
    }
  }

  lemma ClientOk<E>(h: Hub<E>, p: nat, a: Action<nat>)
    requires HubOk(h) && Possible(h, Step(p, a)) && SingleSender(h.stations[p].pipe.actors)
    ensures HubOk(After(h, Step(p, a)))
  {
    var h' := After(h, Step(p, a));
    assert StationOk(h, p);
    FitsStep(h.stations[p], |h.order|, Outstanding(h, p), InCall(h, p), p in h.list, a);
    forall q | 0 <= q < |h'.stations| ensures StationOk(h', q) {
      assert StationOk(h, q);
    }
  }

  lemma CallOk<E>(h: Hub<E>, a: Action<nat>)
    requires HubOk(h) && Possible(h, Call(a))
    ensures HubOk(After(h, Call(a)))
  {
    var h' := After(h, Call(a));
    var p, i := Current(h).value, h.cursor.value.i;
    assert StationOk(h, p);
    assert p == h.list[i..][0];
    if h.cursor.value.phase == Holding {
      FitsEnter(h.stations[p], |h.order|, h.cursor.value.mode);
    } else {
      FitsCall(h.stations[p], |h.order|, a);
    }
    assert Outstanding(h', p) == OnTheWay(h'.stations[p].pipe) && InCall(h', p);
    forall q | 0 <= q < |h'.stations| ensures StationOk(h', q) {
      if q != p {
        assert StationOk(h, q);
        assert h'.stations[q] == h.stations[q] && !InCall(h, q) && !InCall(h', q);
      }
    }
  }

  lemma HubOkStep<E>(h: Hub<E>, e: Event<E>)
    requires HubOk(h) && PipesOk(h.stations) && Possible(h, e)
    ensures HubOk(After(h, e)) && PipesOk(After(h, e).stations)
  {
    PipesOkStep(h, e);
    match e
    case Register(capacity, actors) => RegisterOk(h, capacity, actors);
    case Begin(x, mode) => BeginOk(h, x, mode);
    case Prune => PruneOk(h);
    case Advance => AdvanceOk(h);
    case Step(p, a) =>
      assert PipeOk(h.stations[p].pipe);
      ClientOk(h, p, a);
    case Call(a) => CallOk(h, a);
    case _ => QuietOk(h, e);
  }

  lemma {:induction false} HubOkHistory<E>(h: Hub<E>, events: seq<Event<E>>, h': Hub<E>)
    requires HubOk(h) && PipesOk(h.stations) && History(h, events, h')
    ensures HubOk(h') && PipesOk(h'.stations)
    decreases |events|
  {
    if events != [] {
      HubOkStep(h, events[0]);
      HubOkHistory(After(h, events[0]), events[1..], h');
    }
  }

  // ---- What the events of a run say ----

  /** The elements the callers gave to the router, in the order in which its mutex let the calls in. */
  function Sends<E>(events: seq<Event<E>>): seq<E> {
    if events == [] then []
    else (if events[0].Begin? then [events[0].x] else []) + Sends(events[1..])
  }

  /** A registration asks for a capacity, when `since` sends have begun. */
  datatype Entry = Entry(capacity: nat, since: nat)

  function Registered<E>(events: seq<Event<E>>, begun: nat): seq<Entry> {
    if events == [] then []
    else
      match events[0]
      case Register(capacity, _) => [Entry(capacity, begun)] + Registered(events[1..], begun)
      case Begin(_, _) => Registered(events[1..], begun + 1)
      case _ => Registered(events[1..], begun)
  }

  function Entries(stations: seq<Station>): seq<Entry> {
    seq(|stations|, p requires 0 <= p < |stations| => Entry(stations[p].pipe.ring.capacity, stations[p].since))
  }

  /** A client has begun to shut pipe `p` down. */
  ghost predicate ShutDownIn<E>(events: seq<Event<E>>, p: nat) {
    exists t: nat :: Step(p, SetFlag(t)) in events
  }

  /** The router has given up waiting for a slot of pipe `p`. */
  ghost predicate GaveUp<E>(h: Hub<E>, events: seq<Event<E>>, h': Hub<E>, p: nat)
    requires History(h, events, h')
    decreases |events|
  {
    && events != []
    && (|| (Current(h) == Some(p) && exists t: nat :: events[0] == Call(GiveUp(t)))
        || GaveUp(After(h, events[0]), events[1..], h', p))
  }

  lemma {:induction false} OrderIsWhatWasSent<E>(h: Hub<E>, events: seq<Event<E>>, h': Hub<E>)
    requires History(h, events, h')
    ensures h'.order == h.order + Sends(events)
    decreases |events|
  {
    if events != [] {
      var mid := After(h, events[0]);
      OrderIsWhatWasSent(mid, events[1..], h');
      assert mid.order == h.order + (if events[0].Begin? then [events[0].x] else []);
    }
  }

  lemma EntriesStep<E>(h: Hub<E>, e: Event<E>)
    requires Possible(h, e)
    ensures Entries(After(h, e).stations)
            == Entries(h.stations) + (if e.Register? then [Entry(e.capacity, |h.order|)] else [])
  {
    match e
    case Call(a) => NextKeepsShape(h.stations[Current(h).value].pipe, a);
    case Step(p, a) => NextKeepsShape(h.stations[p].pipe, a);
    case _ =>
  }

  lemma {:induction false} EntriesAreRegistered<E>(h: Hub<E>, events: seq<Event<E>>, h': Hub<E>)
    requires History(h, events, h')
    ensures Entries(h'.stations) == Entries(h.stations) + Registered(events, |h.order|)
    decreases |events|
  {
    if events != [] {
      var mid := After(h, events[0]);
      EntriesStep(h, events[0]);
      EntriesAreRegistered(mid, events[1..], h');
    }
  }

  /** What a step does to the marks of pipe `p`. */
  lemma MarksStep<E>(h: Hub<E>, e: Event<E>, p: nat)
    requires Possible(h, e) && p < |h.stations|
    ensures p < |After(h, e).stations|
    ensures var st, st' := h.stations[p], After(h, e).stations[p];
            && (st'.alive <==> st.alive && e != Die(p))
            && (st'.pipe.ring.shutdown <==> st.pipe.ring.shutdown || exists t: nat :: e == Step(p, SetFlag(t)))
            && (st'.failed <==> st.failed || (Current(h) == Some(p) && exists t: nat :: e == Call(GiveUp(t))))
  {
    if e.Step? && e.a.SetFlag? {
      assert e == Step(e.p, SetFlag(e.a.t));
    }
    if e.Call? && e.a.GiveUp? {
      assert e == Call(GiveUp(e.a.t));
    }
  }

  lemma {:induction false} MarksAlong<E>(h: Hub<E>, events: seq<Event<E>>, h': Hub<E>, p: nat)
    requires History(h, events, h') && p < |h.stations|
    ensures p < |h'.stations|
    ensures var st, st' := h.stations[p], h'.stations[p];
            && (st'.alive <==> st.alive && Die(p) !in events)
            && (st'.pipe.ring.shutdown <==> st.pipe.ring.shutdown || ShutDownIn(events, p))
            && (st'.failed <==> st.failed || GaveUp(h, events, h', p))
    decreases |events|
  {
    if events != [] {
      var e, later := events[0], events[1..];
      assert events == [e] + later;
      MarksStep(h, e, p);
      MarksAlong(After(h, e), later, h', p);
      assert ShutDownIn(events, p) <==> ShutDownIn(later, p) || exists t: nat :: e == Step(p, SetFlag(t)) by {
        forall t: nat
          ensures Step(p, SetFlag(t)) in events <==> Step(p, SetFlag(t)) in later || e == Step(p, SetFlag(t))
        {
        }
      }
    }
  }

  /** Nothing happens to a pipe before it is registered. */
  lemma {:induction false} MarksFromStart<E>(h: Hub<E>, events: seq<Event<E>>, h': Hub<E>, p: nat)
    requires History(h, events, h') && |h.stations| <= p < |h'.stations|
    ensures h'.stations[p].alive <==> Die(p) !in events
    ensures h'.stations[p].pipe.ring.shutdown <==> ShutDownIn(events, p)
    ensures h'.stations[p].failed <==> GaveUp(h, events, h', p)
    decreases |events|
  {
    var e, later, mid := events[0], events[1..], After(h, events[0]);
    assert events == [e] + later;
    assert Current(h) != Some(p) || !e.Call?;
    forall t: nat ensures Step(p, SetFlag(t)) in events <==> Step(p, SetFlag(t)) in later {
    }
    if |mid.stations| <= p {
      MarksFromStart(mid, later, h', p);
    } else {
      MarksAlong(mid, later, h', p);
    }
  }

  /** How the last call of Send is to wait, as its caller said. */
  function LastMode<E>(events: seq<Event<E>>, before: Option<Mode>): Option<Mode> {
    if events == [] then before
    else LastMode(events[1..], if events[0].Begin? then Some(events[0].mode) else before)
  }

  lemma {:induction false} ModeIsTheCallers<E>(h: Hub<E>, events: seq<Event<E>>, h': Hub<E>, before: Option<Mode>)
    requires History(h, events, h') && (h.cursor.Some? ==> before == Some(h.cursor.value.mode))
    ensures h'.cursor.Some? ==> LastMode(events, before) == Some(h'.cursor.value.mode)
    decreases |events|
  {
    if events != [] {
      var e := events[0];
      ModeIsTheCallers(After(h, e), events[1..], h', if e.Begin? then Some(e.mode) else before);
    }
  }

  // ---- The results ----

  /** What the receivers of pipe `p` have been handed, in delivery order. */
  function Delivered<E>(h: Hub<E>, p: nat): seq<E>
    requires p < |h.stations|
    requires Below(h.stations[p].pipe.received, |h.order|)
  {
    var tickets := h.stations[p].pipe.received;
    seq(|tickets|, i requires 0 <= i < |tickets| => h.order[tickets[i]])
  }

  /** In every interleaving, with dying pipes and across Shutdown, each pipe hands out a subsequence of the elements
      that callers gave to the router, in the one order in which it took them: the tickets are positions in that
      order, and they strictly increase. */
  lemma TotalOrder<E>(events: seq<Event<E>>, h: Hub<E>, p: nat)
    requires History(Start<E>(), events, h) && p < |h.stations|
    ensures h.order == Sends(events)
    ensures var got := h.stations[p].pipe.received;
            && Increasing(got) && Below(got, |Sends(events)|)
            && got <= h.stations[p].pipe.pushed
            && |Delivered(h, p)| == |got|
            && forall i :: 0 <= i < |got| ==> Delivered(h, p)[i] == Sends(events)[got[i]]
  {
    HubOkHistory(Start<E>(), events, h);
    AllSent(events, h);
    StationDelivers(h, p);
  }

  lemma AllSent<E>(events: seq<Event<E>>, h: Hub<E>)
    requires History(Start<E>(), events, h)
    ensures h.order == Sends(events)
  {
    OrderIsWhatWasSent(Start<E>(), events, h);
  }

  lemma StationDelivers<E>(h: Hub<E>, p: nat)
    requires p < |h.stations| && StationOk(h, p) && PipeOk(h.stations[p].pipe)
    ensures var pipe := h.stations[p].pipe;
            Increasing(pipe.received) && Below(pipe.received, |h.order|) && pipe.received <= pipe.pushed
  {
    PipeOkDelivers(h.stations[p].pipe);
  }

  /** Hence any two receivers agree on the order of the sends that reached both. */
  lemma ReceiversAgree<E>(events: seq<Event<E>>, h: Hub<E>, p: nat, q: nat, i: nat, j: nat, k: nat, l: nat)
    requires History(Start<E>(), events, h) && p < |h.stations| && q < |h.stations|
    requires var got, got' := h.stations[p].pipe.received, h.stations[q].pipe.received;
             && i < |got| && j < |got| && k < |got'| && l < |got'|
             && got[i] == got'[k] && got[j] == got'[l]
    ensures i < j <==> k < l
  {
    TotalOrder(events, h, p);
    TotalOrder(events, h, q);
  }

  /** The p-th registration has given a pipe of the capacity it asked for, and nothing but that registration decides
      from which send on the pipe takes part. */
  lemma StationsAreRegistrations<E>(events: seq<Event<E>>, h: Hub<E>)
    requires History(Start<E>(), events, h)
    ensures |h.stations| == |Registered(events, 0)|
    ensures forall p {:trigger h.stations[p]} :: 0 <= p < |h.stations| ==>
              && h.stations[p].pipe.ring.capacity == Registered(events, 0)[p].capacity
              && h.stations[p].since == Registered(events, 0)[p].since
  {
    EntriesAreRegistered(Start<E>(), events, h);
    assert Entries(h.stations) == Registered(events, 0);
    forall p | 0 <= p < |h.stations|
      ensures h.stations[p].pipe.ring.capacity == Registered(events, 0)[p].capacity
      ensures h.stations[p].since == Registered(events, 0)[p].since
    {
      assert Entries(h.stations)[p] == Entry(h.stations[p].pipe.ring.capacity, h.stations[p].since);
    }
  }

  /** If a pipe's receiver has not died, nobody has shut it down and no send to it has failed, it has been given
      exactly the sends since its registration, in order, up to the one the router is busy with. */
  lemma CompleteSinceRegistration<E>(events: seq<Event<E>>, h: Hub<E>, p: nat)
    requires History(Start<E>(), events, h) && p < |h.stations|
    requires Die(p) !in events && !ShutDownIn(events, p) && !GaveUp(Start<E>(), events, h, p)
    ensures p < |Registered(events, 0)|
    ensures var since, sent, pushed := Registered(events, 0)[p].since, |Sends(events)|, h.stations[p].pipe.pushed;
            && since <= sent
            && (pushed == Range(since, sent)
                || (h.cursor.Some? && since < sent && pushed == Range(since, sent - 1)))
  {
    HubOkHistory(Start<E>(), events, h);
    OrderIsWhatWasSent(Start<E>(), events, h);
    StationsAreRegistrations(events, h);
    MarksFromStart(Start<E>(), events, h, p);
    assert StationOk(h, p);
  }
}
