/** The write queue of a websocket session, and of the TCP side of an HTTP session. All handlers run on one
    strand, so each is one step; completions of writes, and the destruction of the session, come from outside. */
module SendQueue {
  import opened Common

  /** A queued message. `id` numbers the messages in the order on_send was called; `sendable` tells whether it points
      to at least one byte; without a handler nobody is told about its completion. */
  datatype Message = Message(id: nat, sendable: bool, force: bool, handler: bool)

  /** The outstanding operation: an async write, or a posted abort. Either ends in on_write. */
  datatype Operation = Write(id: nat) | Abort(id: nat)

  /** `called` lists the ids of the messages whose completion handler has run, in the order of the calls. */
  datatype Session = Session(queue: seq<Message>, inFlight: Option<Operation>, called: seq<nat>)

  // ---- Eviction ----

  /** Drop the first `d` messages that are not forced. */
  function DropUnforced(msgs: seq<Message>, d: nat): seq<Message> {
    if msgs == [] || d == 0 then msgs
    else if msgs[0].force then [msgs[0]] + DropUnforced(msgs[1..], d)
    else DropUnforced(msgs[1..], d - 1)
  }

  function Limit(maxQueueSize: nat): nat { if maxQueueSize < 2 then 2 else maxQueueSize }

  function Front(queue: seq<Message>, i: nat): seq<Message> { if i <= |queue| then queue[..i] else queue }

  function Rest(queue: seq<Message>, i: nat): seq<Message> { if i <= |queue| then queue[i..] else [] }

  /** How many messages must go before there is room for one more. */
  function Need(size: nat, limit: nat): nat { if size < limit then 0 else size - limit + 1 }

  /** What on_send leaves of the queue before it appends: the first two messages are never touched, and of the others
      as many go as it takes to get below the limit. */
  function Evict(queue: seq<Message>, limit: nat): seq<Message> {
    Front(queue, 2) + DropUnforced(Rest(queue, 2), Need(|queue|, limit))
  }

  function Unforced(msgs: seq<Message>): seq<Message> {
    if msgs == [] then [] else (if msgs[0].force then [] else [msgs[0]]) + Unforced(msgs[1..])
  }

  function Forced(msgs: seq<Message>): seq<Message> {
    if msgs == [] then [] else (if msgs[0].force then [msgs[0]] else []) + Forced(msgs[1..])
  }

  function Min(a: nat, b: nat): nat { if a < b then a else b }

  /** What is dropped is a cut: before it only the forced messages survive, behind it everything does. */
  lemma {:induction false} DropUnforcedCuts(msgs: seq<Message>, d: nat) returns (cut: nat)
    ensures cut <= |msgs|
    ensures DropUnforced(msgs, d) == Forced(msgs[..cut]) + msgs[cut..]
    ensures |Unforced(msgs[..cut])| == Min(d, |Unforced(msgs)|)
  {
    if msgs == [] || d == 0 {
      cut := 0;
      assert msgs[0..] == msgs;
    } else {
      cut := DropUnforcedCuts(msgs[1..], if msgs[0].force then d else d - 1);
      cut := cut + 1;
      assert msgs[..cut][1..] == msgs[1..][..cut - 1];
      assert msgs[cut..] == msgs[1..][cut - 1..];
    }
  }

  lemma {:induction false} DropUnforcedCount(msgs: seq<Message>, d: nat)
    ensures |DropUnforced(msgs, d)| == |msgs| - Min(d, |Unforced(msgs)|)
    ensures Forced(DropUnforced(msgs, d)) == Forced(msgs)
    ensures Unforced(DropUnforced(msgs, d)) == Unforced(msgs)[Min(d, |Unforced(msgs)|)..]
  {
    if msgs != [] && d > 0 {
      DropUnforcedCount(msgs[1..], if msgs[0].force then d else d - 1);
      if msgs[0].force {
        assert DropUnforced(msgs, d)[1..] == DropUnforced(msgs[1..], d);
      }
    }
  }

  lemma {:induction false} OnlyForced(msgs: seq<Message>)
    ensures Unforced(msgs) == [] <==> forall i {:trigger msgs[i]} :: 0 <= i < |msgs| ==> msgs[i].force
  {
    if msgs != [] {
      OnlyForced(msgs[1..]);
      assert forall i {:trigger msgs[1..][i]} :: 0 <= i < |msgs| - 1 ==> msgs[1..][i] == msgs[i + 1];
    }
  }

  /** With M = max(max_queue_size, 2), on_send removes exactly the oldest min(k, max(0, size - M + 1)) of the k messages
      at index 2 or later that are not forced, never a forced one, and keeps the order of the rest. Once the new
      message is appended the queue is within the limit, or every earlier message from index 2 on is forced. */
  lemma EvictionSpecification(queue: seq<Message>, maxQueueSize: nat, m: Message) returns (cut: nat)
    ensures var limit := if maxQueueSize < 2 then 2 else maxQueueSize;
            var tail := Rest(queue, 2);
            var d := Min(if |queue| < limit then 0 else |queue| - limit + 1, |Unforced(tail)|);
            var kept := Evict(queue, Limit(maxQueueSize));
            && |kept| == |queue| - d
            && cut <= |tail| && |Unforced(tail[..cut])| == d
            && kept == Front(queue, 2) + Forced(tail[..cut]) + tail[cut..]
            && Forced(Rest(kept, 2)) == Forced(tail) && Unforced(Rest(kept, 2)) == Unforced(tail)[d..]
            && (|kept + [m]| <= limit || forall i {:trigger kept[i]} :: 2 <= i < |kept| ==> kept[i].force)
  {
    var limit, tail := Limit(maxQueueSize), Rest(queue, 2);
    var need := Need(|queue|, limit);
    cut := DropUnforcedCuts(tail, need);
    ConcatIsAssociative(Front(queue, 2), Forced(tail[..cut]), tail[cut..]);
    DropUnforcedCount(tail, need);
    RestOfEvict(queue, limit);
    EvictMeetsLimit(queue, limit);
  }

  lemma ConcatIsAssociative<T>(a: seq<T>, b: seq<T>, c: seq<T>)
    ensures a + (b + c) == a + b + c
  {
  }

  lemma RestOfEvict(queue: seq<Message>, limit: nat)
    ensures Rest(Evict(queue, limit), 2) == DropUnforced(Rest(queue, 2), Need(|queue|, limit))
  {
  }

  lemma EvictMeetsLimit(queue: seq<Message>, limit: nat)
    requires limit >= 2
    ensures var kept := Evict(queue, limit);
            |kept| + 1 <= limit || forall i {:trigger kept[i]} :: 2 <= i < |kept| ==> kept[i].force
  {
    var kept := Evict(queue, limit);
    var rest := Rest(kept, 2);
    DropUnforcedCount(Rest(queue, 2), Need(|queue|, limit));
    RestOfEvict(queue, limit);
    OnlyForced(rest);
    if |kept| + 1 > limit {
      assert Unforced(rest) == [];
      assert forall i {:trigger kept[i]} :: 2 <= i < |kept| ==> kept[i] == rest[i - 2];
    }
  }

  // ---- The handlers as functions ----

  function CallOf(m: Message): seq<nat> { if m.handler then [m.id] else [] }

  /** One handler call for each of these messages that has a handler. */
  function Calls(msgs: seq<Message>): seq<nat> {
    if msgs == [] then [] else CallOf(msgs[0]) + Calls(msgs[1..])
  }

  /** What decides whether a message may go out now: a websocket session asks its rate limiter, which force overrides;
      the TCP side of an HTTP session only looks whether its pipelining queue is idle. */
  datatype Gate = Limiter(open: bool) | Pipeline(idle: bool)

  predicate MaySend(m: Message, gate: Gate) {
    m.sendable && match gate { case Limiter(open) => open || m.force case Pipeline(idle) => idle }
  }

  /** Start on the front message. */
  function Launch(m: Message, gate: Gate): Operation {
    if MaySend(m, gate) then Write(m.id) else Abort(m.id)
  }

  /** The first `d` messages that are not forced: those that DropUnforced drops. */
  function Taken(msgs: seq<Message>, d: nat): seq<Message> {
    var gone := Unforced(msgs);
    gone[..Min(d, |gone|)]
  }

  function Evicted(queue: seq<Message>, limit: nat): seq<Message> {
    Taken(Rest(queue, 2), Need(|queue|, limit))
  }

  function AfterSend(s: Session, m: Message, maxQueueSize: nat, gate: Gate): Session {
    var limit := Limit(maxQueueSize);
    var kept := Evict(s.queue, limit);
    Session(kept + [m],
            if kept == [] then Some(Launch(m, gate)) else s.inFlight,
            s.called + Calls(Evicted(s.queue, limit)))
  }

  /** Runs when the outstanding operation completes, whether it succeeded, failed or was an abort. */
  function AfterWrite(s: Session, gate: Gate): Session
    requires s.queue != []
  {
    var rest := s.queue[1..];
    Session(rest, if rest == [] then None else Some(Launch(rest[0], gate)), s.called + CallOf(s.queue[0]))
  }

  function Destroy(s: Session): Session {
    Session([], None, s.called + Calls(s.queue))
  }

  // ---- Runs ----

  datatype Kind = Websocket | Http

  /** `handlers[i]` tells whether message `i` came with a handler; `destroyed` ends the run. `dropped` is what was
      queued when an HTTP session was destroyed: unlike a websocket session's, its destructor does not drain the
      queue. */
  datatype Log = Log(kind: Kind, session: Session, handlers: seq<bool>, dropped: seq<Message>, destroyed: bool)

  datatype Event =
    | Send(sendable: bool, force: bool, handler: bool, maxQueueSize: nat, gate: Gate)
    | Complete(gate: Gate)
    | End

  predicate Possible(l: Log, e: Event) {
    && !l.destroyed
    && (e.Complete? ==> l.session.inFlight.Some?)
    && (!e.End? ==> (e.gate.Limiter? <==> l.kind == Websocket))
  }

  function After(l: Log, e: Event): Log
    requires Possible(l, e)
  {
    match e
    case Send(sendable, force, handler, maxQueueSize, gate) =>
      var m := Message(|l.handlers|, sendable, force, handler);
      l.(session := AfterSend(l.session, m, maxQueueSize, gate), handlers := l.handlers + [handler])
    case Complete(gate) =>
      // with an empty queue the source would read past its end; no run gets there
      if l.session.queue == [] then l else l.(session := AfterWrite(l.session, gate))
    case End =>
      if l.kind == Websocket then l.(session := Destroy(l.session), destroyed := true)
      else l.(session := Session([], None, l.session.called), dropped := l.session.queue, destroyed := true)
  }

  ghost predicate History(l: Log, events: seq<Event>, l': Log)
    decreases |events|
  {
    if events == [] then l == l'
    else Possible(l, events[0]) && History(After(l, events[0]), events[1..], l')
  }

  function Start(kind: Kind): Log { Log(kind, Session([], None, []), [], [], false) }

  /** Ids ascend along the queue from `lo` on, and each message has the handler it was sent with. */
  ghost predicate InOrder(msgs: seq<Message>, lo: nat, handlers: seq<bool>) {
    msgs == [] ||
    (&& lo <= msgs[0].id < |handlers| && msgs[0].handler == handlers[msgs[0].id]
     && InOrder(msgs[1..], msgs[0].id + 1, handlers))
  }

  /** There is an outstanding operation exactly if the queue is not empty: then it is the front message's. */
  ghost predicate QueueOk(s: Session, handlers: seq<bool>) {
    && InOrder(s.queue, 0, handlers)
    && (s.inFlight.Some? <==> s.queue != [])
    && (s.inFlight.Some? ==> s.inFlight.value.id == s.queue[0].id)
  }

  function Times(ids: seq<nat>, id: nat): nat {
    if ids == [] then 0 else (if ids[0] == id then 1 else 0) + Times(ids[1..], id)
  }

  lemma {:induction false} TimesAppend(xs: seq<nat>, ys: seq<nat>, id: nat)
    ensures Times(xs + ys, id) == Times(xs, id) + Times(ys, id)
  {
    if xs == [] {
      assert xs + ys == ys;
    } else {
      assert (xs + ys)[1..] == xs[1..] + ys;
      TimesAppend(xs[1..], ys, id);
    }
  }

  function Due(handlers: seq<bool>, id: nat): nat { if id < |handlers| && handlers[id] then 1 else 0 }

  /** Every handler is accounted for: called once, still to be called while its message is queued, or dropped. */
  ghost predicate HandlersOk(s: Session, dropped: seq<Message>, handlers: seq<bool>) {
    forall id: nat {:trigger Times(s.called, id)} ::
      Times(s.called, id) + Times(Calls(s.queue), id) + Times(Calls(dropped), id) == Due(handlers, id)
  }

  /** Only the end of an HTTP session drops anything. */
  ghost predicate DroppedOk(l: Log) {
    InOrder(l.dropped, 0, l.handlers) && (l.dropped != [] ==> l.destroyed && l.kind == Http)
  }

  ghost predicate Inv(l: Log) {
    QueueOk(l.session, l.handlers) && HandlersOk(l.session, l.dropped, l.handlers) && DroppedOk(l)
  }

  lemma {:induction false} CallsAppend(xs: seq<Message>, ys: seq<Message>)
    ensures Calls(xs + ys) == Calls(xs) + Calls(ys)
  {
    if xs == [] {
      assert xs + ys == ys;
    } else {
      CallsAppend(xs[1..], ys);
      HeadOfSum(xs, ys);
      ConcatIsAssociative(CallOf(xs[0]), Calls(xs[1..]), Calls(ys));
    }
  }

  lemma HeadOfSum<T>(xs: seq<T>, ys: seq<T>)
    requires xs != []
    ensures xs + ys != [] && (xs + ys)[0] == xs[0] && (xs + ys)[1..] == xs[1..] + ys
  {
  }

  lemma CallsCons(m: Message, msgs: seq<Message>)
    ensures Calls([m] + msgs) == CallOf(m) + Calls(msgs)
  {
    assert ([m] + msgs)[1..] == msgs;
  }

  /** How often `id`'s handler is due for these messages. */
  function Owed(msgs: seq<Message>, id: nat): nat { Times(Calls(msgs), id) }

  lemma OwedAppend(xs: seq<Message>, ys: seq<Message>, id: nat)
    ensures Owed(xs + ys, id) == Owed(xs, id) + Owed(ys, id)
  {
    CallsAppend(xs, ys);
    TimesAppend(Calls(xs), Calls(ys), id);
  }

  lemma OwedHead(msgs: seq<Message>, id: nat)
    requires msgs != []
    ensures Owed(msgs, id) == Owed([msgs[0]], id) + Owed(msgs[1..], id)
  {
    assert msgs == [msgs[0]] + msgs[1..];
    OwedAppend([msgs[0]], msgs[1..], id);
  }

  /** Dropping splits the handlers into those that are called now and those that stay. */
  lemma {:induction false} OwedSplit(msgs: seq<Message>, d: nat, id: nat)
    ensures Owed(msgs, id) == Owed(Taken(msgs, d), id) + Owed(DropUnforced(msgs, d), id)
  {
    if msgs == [] || d == 0 {
      assert Taken(msgs, d) == [];
    } else if msgs[0].force {
      OwedHead(msgs, id);
      OwedSplit(msgs[1..], d, id);
      SkipHead(msgs, d);
      OwedAppend([msgs[0]], DropUnforced(msgs[1..], d), id);
    } else {
      OwedHead(msgs, id);
      OwedSplit(msgs[1..], d - 1, id);
      TakenHead(msgs, d);
      OwedAppend([msgs[0]], Taken(msgs[1..], d - 1), id);
    }
  }

  lemma TakenHead(msgs: seq<Message>, d: nat)
    requires msgs != [] && !msgs[0].force && d > 0
    ensures Taken(msgs, d) == [msgs[0]] + Taken(msgs[1..], d - 1)
  {
  }

  lemma FrontRest(queue: seq<Message>, i: nat)
    ensures Front(queue, i) + Rest(queue, i) == queue
  {
  }

  lemma {:induction false} InOrderFromBelow(msgs: seq<Message>, lo: nat, lo': nat, handlers: seq<bool>)
    requires InOrder(msgs, lo, handlers) && lo' <= lo
    ensures InOrder(msgs, lo', handlers)
  {
  }

  /** What is left of a list after dropping is a selection of it, in order. */
  lemma {:induction false} DropKeepsOrder(msgs: seq<Message>, d: nat, lo: nat, handlers: seq<bool>)
    requires InOrder(msgs, lo, handlers)
    ensures InOrder(DropUnforced(msgs, d), lo, handlers)
  {
    if msgs != [] && d > 0 {
      var rest := msgs[1..];
      DropKeepsOrder(rest, if msgs[0].force then d else d - 1, msgs[0].id + 1, handlers);
      if msgs[0].force {
        assert DropUnforced(msgs, d)[1..] == DropUnforced(rest, d);
      } else {
        InOrderFromBelow(DropUnforced(rest, d - 1), msgs[0].id + 1, lo, handlers);
      }
    }
  }

  lemma {:induction false} DropBehind(front: seq<Message>, rest: seq<Message>, d: nat, lo: nat, handlers: seq<bool>)
    requires InOrder(front + rest, lo, handlers)
    ensures InOrder(front + DropUnforced(rest, d), lo, handlers)
  {
    if front == [] {
      assert front + rest == rest && front + DropUnforced(rest, d) == DropUnforced(rest, d);
      DropKeepsOrder(rest, d, lo, handlers);
    } else {
      assert (front + rest)[1..] == front[1..] + rest;
      DropBehind(front[1..], rest, d, front[0].id + 1, handlers);
      assert (front + DropUnforced(rest, d))[1..] == front[1..] + DropUnforced(rest, d);
    }
  }

  lemma {:induction false} AppendKeepsOrder(msgs: seq<Message>, lo: nat, handlers: seq<bool>, m: Message)
    requires InOrder(msgs, lo, handlers) && m.id == |handlers| && lo <= m.id
    ensures InOrder(msgs + [m], lo, handlers + [m.handler])
  {
    if msgs == [] {
      assert (msgs + [m])[1..] == [];
    } else {
      AppendKeepsOrder(msgs[1..], msgs[0].id + 1, handlers, m);
      assert (msgs + [m])[1..] == msgs[1..] + [m];
    }
  }

  lemma EvictKeepsOrder(queue: seq<Message>, limit: nat, handlers: seq<bool>)
    requires InOrder(queue, 0, handlers)
    ensures InOrder(Evict(queue, limit), 0, handlers)
    ensures queue == [] <==> Evict(queue, limit) == []
    ensures queue != [] ==> Evict(queue, limit)[0] == queue[0]
  {
    FrontRest(queue, 2);
    DropBehind(Front(queue, 2), Rest(queue, 2), Need(|queue|, limit), 0, handlers);
  }

  lemma OwedEvict(queue: seq<Message>, limit: nat, id: nat)
    ensures Owed(queue, id) == Owed(Evicted(queue, limit), id) + Owed(Evict(queue, limit), id)
  {
    var front, rest, d := Front(queue, 2), Rest(queue, 2), Need(|queue|, limit);
    FrontRest(queue, 2);
    OwedAppend(front, rest, id);
    OwedSplit(rest, d, id);
    OwedAppend(front, DropUnforced(rest, d), id);
  }

  lemma SendQueueOk(l: Log, e: Event)
    requires Inv(l) && Possible(l, e) && e.Send?
    ensures QueueOk(After(l, e).session, After(l, e).handlers)
  {
    var kept := Evict(l.session.queue, Limit(e.maxQueueSize));
    EvictKeepsOrder(l.session.queue, Limit(e.maxQueueSize), l.handlers);
    AppendKeepsOrder(kept, 0, l.handlers, Message(|l.handlers|, e.sendable, e.force, e.handler));
  }

  lemma OwedOne(m: Message, id: nat)
    ensures Owed([m], id) == Times(CallOf(m), id) == if m.handler && m.id == id then 1 else 0
  {
    assert [m] == [m] + [];
    CallsCons(m, []);
    assert CallOf(m) + [] == CallOf(m);
    if m.handler {
      assert CallOf(m)[1..] == [];
    }
  }

  lemma SendHandlersOk(l: Log, e: Event)
    requires Inv(l) && Possible(l, e) && e.Send?
    ensures HandlersOk(After(l, e).session, [], After(l, e).handlers)
  {
    var limit := Limit(e.maxQueueSize);
    var m := Message(|l.handlers|, e.sendable, e.force, e.handler);
    var s, s' := l.session, After(l, e).session;
    forall id: nat ensures Times(s'.called, id) + Owed(s'.queue, id) == Due(l.handlers + [e.handler], id) {
      assert Times(s.called, id) + Owed(s.queue, id) == Due(l.handlers, id);
      OwedEvict(s.queue, limit, id);
      OwedAppend(Evict(s.queue, limit), [m], id);
      OwedOne(m, id);
      TimesAppend(s.called, Calls(Evicted(s.queue, limit)), id);
    }
  }

  lemma CompleteOk(l: Log, e: Event)
    requires Inv(l) && Possible(l, e) && e.Complete?
    ensures l.session.queue != [] && Inv(After(l, e))
  {
    var s, s' := l.session, After(l, e).session;
    InOrderFromBelow(s.queue[1..], s.queue[0].id + 1, 0, l.handlers);
    forall id: nat ensures Times(s'.called, id) + Owed(s'.queue, id) == Due(l.handlers, id) {
      assert Times(s.called, id) + Owed(s.queue, id) == Due(l.handlers, id);
      OwedHead(s.queue, id);
      OwedOne(s.queue[0], id);
      TimesAppend(s.called, CallOf(s.queue[0]), id);
    }
  }

  lemma EndOk(l: Log)
    requires Inv(l) && Possible(l, End)
    ensures Inv(After(l, End))
  {
    var s, l' := l.session, After(l, End);
    forall id: nat
      ensures Times(l'.session.called, id) + Owed(l'.session.queue, id) + Owed(l'.dropped, id) == Due(l.handlers, id)
    {
      assert Times(s.called, id) + Owed(s.queue, id) == Due(l.handlers, id);
      TimesAppend(s.called, Calls(s.queue), id);
    }
  }

  lemma InvAfter(l: Log, e: Event)
    requires Inv(l) && Possible(l, e)
    ensures Inv(After(l, e))
  {
    match e
    case Send(_, _, _, _, _) =>
      SendQueueOk(l, e);
      SendHandlersOk(l, e);
    case Complete(_) =>
      CompleteOk(l, e);
    case End =>
      EndOk(l);
  }

  lemma {:induction false} InvHistory(l: Log, events: seq<Event>, l': Log)
    requires Inv(l) && History(l, events, l')
    ensures Inv(l')
    decreases |events|
  {
    if events != [] {
      InvAfter(l, events[0]);
      InvHistory(After(l, events[0]), events[1..], l');
    }
  }

  predicate Queued(msgs: seq<Message>, id: nat) {
    msgs != [] && (msgs[0].id == id || Queued(msgs[1..], id))
  }

  lemma {:induction false} OwedByQueue(msgs: seq<Message>, id: nat, lo: nat, handlers: seq<bool>)
    requires InOrder(msgs, lo, handlers)
    ensures Owed(msgs, id) == if Queued(msgs, id) then Due(handlers, id) else 0
    ensures id < lo ==> !Queued(msgs, id)
  {
    if msgs != [] {
      var rest := msgs[1..];
      OwedByQueue(rest, id, msgs[0].id + 1, handlers);
      assert msgs == [msgs[0]] + rest;
      OwedAppend([msgs[0]], rest, id);
      OwedOne(msgs[0], id);
    }
  }

  /** In every run: an operation is outstanding exactly while the queue is not empty, it is the front message's, and
      each message's handler has run exactly once if the message has left the queue (written, failed, evicted,
      aborted, or drained by a websocket session's destructor), and not at all before that, nor if it was still queued
      when an HTTP session was destroyed. A completion always finds its message. */
  lemma ExactlyOnceCompletion(kind: Kind, events: seq<Event>, l: Log, id: nat)
    requires History(Start(kind), events, l) && id < |l.handlers|
    ensures l.session.inFlight.Some? <==> l.session.queue != []
    ensures l.session.inFlight.Some? ==> l.session.inFlight.value.id == l.session.queue[0].id
    ensures Times(l.session.called, id)
            == if l.handlers[id] && !Queued(l.session.queue, id) && !Queued(l.dropped, id) then 1 else 0
    ensures l.dropped != [] ==> l.destroyed && kind == Http
  {
    InvHistory(Start(kind), events, l);
    DestroyedIsEmpty(Start(kind), events, l);
    OwedByQueue(l.session.queue, id, 0, l.handlers);
    OwedByQueue(l.dropped, id, 0, l.handlers);
    assert Times(l.session.called, id) + Owed(l.session.queue, id) + Owed(l.dropped, id) == Due(l.handlers, id);
  }

  /** A destroyed session has called every handler once, if and only if it was a websocket session, or no message with
      a handler was queued when it was destroyed. */
  lemma DestructionCompletesExactly(kind: Kind, events: seq<Event>, l: Log)
    requires History(Start(kind), events, l) && End in events
    ensures (forall id: nat :: Times(l.session.called, id) == Due(l.handlers, id))
            <==> kind == Websocket || Calls(l.dropped) == []
  {
    InvHistory(Start(kind), events, l);
    EndDestroys(Start(kind), events, l);
    DestroyedIsEmpty(Start(kind), events, l);
    forall id: nat ensures Times(l.session.called, id) + Times(Calls(l.dropped), id) == Due(l.handlers, id) {
      assert Times(l.session.called, id) + Owed(l.session.queue, id) + Owed(l.dropped, id) == Due(l.handlers, id);
    }
    if Calls(l.dropped) != [] {
      var id := Calls(l.dropped)[0];
      assert Times(Calls(l.dropped), id) > 0;
      assert Times(l.session.called, id) != Due(l.handlers, id);
    }
  }

  lemma {:induction false} DestroyedIsEmpty(l: Log, events: seq<Event>, l': Log)
    requires History(l, events, l') && (l.destroyed ==> l.session.queue == [])
    ensures l'.kind == l.kind && (l'.destroyed ==> l'.session.queue == [])
    decreases |events|
  {
    if events != [] {
      DestroyedIsEmpty(After(l, events[0]), events[1..], l');
    }
  }

  lemma {:induction false} EndDestroys(l: Log, events: seq<Event>, l': Log)
    requires History(l, events, l')
    ensures l'.destroyed <==> l.destroyed || End in events
    decreases |events|
  {
    if events != [] {
      assert events == [events[0]] + events[1..];
      EndDestroys(After(l, events[0]), events[1..], l');
    }
  }

  /** It happens: an HTTP session that is destroyed while its first message is being sent never calls its handler. */
  lemma HttpForgetsHandlers(maxQueueSize: nat, force: bool) returns (events: seq<Event>, l: Log)
    ensures History(Start(Http), events, l)
    ensures l.destroyed && l.handlers == [true] && Times(l.session.called, 0) == 0 && Queued(l.dropped, 0)
  {
    var send := Send(true, force, true, maxQueueSize, Pipeline(true));
    var sent := After(Start(Http), send);
    l := After(sent, End);
    assert [End][1..] == [];
    assert History(sent, [End], l);
    events := [send] + [End];
    assert events[1..] == [End];
    assert sent.session.queue == [Message(0, true, force, true)];
  }

  /** The message that is being written is never evicted, nor is the next one. */
  lemma InFlightIsKept(s: Session, m: Message, maxQueueSize: nat, gate: Gate)
    requires s.inFlight.Some? && s.queue != [] && s.inFlight.value.id == s.queue[0].id
    ensures var s' := AfterSend(s, m, maxQueueSize, gate);
            && s'.inFlight == s.inFlight && s'.queue[0] == s.queue[0]
            && (|s.queue| > 1 ==> |s'.queue| > 1 && s'.queue[1] == s.queue[1])
  {
    var kept := Evict(s.queue, Limit(maxQueueSize));
    assert kept[..|Front(s.queue, 2)|] == Front(s.queue, 2);
    assert kept[0] == s.queue[0];
  }

  // ---- What the events of a run say ----

  /** The messages given to the session, numbered from `from` on. */
  function Submitted(events: seq<Event>, from: nat): seq<Message> {
    if events == [] then []
    else if events[0].Send? then
      [Message(from, events[0].sendable, events[0].force, events[0].handler)] + Submitted(events[1..], from + 1)
    else Submitted(events[1..], from)
  }

  /** Every queued message is one of these, as it was given. */
  ghost predicate DrawnFrom(queue: seq<Message>, all: seq<Message>) {
    forall m :: m in queue ==> m.id < |all| && m == all[m.id]
  }

  lemma {:induction false} DropKeepsSome(msgs: seq<Message>, d: nat)
    ensures forall m :: m in DropUnforced(msgs, d) ==> m in msgs
  {
    if msgs != [] && d > 0 {
      DropKeepsSome(msgs[1..], if msgs[0].force then d else d - 1);
      assert msgs == [msgs[0]] + msgs[1..];
    }
  }

  lemma EvictKeepsSome(queue: seq<Message>, limit: nat)
    ensures forall m :: m in Evict(queue, limit) ==> m in queue
  {
    DropKeepsSome(Rest(queue, 2), Need(|queue|, limit));
    FrontRest(queue, 2);
  }

  lemma DrawnStep(l: Log, e: Event, all: seq<Message>)
    requires Possible(l, e) && |all| == |l.handlers| && DrawnFrom(l.session.queue, all)
    ensures var all' := all + Submitted([e], |all|);
            |all'| == |After(l, e).handlers| && DrawnFrom(After(l, e).session.queue, all')
  {
    assert [e][1..] == [];
    if e.Send? {
      EvictKeepsSome(l.session.queue, Limit(e.maxQueueSize));
    }
  }

  lemma {:induction false} DrawnAlong(l: Log, events: seq<Event>, l': Log, all: seq<Message>)
    requires History(l, events, l') && |all| == |l.handlers| && DrawnFrom(l.session.queue, all)
    ensures |all + Submitted(events, |all|)| == |l'.handlers|
    ensures DrawnFrom(l'.session.queue, all + Submitted(events, |all|))
    decreases |events|
  {
    if events == [] {
      assert all + [] == all;
    } else {
      var all' := all + Submitted([events[0]], |all|);
      assert [events[0]][1..] == [];
      DrawnStep(l, events[0], all);
      DrawnAlong(After(l, events[0]), events[1..], l', all');
      assert all + Submitted(events, |all|) == all' + Submitted(events[1..], |all'|);
    }
  }

  /** What is queued is what was given to the session: which bytes, whether forced, and with which handler. */
  lemma QueuedAsSubmitted(kind: Kind, events: seq<Event>, l: Log)
    requires History(Start(kind), events, l)
    ensures |Submitted(events, 0)| == |l.handlers|
    ensures forall m :: m in l.session.queue ==> m.id < |Submitted(events, 0)| && m == Submitted(events, 0)[m.id]
  {
    DrawnAlong(Start(kind), events, l, []);
    assert [] + Submitted(events, 0) == Submitted(events, 0);
  }

  /** A completion takes its own message off the queue, and no other one. */
  lemma CompletionTakesItsMessage(kind: Kind, events: seq<Event>, l: Log, gate: Gate, id: nat)
    requires History(Start(kind), events, l) && Possible(l, Complete(gate))
    ensures Queued(After(l, Complete(gate)).session.queue, id)
            <==> Queued(l.session.queue, id) && id != l.session.inFlight.value.id
  {
    InvHistory(Start(kind), events, l);
    var queue := l.session.queue;
    OwedByQueue(queue[1..], queue[0].id, queue[0].id + 1, l.handlers);
  }

  /** This event has started an operation on the front message. */
  ghost predicate Starts(l: Log, e: Event)
    requires Possible(l, e)
  {
    !e.End? && After(l, e).session.queue != [] && (e.Send? ==> l.session.queue == [])
  }

  /** In every run, an operation that starts is a write exactly if the message has bytes and, in a websocket session,
      the rate limiter lets it pass or it is forced, in an HTTP session, no response is being written. Anything else
      is aborted. No other event touches the operation. */
  lemma StartsExactly(kind: Kind, events: seq<Event>, l: Log, e: Event)
    requires History(Start(kind), events, l) && Possible(l, e)
    ensures Starts(l, e) ==>
              var s' := After(l, e).session;
              var m, passes := s'.queue[0], if e.gate.Limiter? then e.gate.open || s'.queue[0].force else e.gate.idle;
              s'.inFlight == Some(if m.sendable && passes then Write(m.id) else Abort(m.id))
    ensures e.Send? && !Starts(l, e) ==> After(l, e).session.inFlight == l.session.inFlight
  {
    InvHistory(Start(kind), events, l);
    if e.Send? {
      EvictKeepsOrder(l.session.queue, Limit(e.maxQueueSize), l.handlers);
    }
  }

  /** Every answer of the rate limiter, or of the pipelining queue, was favourable. */
  predicate Favourable(e: Event) {
    e.End? || (if e.gate.Limiter? then e.gate.open else e.gate.idle)
  }

  /** Only messages with bytes are written, and none is held back that need not be. */
  ghost predicate LaunchOk(l: Log, free: bool) {
    var s := l.session;
    s.inFlight.Some? && s.queue != [] ==>
      && (s.inFlight.value.Write? ==> s.queue[0].sendable)
      && (s.queue[0].sendable && (free || (l.kind == Websocket && s.queue[0].force)) ==> s.inFlight.value.Write?)
  }

  lemma LaunchStep(l: Log, e: Event, free: bool)
    requires Inv(l) && Possible(l, e) && LaunchOk(l, free) && (free ==> Favourable(e))
    ensures LaunchOk(After(l, e), free)
  {
    if e.Send? {
      EvictKeepsOrder(l.session.queue, Limit(e.maxQueueSize), l.handlers);
    }
  }

  lemma {:induction false} LaunchHistory(l: Log, events: seq<Event>, l': Log, free: bool)
    requires Inv(l) && LaunchOk(l, free) && History(l, events, l')
    requires free ==> forall e :: e in events ==> Favourable(e)
    ensures LaunchOk(l', free) && l'.kind == l.kind
    decreases |events|
  {
    if events != [] {
      assert events == [events[0]] + events[1..];
      LaunchStep(l, events[0], free);
      InvAfter(l, events[0]);
      LaunchHistory(After(l, events[0]), events[1..], l', free);
    }
  }

  /** In every run of a websocket session, whatever its rate limiter answers: a message without bytes is never
      written, and a forced message with bytes is written, never aborted, when its turn has come. */
  lemma ForcedMessagesAreWritten(events: seq<Event>, l: Log)
    requires History(Start(Websocket), events, l) && l.session.queue != []
    ensures !l.session.queue[0].sendable ==> l.session.inFlight == Some(Abort(l.session.queue[0].id))
    ensures l.session.queue[0].sendable && l.session.queue[0].force ==>
              l.session.inFlight == Some(Write(l.session.queue[0].id))
  {
    InvHistory(Start(Websocket), events, l);
    LaunchHistory(Start(Websocket), events, l, false);
  }

  /** In every run of either kind of session in which all answers are favourable, every message with bytes is written,
      never aborted, when its turn has come. */
  lemma FavourableRunsWrite(kind: Kind, events: seq<Event>, l: Log)
    requires History(Start(kind), events, l) && l.session.queue != [] && forall e :: e in events ==> Favourable(e)
    ensures var m := l.session.queue[0]; l.session.inFlight == Some(if m.sendable then Write(m.id) else Abort(m.id))
  {
    InvHistory(Start(kind), events, l);
    LaunchHistory(Start(kind), events, l, true);
  }

  // ---- The session object ----

  /** What the eviction loop will leave, seen from index `i`, and what it will still remove. */
  function Outlook(queue: seq<Message>, i: nat, limit: nat): seq<Message> {
    Front(queue, i) + DropUnforced(Rest(queue, i), Need(|queue|, limit))
  }

  function Doomed(queue: seq<Message>, i: nat, limit: nat): seq<Message> {
    Taken(Rest(queue, i), Need(|queue|, limit))
  }

  /** The loop, now at index `i`, is going to end with `queue'` and `called'`. */
  ghost predicate OnTrack(queue: seq<Message>, called: seq<nat>, i: nat, limit: nat, queue': seq<Message>,
                          called': seq<nat>)
  {
    Outlook(queue, i, limit) == queue' && called + Calls(Doomed(queue, i, limit)) == called'
  }

  lemma OnTrackAtStart(queue: seq<Message>, called: seq<nat>, limit: nat)
    ensures OnTrack(queue, called, 2, limit, Evict(queue, limit), called + Calls(Evicted(queue, limit)))
  {
  }

  lemma EraseAt(queue: seq<Message>, i: nat)
    requires i < |queue|
    ensures var next := queue[..i] + queue[i + 1..];
            Front(next, i) == Front(queue, i) && Rest(queue, i) == [queue[i]] + Rest(next, i)
  {
  }

  lemma OnTrackErase(queue: seq<Message>, called: seq<nat>, i: nat, limit: nat, queue': seq<Message>, called': seq<nat>)
    requires OnTrack(queue, called, i, limit, queue', called')
    requires i < |queue| && |queue| >= limit > 0 && !queue[i].force
    ensures OnTrack(queue[..i] + queue[i + 1..], called + CallOf(queue[i]), i, limit, queue', called')
  {
    var next, need := queue[..i] + queue[i + 1..], Need(|queue|, limit);
    EraseAt(queue, i);
    var m, rest := queue[i], Rest(next, i);
    DroppedHead(m, rest, need);
    CallsCons(m, Taken(rest, need - 1));
    ConcatIsAssociative(called, CallOf(m), Calls(Taken(rest, need - 1)));
  }

  lemma DroppedHead(m: Message, rest: seq<Message>, d: nat)
    requires !m.force && d > 0
    ensures DropUnforced([m] + rest, d) == DropUnforced(rest, d - 1)
    ensures Taken([m] + rest, d) == [m] + Taken(rest, d - 1)
  {
    assert ([m] + rest)[1..] == rest;
    TakenHead([m] + rest, d);
  }

  lemma OnTrackSkip(queue: seq<Message>, called: seq<nat>, i: nat, limit: nat, queue': seq<Message>, called': seq<nat>)
    requires OnTrack(queue, called, i, limit, queue', called')
    requires i < |queue| && |queue| >= limit && queue[i].force
    ensures OnTrack(queue, called, i + 1, limit, queue', called')
  {
    var rest, need := Rest(queue, i), Need(|queue|, limit);
    assert rest == [queue[i]] + Rest(queue, i + 1);
    SkipHead(rest, need);
    assert Front(queue, i + 1) == Front(queue, i) + [queue[i]];
    assert rest[1..] == Rest(queue, i + 1);
    var kept := DropUnforced(rest[1..], need);
    assert Front(queue, i) + ([queue[i]] + kept) == Front(queue, i) + [queue[i]] + kept;
  }

  lemma SkipHead(msgs: seq<Message>, d: nat)
    requires msgs != [] && msgs[0].force && d > 0
    ensures DropUnforced(msgs, d) == [msgs[0]] + DropUnforced(msgs[1..], d)
    ensures Taken(msgs, d) == Taken(msgs[1..], d)
  {
  }

  lemma OnTrackAtEnd(queue: seq<Message>, called: seq<nat>, i: nat, limit: nat, queue': seq<Message>, called': seq<nat>)
    requires OnTrack(queue, called, i, limit, queue', called')
    requires i >= |queue| || |queue| < limit
    ensures queue == queue' && called == called'
  {
    FrontRest(queue, i);
    assert Doomed(queue, i, limit) == [];
  }

  class WebsocketSession {
    var queue: seq<Message>
    var queueSize: nat
    var inFlight: Option<Operation>
    ghost var called: seq<nat>

    ghost function View(): Session
      reads this
    {
      Session(queue, inFlight, called)
    }

    constructor ()
      ensures View() == Start(Websocket).session && queueSize == 0
    {
      queue, queueSize, inFlight, called := [], 0, None, [];
    }

    /** The eviction loop. */
    method MakeRoom(limit: nat)
      requires limit > 0
      modifies `queue, `called
      ensures queue == Evict(old(queue), limit)
      ensures called == old(called) + Calls(Evicted(old(queue), limit))
    {
      ghost var queue', called' := Evict(queue, limit), called + Calls(Evicted(queue, limit));
      OnTrackAtStart(queue, called, limit);
      var i := 2;
      while i < |queue| && |queue| >= limit
        invariant i >= 2
        invariant OnTrack(queue, called, i, limit, queue', called')
        decreases |queue| - i
      {
        if !queue[i].force {
          OnTrackErase(queue, called, i, limit, queue', called');
          called := called + CallOf(queue[i]);
          queue := queue[..i] + queue[i + 1..];
          i := i - 1;
        } else {
          OnTrackSkip(queue, called, i, limit, queue', called');
        }
        i := i + 1;
      }
      OnTrackAtEnd(queue, called, i, limit, queue', called');
    }

    method OnSend(m: Message, maxQueueSize: nat, gate: Gate)
      modifies this
      ensures View() == AfterSend(old(View()), m, maxQueueSize, gate)
      ensures queueSize == |queue|
      ensures var limit := if maxQueueSize < 2 then 2 else maxQueueSize;
              && queue == Evict(old(queue), limit) + [m]
              && called == old(called) + Calls(Evicted(old(queue), limit))
      ensures |queue| > 1 ==> inFlight == old(inFlight)
      ensures |queue| == 1 ==>
                var passes := if gate.Limiter? then gate.open || m.force else gate.idle;
                inFlight == Some(if m.sendable && passes then Write(m.id) else Abort(m.id))
    {
      MakeRoom(if maxQueueSize < 2 then 2 else maxQueueSize);
      queue := queue + [m];
      queueSize := |queue|;
      if |queue| > 1 {
        return;
      }
      if MaySend(m, gate) {
        inFlight := Some(Write(m.id));
      } else {
        inFlight := Some(Abort(m.id));
      }
    }

    method OnWrite(gate: Gate)
      requires queue != []
      modifies this
      ensures View() == AfterWrite(old(View()), gate)
      ensures queueSize == |queue| && queue == old(queue)[1..] && called == old(called) + CallOf(old(queue)[0])
      ensures queue == [] ==> inFlight == None
      ensures queue != [] ==>
                var passes := if gate.Limiter? then gate.open || queue[0].force else gate.idle;
                inFlight == Some(if queue[0].sendable && passes then Write(queue[0].id) else Abort(queue[0].id))
    {
      called := called + CallOf(queue[0]);
      queue := queue[1..];
      queueSize := |queue|;
      inFlight := None;
      if queue != [] {
        var next := queue[0];
        inFlight := Some(if MaySend(next, gate) then Write(next.id) else Abort(next.id));
      }
    }

    /** The destructor's loop. */
    method Drain()
      modifies this
      ensures View() == Destroy(old(View()))
      ensures queue == [] && inFlight == None && called == old(called) + Calls(old(queue))
      ensures old(queue) != [] ==> queueSize == 0
    {
      ghost var called' := called + Calls(queue);
      while queue != []
        invariant called + Calls(queue) == called'
        invariant queue != old(queue) ==> queueSize == |queue|
        decreases |queue|
      {
        ConcatIsAssociative(called, CallOf(queue[0]), Calls(queue[1..]));
        called := called + CallOf(queue[0]);
        queue := queue[1..];
        queueSize := |queue|;
      }
      inFlight := None;
    }
  }
}
