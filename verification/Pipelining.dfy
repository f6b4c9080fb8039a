/** An HTTP session: requests are read and answered in order, with at most eight responses queued. */
module Pipelining {
  const LIMIT: nat := 8

  /** `items` are the queued responses, named by the number of the request they answer; the front one is being
      written. `readOps` and `writeOps` count outstanding operations, `requests` the requests handled, `written` lists
      the responses that have left the queue, written and not saying close. `closed`: no write will be started any
      more (a write failed, or said close); `deaf`: no read will be (end of stream, an error, or a protocol upgrade).
      */
  datatype Session = Session(
    items: seq<nat>, requests: nat, written: seq<nat>, readOps: nat, writeOps: nat, closed: bool, deaf: bool)

  datatype ReadResult = Request | Upgrade | EndOfStream | ReadError
  datatype WriteResult = Done(close: bool) | WriteError

  datatype Event = ReadDone(r: ReadResult) | WriteDone(w: WriteResult)

  /** What `run` does: the first read. */
  function Start(): Session { Session([], 0, [], 1, 0, false, false) }

  predicate IsFull(items: seq<nat>) { |items| >= LIMIT }

  // ---- The handlers as functions ----

  /** The queue's operator(): store the response and start writing it if it is alone. */
  function Respond(s: Session): Session {
    s.(items := s.items + [s.requests], requests := s.requests + 1,
       writeOps := s.writeOps + (if s.items == [] then 1 else 0))
  }

  function AfterRead(s: Session, r: ReadResult): Session
    requires s.readOps > 0
  {
    var done := s.(readOps := s.readOps - 1);
    match r
    case Request =>
      var answered := Respond(done);
      if IsFull(answered.items) then answered else answered.(readOps := answered.readOps + 1)
    case _ => done.(deaf := true)
  }

  function AfterWrite(s: Session, w: WriteResult): Session
    requires s.writeOps > 0
  {
    var done := s.(writeOps := s.writeOps - 1);
    match w
    case WriteError => done.(closed := true)
    case Done(true) => done.(closed := true)
    case Done(false) =>
      if s.items == [] then done  // the source asserts that this does not happen
      else
        var rest := s.items[1..];
        done.(items := rest, written := s.written + [s.items[0]],
              writeOps := done.writeOps + (if rest == [] then 0 else 1),
              readOps := done.readOps + (if IsFull(s.items) then 1 else 0))
  }

  predicate Possible(s: Session, e: Event) {
    if e.ReadDone? then s.readOps > 0 else s.writeOps > 0
  }

  function After(s: Session, e: Event): Session
    requires Possible(s, e)
  {
    match e
    case ReadDone(r) => AfterRead(s, r)
    case WriteDone(w) => AfterWrite(s, w)
  }

  ghost predicate History(s: Session, events: seq<Event>, s': Session)
    decreases |events|
  {
    if events == [] then s == s' else Possible(s, events[0]) && History(After(s, events[0]), events[1..], s')
  }

  // ---- The invariant ----

  function Numbers(n: nat): seq<nat> { seq(n, i requires 0 <= i => i) }

  /** Holds in every run, also after errors, closes and upgrades. */
  ghost predicate Inv(s: Session) {
    && |s.items| <= LIMIT
    && s.readOps == (if s.deaf || IsFull(s.items) then 0 else 1)
    && s.writeOps == (if s.closed || s.items == [] then 0 else 1)
    && (s.closed ==> s.items != [])
    && (s.deaf ==> !IsFull(s.items))
    && s.written + s.items == Numbers(s.requests)
  }

  lemma InvStep(s: Session, e: Event)
    requires Inv(s) && Possible(s, e)
    ensures Inv(After(s, e))
    ensures e.WriteDone? ==> s.items != []
  {
    if e.ReadDone? {
      assert Numbers(s.requests + 1) == Numbers(s.requests) + [s.requests];
      assert s.written + (s.items + [s.requests]) == s.written + s.items + [s.requests];
    } else {
      assert s.written + [s.items[0]] + s.items[1..] == s.written + s.items;
    }
  }

  lemma {:induction false} InvHistory(s: Session, events: seq<Event>, s': Session)
    requires Inv(s) && History(s, events, s')
    ensures Inv(s')
    decreases |events|
  {
    if events != [] {
      InvStep(s, events[0]);
      InvHistory(After(s, events[0]), events[1..], s');
    }
  }

  // ---- What the events of a run say ----

  /** A write has failed, or its response said that the connection is to be closed. */
  predicate Closing(events: seq<Event>) {
    WriteDone(WriteError) in events || WriteDone(Done(true)) in events
  }

  /** A read has met the end of the stream, an error, or an upgrade. */
  predicate Deafening(events: seq<Event>) {
    ReadDone(EndOfStream) in events || ReadDone(ReadError) in events || ReadDone(Upgrade) in events
  }

  function Times(events: seq<Event>, e: Event): nat {
    if events == [] then 0 else (if events[0] == e then 1 else 0) + Times(events[1..], e)
  }

  lemma MarksStep(s: Session, e: Event)
    requires Inv(s) && Possible(s, e)
    ensures After(s, e).closed <==> s.closed || Closing([e])
    ensures After(s, e).deaf <==> s.deaf || Deafening([e])
    ensures After(s, e).requests == s.requests + Times([e], ReadDone(Request))
    ensures |After(s, e).written| == |s.written| + Times([e], WriteDone(Done(false)))
  {
    InvStep(s, e);
    assert [e][1..] == [];
  }

  lemma {:induction false} MarksAlong(s: Session, events: seq<Event>, s': Session)
    requires Inv(s) && History(s, events, s')
    ensures s'.closed <==> s.closed || Closing(events)
    ensures s'.deaf <==> s.deaf || Deafening(events)
    ensures s'.requests == s.requests + Times(events, ReadDone(Request))
    ensures |s'.written| == |s.written| + Times(events, WriteDone(Done(false)))
    decreases |events|
  {
    if events != [] {
      var e, later := events[0], events[1..];
      assert events == [e] + later && [e][1..] == [];
      MarksStep(s, e);
      InvStep(s, e);
      MarksAlong(After(s, e), later, s');
    }
  }

  /** No write is started any more exactly if one has failed or said close, and no read exactly if one has not brought
      a request; there is one response for every request read, and one leaves the queue with every write that succeeds
      and does not say close. */
  lemma EventsDecide(events: seq<Event>, s: Session)
    requires History(Start(), events, s)
    ensures s.closed <==> Closing(events)
    ensures s.deaf <==> Deafening(events)
    ensures s.requests == Times(events, ReadDone(Request))
    ensures |s.written| == Times(events, WriteDone(Done(false)))
  {
    MarksAlong(Start(), events, s);
  }

  /** Until the first error, close or upgrade: at most eight responses are queued, one read is outstanding exactly while
      fewer than eight are and none when eight are, and one write is outstanding exactly while any is. Responses are
      written in the order of their requests, none skipped. */
  lemma BackPressure(events: seq<Event>, s: Session)
    requires History(Start(), events, s) && !Closing(events) && !Deafening(events)
    ensures |s.items| <= 8
    ensures s.readOps == if |s.items| < 8 then 1 else 0
    ensures s.writeOps == if s.items != [] then 1 else 0
    ensures s.written + s.items == Numbers(Times(events, ReadDone(Request)))
  {
    InvHistory(Start(), events, s);
    EventsDecide(events, s);
  }

  /** Whatever has happened: never more than eight responses queued, never two reads or two writes at once, never a
      write completion without its response, and the responses written are those of the first requests, in order. */
  lemma SafeAfterErrors(events: seq<Event>, s: Session)
    requires History(Start(), events, s)
    ensures |s.items| <= 8 && s.readOps <= 1 && s.writeOps <= 1
    ensures s.writeOps == 1 ==> s.items != []
    ensures s.written == Numbers(|s.written|) && |s.written| + |s.items| == Times(events, ReadDone(Request))
    ensures Deafening(events) ==> s.readOps == 0
    ensures Closing(events) ==> s.writeOps == 0
  {
    InvHistory(Start(), events, s);
    EventsDecide(events, s);
    assert (s.written + s.items)[..|s.written|] == s.written;
    assert Numbers(s.requests)[..|s.written|] == Numbers(|s.written|);
  }

  /** After an error or a close no further response is written, and after an error, the end of the stream or an
      upgrade no further request is answered, whatever follows. */
  lemma NothingAfterTheEnd(events: seq<Event>, s: Session, later: seq<Event>, s': Session)
    requires History(Start(), events, s) && History(s, later, s')
    ensures Closing(events) ==> s'.written == s.written && s'.writeOps == 0
    ensures Deafening(events) ==> s'.requests == s.requests && s'.readOps == 0
  {
    Reached(events, s);
    Silence(s, later, s');
  }

  lemma Reached(events: seq<Event>, s: Session)
    requires History(Start(), events, s)
    ensures Inv(s) && (s.closed <==> Closing(events)) && (s.deaf <==> Deafening(events))
  {
    InvHistory(Start(), events, s);
    EventsDecide(events, s);
  }

  lemma {:induction false} Silence(s: Session, later: seq<Event>, s': Session)
    requires Inv(s) && History(s, later, s')
    ensures s.closed ==> s'.written == s.written && s'.writeOps == 0
    ensures s.deaf ==> s'.requests == s.requests && s'.readOps == 0
    decreases |later|
  {
    if later != [] {
      InvStep(s, later[0]);
      MarksStep(s, later[0]);
      Silence(After(s, later[0]), later[1..], s');
    }
  }

  /** A stall is possible only in one way: with nothing outstanding the session has failed or been taken over. */
  lemma NeverStalls(events: seq<Event>, s: Session)
    requires History(Start(), events, s) && s.readOps == 0 && s.writeOps == 0
    ensures Closing(events) || Deafening(events)
  {
    InvHistory(Start(), events, s);
    EventsDecide(events, s);
  }

  // ---- The objects ----

  class HttpSession {
    var items: seq<nat>
    var requests: nat
    var readOps: nat
    var writeOps: nat
    var closed: bool
    var deaf: bool
    ghost var written: seq<nat>

    ghost function View(): Session
      reads this
    {
      Session(items, requests, written, readOps, writeOps, closed, deaf)
    }

    constructor ()
      ensures View() == Start()
    {
      items, requests, written, readOps, writeOps, closed, deaf := [], 0, [], 1, 0, false, false;
    }

    /** The pipelining queue takes a response. */
    method Enqueue(response: nat)
      modifies `items, `writeOps
      ensures items == old(items) + [response]
      ensures writeOps == old(writeOps) + (if old(items) == [] then 1 else 0)
    {
      items := items + [response];
      if |items| == 1 {
        writeOps := writeOps + 1;
      }
    }

    /** The pipelining queue drops the response just written; the answer asks the caller to read again. */
    method Dequeue() returns (wasFull: bool)
      requires items != []
      modifies `items, `writeOps, `written
      ensures wasFull <==> |old(items)| >= 8
      ensures items == old(items)[1..] && written == old(written) + [old(items)[0]]
      ensures writeOps == old(writeOps) + (if |old(items)| > 1 then 1 else 0)
    {
      wasFull := |items| >= LIMIT;
      written := written + [items[0]];
      items := items[1..];
      if items != [] {
        writeOps := writeOps + 1;
      }
    }

    method OnRead(r: ReadResult)
      requires Inv(View()) && Possible(View(), ReadDone(r))
      modifies this
      ensures Inv(View()) && View() == AfterRead(old(View()), r)
      ensures r != Request ==> deaf && items == old(items) && readOps == old(readOps) - 1
      ensures r == Request ==>
                && deaf == old(deaf) && items == old(items) + [old(requests)]
                && readOps == old(readOps) - (if |items| < 8 then 0 else 1)
    {
      InvStep(View(), ReadDone(r));
      readOps := readOps - 1;
      if r != Request {
        deaf := true;
        return;
      }
      Enqueue(requests);
      requests := requests + 1;
      if |items| < LIMIT {
        readOps := readOps + 1;
      }
    }

    method OnWrite(w: WriteResult)
      requires Inv(View()) && Possible(View(), WriteDone(w))
      modifies this
      ensures Inv(View()) && View() == AfterWrite(old(View()), w)
      ensures w != Done(false) ==> closed && items == old(items) && writeOps == old(writeOps) - 1
      ensures w == Done(false) ==>
                && closed == old(closed) && old(items) != [] && items == old(items)[1..]
                && readOps == old(readOps) + (if |old(items)| >= 8 then 1 else 0)
    {
      InvStep(View(), WriteDone(w));
      writeOps := writeOps - 1;
      if w == WriteError || w == Done(true) {
        closed := true;
        return;
      }
      var wasFull := Dequeue();
      if wasFull {
        readOps := readOps + 1;
      }
    }
  }
}
