/** An object in shared memory that any number of processes find or create by name, counted by a counter next to it.
    Finding and releasing both run under the name's own mutex, so each is one step. */
module NamedObject {
  import opened Common

  /** What happens when the object has to be constructed. `Thrown` is an exception from its constructor. */
  datatype Construction = Built | OutOfMemory | Thrown

  /** `handles` are the shared pointers with a deleter that are still alive, and whether they point to the object. */
  datatype State = State(counter: nat, present: bool, handles: map<nat, bool>)

  datatype Event =
    | Find(h: nat, nProcessMax: nat, c: Construction)  // `h` is a fresh name for the handle
    | Release(h: nat)

  ghost predicate Possible(s: State, e: Event) {
    match e
    case Find(h, _, _) => h !in s.handles
    case Release(h) => h in s.handles
  }

  /** The call gives up before it looks for the object: a plain null pointer, without a deleter. */
  predicate Refused(s: State, nProcessMax: nat) { s.counter >= nProcessMax }

  function AfterFind(s: State, h: nat, nProcessMax: nat, c: Construction): State {
    if Refused(s, nProcessMax) then s
    else if s.present || c == Built then State(s.counter + 1, true, s.handles[h := true])
    else if c == OutOfMemory then State(s.counter + 1, false, s.handles[h := false])
    else State(s.counter, false, s.handles[h := false])
  }

  function AfterRelease(s: State, h: nat): State {
    State(if s.counter > 0 then s.counter - 1 else 0,
          s.present && s.counter != 1,
          s.handles - {h})
  }

  function After(s: State, e: Event): State {
    match e
    case Find(h, nProcessMax, c) => AfterFind(s, h, nProcessMax, c)
    case Release(h) => AfterRelease(s, h)
  }

  ghost predicate History(s: State, events: seq<Event>, s': State)
    decreases |events|
  {
    if events == [] then s == s' else Possible(s, events[0]) && History(After(s, events[0]), events[1..], s')
  }

  function Start(): State { State(0, false, map[]) }

  /** The step gets as far as constructing the object, and the constructor throws. */
  predicate Throws(s: State, e: Event) {
    e.Find? && e.c == Thrown && !s.present && !Refused(s, e.nProcessMax)
  }

  /** No step of the run does. */
  ghost predicate NoneThrows(s: State, events: seq<Event>)
    decreases |events|
  {
    events == [] || (!Throws(s, events[0]) && NoneThrows(After(s, events[0]), events[1..]))
  }

  ghost predicate Limited(events: seq<Event>, most: nat) {
    forall e :: e in events && e.Find? ==> e.nProcessMax <= most
  }

  /** A handle that points to the object finds it in place. */
  ghost predicate Safe(s: State) {
    forall h {:trigger s.handles[h]} :: h in s.handles && s.handles[h] ==> s.present
  }

  ghost predicate Inv(s: State) {
    && s.counter == |s.handles|
    && Safe(s)
    && (s.present ==> s.counter > 0)
  }

  lemma SizeAfterRemove(m: map<nat, bool>, h: nat)
    requires h in m
    ensures |m - {h}| == |m| - 1
    ensures |m| == 1 ==> m - {h} == map[]
  {
    assert (m - {h}).Keys == m.Keys - {h};
  }

  lemma SizeAfterAdd(m: map<nat, bool>, h: nat, b: bool)
    requires h !in m
    ensures |m[h := b]| == |m| + 1
  {
    assert m[h := b].Keys == m.Keys + {h};
  }

  lemma InvFind(s: State, h: nat, nProcessMax: nat, c: Construction)
    requires Inv(s) && h !in s.handles && !Throws(s, Find(h, nProcessMax, c))
    ensures Inv(AfterFind(s, h, nProcessMax, c))
  {
    SizeAfterAdd(s.handles, h, true);
    SizeAfterAdd(s.handles, h, false);
  }

  lemma InvRelease(s: State, h: nat)
    requires Inv(s) && h in s.handles
    ensures Inv(AfterRelease(s, h))
  {
    SizeAfterRemove(s.handles, h);
  }

  lemma InvStep(s: State, e: Event)
    requires Inv(s) && Possible(s, e) && !Throws(s, e)
    ensures Inv(After(s, e))
    ensures s.present && !After(s, e).present ==> e.Release? && s.counter == 1 && After(s, e).counter == 0
  {
    match e
    case Find(h, nProcessMax, c) => InvFind(s, h, nProcessMax, c);
    case Release(h) => InvRelease(s, h);
  }

  lemma {:induction false} InvHistory(s: State, events: seq<Event>, s': State, most: nat)
    requires Inv(s) && s.counter <= most && History(s, events, s') && NoneThrows(s, events) && Limited(events, most)
    ensures Inv(s') && s'.counter <= most
    decreases |events|
  {
    if events != [] {
      assert events[0] in events;
      InvStep(s, events[0]);
      InvHistory(After(s, events[0]), events[1..], s', most);
    }
  }

  /** Without constructor exceptions, over any interleaving of any number of processes: the counter is the number of
      live handles, null ones included, and never exceeds the limit; a live handle that is not null has its object;
      and the object is destroyed by the next step only if that is the release that takes the counter from 1 to 0. */
  lemma CounterCountsHandles(events: seq<Event>, s: State, most: nat, next: Event)
    requires History(Start(), events, s) && NoneThrows(Start(), events) && Limited(events, most)
    requires Possible(s, next) && !Throws(s, next)
    ensures s.counter == |s.handles| <= most
    ensures Safe(s)
    ensures s.present && !After(s, next).present ==> next.Release? && s.counter == 1 && |After(s, next).handles| == 0
    ensures s.handles == map[] ==> !s.present && s.counter == 0
  {
    InvHistory(Start(), events, s, most);
    InvStep(s, next);
  }

  // ---- With constructor exceptions ----

  /** In every state of the run the counter is the number of live handles. */
  ghost predicate AlwaysCounted(s: State, events: seq<Event>)
    decreases |events|
  {
    s.counter == |s.handles| && (events == [] || AlwaysCounted(After(s, events[0]), events[1..]))
  }

  lemma {:induction false} CountedExactlyFrom(s: State, events: seq<Event>, s': State)
    requires Inv(s) && History(s, events, s')
    ensures AlwaysCounted(s, events) <==> NoneThrows(s, events)
    decreases |events|
  {
    if events != [] {
      var e := events[0];
      if Throws(s, e) {
        SizeAfterAdd(s.handles, e.h, false);
        assert !AlwaysCounted(After(s, e), events[1..]);
      } else {
        InvStep(s, e);
        CountedExactlyFrom(After(s, e), events[1..], s');
      }
    }
  }

  /** The counter tells the number of live handles throughout a run exactly if no construction in the run throws. */
  lemma CountedExactly(events: seq<Event>, s: State)
    requires History(Start(), events, s)
    ensures AlwaysCounted(Start(), events) <==> NoneThrows(Start(), events)
  {
    CountedExactlyFrom(Start(), events, s);
  }

  ghost predicate AlwaysSafe(throwing: bool) {
    forall events, s :: History(Start(), events, s) && (throwing || NoneThrows(Start(), events)) ==> Safe(s)
  }

  function MaxLimit(events: seq<Event>): nat {
    if events == [] then 0
    else
      var rest := MaxLimit(events[1..]);
      if events[0].Find? && events[0].nProcessMax > rest then events[0].nProcessMax else rest
  }

  lemma {:induction false} MaxLimitIsLimit(events: seq<Event>)
    ensures Limited(events, MaxLimit(events))
  {
    if events != [] {
      MaxLimitIsLimit(events[1..]);
      forall e | e in events && e.Find? ensures e.nProcessMax <= MaxLimit(events) {
        if e != events[0] {
          assert e in events[1..];
        }
      }
    }
  }

  /** Objects outlive their handles in all runs exactly if constructors do not throw: a failed construction leaves a
      handle that was never counted, and releasing it takes away another process's count. */
  lemma SafeExactlyWithoutExceptions(throwing: bool)
    ensures AlwaysSafe(throwing) <==> !throwing
  {
    if throwing {
      var events := [Find(0, 2, Thrown), Find(1, 2, Built), Release(0)];
      var s1 := After(Start(), events[0]);
      var s2 := After(s1, events[1]);
      var s3 := After(s2, events[2]);
      assert events[1..] == [Find(1, 2, Built), Release(0)];
      assert events[1..][1..] == [Release(0)];
      assert events[1..][1..][1..] == [];
      assert History(s2, [Release(0)], s3);
      assert History(s1, events[1..], s3);
      assert History(Start(), events, s3);
      assert s3.handles[1] && !s3.present;
      assert !Safe(s3);
    } else {
      forall events, s | History(Start(), events, s) && NoneThrows(Start(), events) ensures Safe(s) {
        MaxLimitIsLimit(events);
        InvHistory(Start(), events, s, MaxLimit(events));
      }
    }
  }

  // ---- The shared words ----

  class SharedObject {
    var counter: nat
    var present: bool
    ghost var handles: map<nat, bool>

    ghost function View(): State
      reads this
    {
      State(counter, present, handles)
    }

    constructor ()
      ensures View() == Start()
    {
      counter, present, handles := 0, false, map[];
    }

    /** `None` is a plain null pointer; otherwise a counted handle, and whether it points to the object. */
    method FindOrCreate(ghost h: nat, nProcessMax: nat, c: Construction) returns (r: Option<bool>)
      requires h !in handles
      modifies this
      ensures r.None? <==> old(counter) >= nProcessMax
      ensures r == Some(true) <==> old(counter) < nProcessMax && (old(present) || c == Built)
      ensures present <==> old(present) || r == Some(true)
      ensures counter == old(counter) + if r.None? || (c == Thrown && !old(present)) then 0 else 1
      ensures View() == AfterFind(old(View()), h, nProcessMax, c)
      ensures r.None? <==> h !in handles
      ensures r.Some? ==> handles == old(handles)[h := r.value]
    {
      if counter >= nProcessMax {
        return None;
      }
      if !present {
        match c {
          case Built => present := true;
          case OutOfMemory =>
          case Thrown =>
            handles := handles[h := false];
            return Some(false);
        }
      }
      counter := counter + 1;
      handles := handles[h := present];
      return Some(present);
    }

    method Destroy(ghost h: nat)
      requires h in handles
      modifies this
      ensures counter == if old(counter) == 0 then 0 else old(counter) - 1
      ensures present <==> old(present) && old(counter) != 1
      ensures handles == old(handles) - {h}
      ensures View() == AfterRelease(old(View()), h)
    {
      var counterOld := counter;
      if counter > 0 {
        counter := counter - 1;
      }
      if counterOld == 1 {
        present := false;
      }
      handles := handles - {h};
    }
  }
}
