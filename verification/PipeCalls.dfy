/** Whole calls on a pipe, when nobody interferes, are runs of steps. */
module PipeCalls {
  import opened Common
  import opened PipeRing
  import opened PipeProtocol

  lemma Then<T>(s: State<T>, a: Action<T>, acts: seq<Action<T>>, s': State<T>)
    requires Shape(s.ring) && Enabled(s, a) && Run(Next(s, a), acts, s')
    ensures Run(s, [a] + acts, s')
  {
    assert ([a] + acts)[1..] == acts;
  }

  lemma {:induction false} RunConcat<T>(
      s: State<T>, acts: seq<Action<T>>, mid: State<T>, more: seq<Action<T>>, s': State<T>)
    requires Run(s, acts, mid) && Run(mid, more, s')
    ensures Run(s, acts + more, s')
    decreases |acts|
  {
    if acts == [] {
      assert acts + more == more;
    } else {
      RunConcat(Next(s, acts[0]), acts[1..], mid, more, s');
      assert (acts + more)[1..] == acts[1..] + more;
    }
  }

  /** Actor `t` alone, taking the steps of Send, does what `SendAlone` (and so `PipeIPC.Send`) does, and its answer
      tells of an error exactly if it gave up waiting. */
  lemma SendIsARun<T>(s: State<T>, t: nat, x: T, mode: Mode) returns (acts: seq<Action<T>>, s': State<T>)
    requires Shape(s.ring) && t < |s.actors| && s.actors[t].Idle?
    ensures Run(s, acts, s') && s'.ring == SendAlone(s.ring, x, mode).0
    ensures SendAlone(s.ring, x, mode).1.Sent? ==> s'.actors == s.actors
    ensures SendAlone(s.ring, x, mode).1 == SendBlocked ==> s' == At(s, t, Waiting(x, mode)) && !Enabled(s', Acquire(t))
    ensures s'.pushed == s.pushed + (if !s.ring.shutdown && s.ring.nempty > 0 then [x] else [])
    ensures SendAlone(s.ring, x, mode).1 == Sent(true) <==> GiveUp(t) in acts
  {
    var s1 := Next(s, Enter(t, x, mode));
    if s.ring.shutdown {
      s' := s1;
      Then(s, Enter(t, x, mode), [], s');
      acts := [Enter(t, x, mode)] + [];
      assert s'.actors == s.actors;
    } else if s.ring.nempty == 0 {
      if mode.WaitIfFull? {
        s' := s1;
        Then(s, Enter(t, x, mode), [], s');
        acts := [Enter(t, x, mode)] + [];
      } else {
        s' := Next(s1, GiveUp(t));
        Then(s1, GiveUp(t), [], s');
        Then(s, Enter(t, x, mode), [GiveUp(t)], s');
        acts := [Enter(t, x, mode)] + [GiveUp(t)];
        assert s'.actors == s.actors;
      }
    } else {
      acts, s' := FinishSend(s1, t);
      Then(s, Enter(t, x, mode), acts, s');
      acts := [Enter(t, x, mode)] + acts;
      assert s'.actors == s.actors;
    }
  }

  lemma FinishSend<T>(s: State<T>, t: nat) returns (acts: seq<Action<T>>, s': State<T>)
    requires Shape(s.ring) && Enabled(s, Acquire(t)) && !s.ring.shutdown
    ensures Run(s, acts, s')
    ensures s'.ring == PostStored(Push(TakeEmpty(s.ring), s.actors[t].x))
    ensures s'.actors == s.actors[t := Idle] && s'.pushed == s.pushed + [s.actors[t].x]
    ensures GiveUp(t) !in acts
  {
    var s1 := Next(s, Acquire(t));
    var s2 := Next(s1, Check(t));
    var s3 := Next(s2, Store(t));
    s' := Next(s3, Announce(t));
    Then(s3, Announce(t), [], s');
    Then(s2, Store(t), [Announce(t)], s');
    Then(s1, Check(t), [Store(t)] + [Announce(t)], s');
    Then(s, Acquire(t), [Check(t)] + ([Store(t)] + [Announce(t)]), s');
    acts := [Acquire(t)] + ([Check(t)] + ([Store(t)] + [Announce(t)]));
  }

  /** Likewise for a Receive that is not left waiting. */
  lemma ReceiveIsARun<T>(s: State<T>, t: nat, timed: bool) returns (acts: seq<Action<T>>, s': State<T>)
    requires Shape(s.ring) && t < |s.actors| && s.actors[t].Idle? && s.ring.nstored > 0
    ensures Run(s, acts, s') && s'.actors == s.actors
    ensures s'.ring == ReceiveAlone(s.ring, timed).0
    ensures ReceiveAlone(s.ring, timed).1 == Received(s.ring.items[s.ring.indexPop])
    ensures var got := s.ring.items[s.ring.indexPop];
            && s'.pushed == s.pushed
            && s'.received == (if got.Some? then s.received + [got.value] else s.received)
            && s'.empties == (if got.Some? then s.empties else s.empties + 1)
  {
    var s1 := Next(s, Awaken(t));
    var s2 := Next(s1, Take(t));
    s' := Next(s2, Free(t));
    Then(s2, Free(t), [], s');
    Then(s1, Take(t), [Free(t)], s');
    Then(s, Awaken(t), [Take(t)] + [Free(t)], s');
    acts := [Awaken(t)] + ([Take(t)] + [Free(t)]);
    assert s'.actors == s.actors;
  }

  /** And for Shutdown. */
  lemma ShutdownIsARun<T>(s: State<T>, t: nat) returns (acts: seq<Action<T>>, s': State<T>)
    requires Shape(s.ring) && t < |s.actors| && s.actors[t].Idle?
    ensures Run(s, acts, s') && s' == s.(ring := ShutdownAlone(s.ring))
  {
    var s1 := Next(s, SetFlag(t));
    var s2 := Next(s1, WakeReceiver(t));
    s' := Next(s2, WakeSender(t));
    Then(s2, WakeSender(t), [], s');
    Then(s1, WakeReceiver(t), [WakeSender(t)], s');
    Then(s, SetFlag(t), [WakeReceiver(t)] + [WakeSender(t)], s');
    acts := [SetFlag(t)] + ([WakeReceiver(t)] + [WakeSender(t)]);
    assert s'.actors == s.actors;
  }
}
