/** A pool that replaces itself by one twice as large when it runs out. Replaced generations stay alive until their last
    handle is released. */
module Grower {
  import opened Common
  import P = PooledHandles

  /** One pool of the grower: `pools` are its objects and control blocks. `objectRefs` and `controlRefs` count the
      owners of its two memory regions: the grower while the pool is current, and a copy of the deleter and of the
      allocator in every control block. `issued` counts the objects lent, `made` the handles made. */
  datatype Generation =
    Generation(size: nat, pools: P.Pools, objectRefs: nat, controlRefs: nat, issued: nat, made: nat)

  /** `count` is countPerElement; the last generation is the current pool. */
  datatype State = State(count: nat, gens: seq<Generation>)

  /** A step of some generation's pools, or the replacement of a current pool that cannot lend, after which the call
      tries the new one. Making a handle runs under the grower's mutex, releasing one does not. */
  datatype Event = Step(g: nat, s: P.Step) | Grow

  predicate ObjectsFreed(gen: Generation) { gen.objectRefs == 0 }

  predicate ControlsFreed(gen: Generation) { gen.controlRefs == 0 }

  function NewGeneration(size: nat): Generation {
    var blocks := seq(size, i requires 0 <= i => i);
    Generation(size, P.Pools(blocks, blocks, {}, map[], {}, {}), 1, 1, 0, 0)
  }

  /** A control block owns both regions while it exists. */
  function After(gen: Generation, s: P.Step, count: nat): Generation
    requires P.Possible(gen.pools, s, count)
    requires s.FreeControl? ==> gen.objectRefs > 0 && gen.controlRefs > 0
  {
    var next := gen.(pools := P.After(gen.pools, s, count));
    match s
    case LoanObject => next.(issued := gen.issued + 1)
    case LoanControl(_) =>
      next.(objectRefs := gen.objectRefs + 1, controlRefs := gen.controlRefs + 1, made := gen.made + 1)
    case FreeControl(_) => next.(objectRefs := gen.objectRefs - 1, controlRefs := gen.controlRefs - 1)
    case _ => next
  }

  /** The grower lets go of a pool. */
  function Retire(gen: Generation): Generation
    requires gen.objectRefs > 0 && gen.controlRefs > 0
  {
    gen.(objectRefs := gen.objectRefs - 1, controlRefs := gen.controlRefs - 1)
  }

  function Last(s: State): nat
    requires s.gens != []
  {
    |s.gens| - 1
  }

  function Current(s: State): Generation
    requires s.gens != []
  {
    s.gens[Last(s)]
  }

  function NextSize(size: nat): nat { if size == 0 then 1 else 2 * size }

  predicate IsMake(s: P.Step) { s.LoanObject? || s.Lose? || s.LoanControl? }

  predicate Possible(s: State, e: Event) {
    && s.gens != []
    && match e
       case Step(g, st) =>
         && g < |s.gens| && P.Possible(s.gens[g].pools, st, s.count)
         && (IsMake(st) ==> g == Last(s))
         && (st.LoanObject? ==> s.gens[g].pools.building == {})
         && (st.FreeControl? ==> s.gens[g].objectRefs > 0 && s.gens[g].controlRefs > 0)
       case Grow =>
         && Current(s).pools.building == {} && !P.CanMake(Current(s).pools, s.count)
         && Current(s).objectRefs > 0 && Current(s).controlRefs > 0
  }

  /** A fresh generation, and its first object lent if elements hold anything. */
  function FirstLoan(size: nat, count: nat): Generation {
    var gen := NewGeneration(size);
    if P.CanMake(gen.pools, count) then After(gen, P.LoanObject, count) else gen
  }

  function Next(s: State, e: Event): State
    requires Possible(s, e)
  {
    match e
    case Step(g, st) => s.(gens := s.gens[g := After(s.gens[g], st, s.count)])
    case Grow => s.(gens := s.gens[Last(s) := Retire(Current(s))] + [FirstLoan(NextSize(Current(s).size), s.count)])
  }

  function Start(n0: nat, count: nat): State { State(count, [NewGeneration(n0)]) }

  ghost predicate History(s: State, events: seq<Event>, s': State)
    decreases |events|
  {
    if events == [] then s == s' else Possible(s, events[0]) && History(Next(s, events[0]), events[1..], s')
  }

  // ---- The invariant ----

  function SizeAfter(n0: nat, k: nat): nat {
    if k == 0 then n0 else NextSize(SizeAfter(n0, k - 1))
  }

  ghost predicate RefsOk(gen: Generation, current: bool) {
    gen.objectRefs == gen.controlRefs == |gen.pools.live| + |gen.pools.tearing| + (if current then 1 else 0)
  }

  ghost predicate LoansOk(gen: Generation, current: bool, count: nat) {
    && gen.issued == gen.made + |gen.pools.lost| + |gen.pools.building|
    && gen.issued >= |gen.pools.live| + |gen.pools.lost| + |gen.pools.building|
    && (gen.pools.building != {} ==> current)
    && (count == 0 ==> gen.issued == 0)
  }

  ghost predicate GenOk(gen: Generation, current: bool, count: nat) {
    P.Inv(gen.pools, gen.size) && RefsOk(gen, current) && LoansOk(gen, current, count)
  }

  /** A replaced generation has lent all it had, and a pool that replaced another one has lent at least one object. */
  ghost predicate SpentOk(gen: Generation, current: bool, first: bool, count: nat) {
    count > 0 ==> (!current ==> gen.issued >= gen.size) && (current && !first ==> gen.issued > 0)
  }

  ghost predicate Fits(gen: Generation, k: nat, last: nat, n0: nat, count: nat) {
    gen.size == SizeAfter(n0, k) && GenOk(gen, k == last, count) && SpentOk(gen, k == last, k == 0, count)
  }

  ghost predicate Inv(s: State, n0: nat) {
    s.gens != [] && forall k {:trigger s.gens[k]} :: 0 <= k < |s.gens| ==> Fits(s.gens[k], k, Last(s), n0, s.count)
  }

  lemma NewGenOk(size: nat, count: nat)
    ensures GenOk(NewGeneration(size), true, count)
  {
  }

  lemma RefsStep(gen: Generation, st: P.Step, current: bool, count: nat)
    requires P.Inv(gen.pools, gen.size) && RefsOk(gen, current) && P.Possible(gen.pools, st, count)
    ensures st.FreeControl? ==> gen.objectRefs > 0 && gen.controlRefs > 0
    ensures RefsOk(After(gen, st, count), current)
  {
    match st
    case LoanControl(o) => P.MapAdd(gen.pools.live, o, gen.pools.controls[|gen.pools.controls| - 1]);
    case DisposeObject(o) => P.MapRemove(gen.pools.live, o);
    case FreeControl(c) => assert |gen.pools.tearing| > 0;
    case _ =>
  }

  lemma LoansStep(gen: Generation, st: P.Step, current: bool, count: nat)
    requires P.Inv(gen.pools, gen.size) && LoansOk(gen, current, count) && P.Possible(gen.pools, st, count)
    requires (IsMake(st) ==> current) && (st.FreeControl? ==> gen.objectRefs > 0 && gen.controlRefs > 0)
    ensures LoansOk(After(gen, st, count), current, count)
  {
    match st
    case LoanObject => assert gen.pools.objects[|gen.pools.objects| - 1] !in gen.pools.building;
    case LoanControl(o) =>
      P.MapAdd(gen.pools.live, o, gen.pools.controls[|gen.pools.controls| - 1]);
      assert |gen.pools.building| > 0;
    case DisposeObject(o) => P.MapRemove(gen.pools.live, o);
    case Lose(o) => assert |gen.pools.building| > 0 && o !in gen.pools.lost;
    case FreeControl(c) =>
  }

  lemma GenStep(gen: Generation, st: P.Step, current: bool, count: nat)
    requires GenOk(gen, current, count) && P.Possible(gen.pools, st, count) && (IsMake(st) ==> current)
    ensures st.FreeControl? ==> gen.objectRefs > 0 && gen.controlRefs > 0
    ensures GenOk(After(gen, st, count), current, count) && After(gen, st, count).size == gen.size
    ensures After(gen, st, count).issued >= gen.issued
  {
    P.InvStep(gen.pools, gen.size, st, count);
    RefsStep(gen, st, current, count);
    LoansStep(gen, st, current, count);
  }

  lemma FirstLoanOk(size: nat, count: nat)
    requires size > 0
    ensures GenOk(FirstLoan(size, count), true, count) && FirstLoan(size, count).size == size
    ensures SpentOk(FirstLoan(size, count), true, false, count)
  {
    NewGenOk(size, count);
    if count > 0 {
      GenStep(NewGeneration(size), P.LoanObject, true, count);
    }
  }

  lemma RetireOk(gen: Generation, count: nat)
    requires GenOk(gen, true, count) && gen.pools.building == {} && !P.CanMake(gen.pools, count)
    ensures gen.objectRefs > 0 && gen.controlRefs > 0
    ensures GenOk(Retire(gen), false, count) && SpentOk(Retire(gen), false, false, count)
  {
  }

  lemma StepInv(s: State, n0: nat, g: nat, st: P.Step)
    requires Inv(s, n0) && Possible(s, Step(g, st))
    ensures Inv(Next(s, Step(g, st)), n0)
  {
    assert Fits(s.gens[g], g, Last(s), n0, s.count);
    GenStep(s.gens[g], st, g == Last(s), s.count);
    var s' := Next(s, Step(g, st));
    forall k | 0 <= k < |s'.gens| ensures Fits(s'.gens[k], k, Last(s'), n0, s.count) {
      assert Fits(s.gens[k], k, Last(s), n0, s.count);
    }
  }

  lemma GrowInv(s: State, n0: nat)
    requires Inv(s, n0) && Possible(s, Grow)
    ensures Inv(Next(s, Grow), n0)
  {
    var s' := Next(s, Grow);
    forall k | 0 <= k < |s'.gens| ensures Fits(s'.gens[k], k, Last(s'), n0, s.count) {
      if k < Last(s') {
        assert Fits(s.gens[k], k, Last(s), n0, s.count);
        if k == Last(s) {
          RetireOk(s.gens[k], s.count);
        }
      } else {
        FirstLoanOk(NextSize(Current(s).size), s.count);
      }
    }
  }

  lemma NextInv(s: State, n0: nat, e: Event)
    requires Inv(s, n0) && Possible(s, e)
    ensures Inv(Next(s, e), n0) && Next(s, e).count == s.count
  {
    match e
    case Step(g, st) => StepInv(s, n0, g, st);
    case Grow => GrowInv(s, n0);
  }

  lemma {:induction false} InvHistory(s: State, n0: nat, events: seq<Event>, s': State)
    requires Inv(s, n0) && History(s, events, s')
    ensures Inv(s', n0) && s'.count == s.count
    decreases |events|
  {
    if events != [] {
      NextInv(s, n0, events[0]);
      InvHistory(Next(s, events[0]), n0, events[1..], s');
    }
  }

  lemma ReachableInv(n0: nat, count: nat, events: seq<Event>, s: State)
    requires History(Start(n0, count), events, s)
    ensures Inv(s, n0) && s.count == count
  {
    NewGenOk(n0, count);
    InvHistory(Start(n0, count), n0, events, s);
  }

  // ---- The growth bound ----

  function Pow2(k: nat): nat { if k == 0 then 1 else 2 * Pow2(k - 1) }

  lemma {:induction false} SizeIsPower(n0: nat, k: nat)
    requires n0 > 0
    ensures SizeAfter(n0, k) == n0 * Pow2(k) > 0
  {
    if k > 0 {
      SizeIsPower(n0, k - 1);
    }
  }

  function Issued(gens: seq<Generation>): nat {
    if gens == [] then 0 else Issued(gens[..|gens| - 1]) + gens[|gens| - 1].issued
  }

  function MadeAndLost(gens: seq<Generation>): nat {
    if gens == [] then 0
    else MadeAndLost(gens[..|gens| - 1]) + gens[|gens| - 1].made + |gens[|gens| - 1].pools.lost|
  }

  function Made(gens: seq<Generation>): nat {
    if gens == [] then 0 else Made(gens[..|gens| - 1]) + gens[|gens| - 1].made
  }

  /** Between calls every object lent has become a handle or was lost to an exception. */
  lemma {:induction false} LoansAreMadeOrLost(gens: seq<Generation>)
    requires forall k {:trigger gens[k]} :: 0 <= k < |gens| ==> gens[k].issued == gens[k].made + |gens[k].pools.lost|
    ensures Issued(gens) == MadeAndLost(gens)
  {
    if gens != [] {
      LoansAreMadeOrLost(gens[..|gens| - 1]);
    }
  }

  lemma DoubleLessOne(n: nat, p: nat)
    ensures n * (2 * p - 1) == n * (p - 1) + n * p
  {
  }

  /** Replaced generations lent at least as many objects as they had. */
  lemma {:induction false} IssuedAtLeast(gens: seq<Generation>, n0: nat, k: nat)
    requires n0 > 0 && k <= |gens|
    requires forall i {:trigger gens[i]} :: 0 <= i < k ==> gens[i].issued >= gens[i].size == SizeAfter(n0, i)
    ensures Issued(gens[..k]) >= n0 * (Pow2(k) - 1)
  {
    if k > 0 {
      IssuedAtLeast(gens, n0, k - 1);
      SizeIsPower(n0, k - 1);
      assert gens[..k][..k - 1] == gens[..k - 1];
      DoubleLessOne(n0, Pow2(k - 1));
    }
  }

  predicate Idle(s: State) { s.gens != [] && Current(s).pools.building == {} }

  lemma {:induction false} MadeNone(gens: seq<Generation>)
    requires forall k {:trigger gens[k]} :: 0 <= k < |gens| ==> gens[k].made == 0
    ensures Made(gens) == 0
  {
    if gens != [] {
      MadeNone(gens[..|gens| - 1]);
    }
  }

  lemma SpentFacts(s: State, n0: nat)
    requires Inv(s, n0) && s.count > 0
    ensures forall i {:trigger s.gens[i]} :: 0 <= i < Last(s) ==> s.gens[i].issued >= s.gens[i].size == SizeAfter(n0, i)
    ensures Last(s) >= 1 ==> Current(s).issued > 0
  {
    forall i | 0 <= i < |s.gens|
      ensures i < Last(s) ==> s.gens[i].issued >= s.gens[i].size == SizeAfter(n0, i)
      ensures i == Last(s) >= 1 ==> s.gens[i].issued > 0
    {
      assert Fits(s.gens[i], i, Last(s), n0, s.count);
    }
  }

  lemma IssuedMore(gens: seq<Generation>, n0: nat, last: nat)
    requires |gens| == last + 1 && last >= 1 && n0 > 0 && gens[last].issued > 0
    requires forall i {:trigger gens[i]} :: 0 <= i < last ==> gens[i].issued >= gens[i].size == SizeAfter(n0, i)
    ensures n0 * (Pow2(last) - 1) < Issued(gens)
  {
    IssuedAtLeast(gens, n0, last);
  }

  lemma BoundOfInv(s: State, n0: nat)
    requires Inv(s, n0) && n0 > 0 && s.count > 0
    ensures Last(s) >= 1 ==> n0 * (Pow2(Last(s)) - 1) < Issued(s.gens)
  {
    SpentFacts(s, n0);
    if Last(s) >= 1 {
      IssuedMore(s.gens, n0, Last(s));
    }
  }

  // ---- What the events of a run say ----

  /** How often the pool was replaced. */
  function Grows(events: seq<Event>): nat {
    if events == [] then 0 else (if events[0].Grow? then 1 else 0) + Grows(events[1..])
  }

  /** How many objects were lent; a replacement lends one if elements hold anything. */
  function Loans(events: seq<Event>, count: nat): nat {
    if events == [] then 0
    else (if (if events[0].Grow? then count > 0 else events[0].s.LoanObject?) then 1 else 0) + Loans(events[1..], count)
  }

  /** How many handles were made. */
  function Bindings(events: seq<Event>): nat {
    if events == [] then 0
    else (if events[0].Step? && events[0].s.LoanControl? then 1 else 0) + Bindings(events[1..])
  }

  /** How many objects were lost to exceptions. */
  function Losses(events: seq<Event>): nat {
    if events == [] then 0 else (if events[0].Step? && events[0].s.Lose? then 1 else 0) + Losses(events[1..])
  }

  lemma {:induction false} SumsUpdate(gens: seq<Generation>, g: nat, gen: Generation)
    requires g < |gens|
    ensures Issued(gens[g := gen]) == Issued(gens) - gens[g].issued + gen.issued
    ensures Made(gens[g := gen]) == Made(gens) - gens[g].made + gen.made
    ensures MadeAndLost(gens[g := gen])
            == MadeAndLost(gens) - gens[g].made - |gens[g].pools.lost| + gen.made + |gen.pools.lost|
  {
    var last := |gens| - 1;
    if g < last {
      assert gens[g := gen][..last] == gens[..last][g := gen];
      SumsUpdate(gens[..last], g, gen);
    } else {
      assert gens[g := gen][..last] == gens[..last];
    }
  }

  lemma SumsAppend(gens: seq<Generation>, gen: Generation)
    ensures Issued(gens + [gen]) == Issued(gens) + gen.issued
    ensures Made(gens + [gen]) == Made(gens) + gen.made
    ensures MadeAndLost(gens + [gen]) == MadeAndLost(gens) + gen.made + |gen.pools.lost|
  {
    assert (gens + [gen])[..|gens|] == gens;
  }

  lemma CountersStep(s: State, n0: nat, e: Event)
    requires Inv(s, n0) && Possible(s, e)
    ensures var gens' := Next(s, e).gens;
            && |gens'| == |s.gens| + Grows([e])
            && Issued(gens') == Issued(s.gens) + Loans([e], s.count)
            && Made(gens') == Made(s.gens) + Bindings([e])
            && MadeAndLost(gens') == MadeAndLost(s.gens) + Bindings([e]) + Losses([e])
  {
    assert [e][1..] == [];
    match e
    case Step(g, st) =>
      assert Fits(s.gens[g], g, Last(s), n0, s.count);
      SumsUpdate(s.gens, g, After(s.gens[g], st, s.count));
      GenerationCounts(s.gens[g], st, s.count);
    case Grow =>
      var next := FirstLoan(NextSize(Current(s).size), s.count);
      FirstLoanCounts(NextSize(Current(s).size), s.count);
      SumsUpdate(s.gens, Last(s), Retire(Current(s)));
      SumsAppend(s.gens[Last(s) := Retire(Current(s))], next);
  }

  lemma GenerationCounts(gen: Generation, st: P.Step, count: nat)
    requires P.Inv(gen.pools, gen.size) && P.Possible(gen.pools, st, count)
    requires st.FreeControl? ==> gen.objectRefs > 0 && gen.controlRefs > 0
    ensures var gen' := After(gen, st, count);
            && gen'.issued == gen.issued + (if st.LoanObject? then 1 else 0)
            && gen'.made == gen.made + (if st.LoanControl? then 1 else 0)
            && |gen'.pools.lost| == |gen.pools.lost| + (if st.Lose? then 1 else 0)
  {
    P.ObjectsMove(gen.pools, gen.size, st, count);
  }

  lemma FirstLoanCounts(size: nat, count: nat)
    requires size > 0
    ensures var gen := FirstLoan(size, count);
            gen.issued == (if count > 0 then 1 else 0) && gen.made == |gen.pools.lost| == 0
  {
  }

  lemma {:induction false} CountersAlong(s: State, n0: nat, events: seq<Event>, s': State)
    requires Inv(s, n0) && History(s, events, s')
    ensures |s'.gens| == |s.gens| + Grows(events)
    ensures Issued(s'.gens) == Issued(s.gens) + Loans(events, s.count)
    ensures Made(s'.gens) == Made(s.gens) + Bindings(events)
    ensures MadeAndLost(s'.gens) == MadeAndLost(s.gens) + Bindings(events) + Losses(events)
    decreases |events|
  {
    if events != [] {
      assert [events[0]][1..] == [];
      CountersStep(s, n0, events[0]);
      NextInv(s, n0, events[0]);
      CountersAlong(Next(s, events[0]), n0, events[1..], s');
    }
  }

  lemma EventsDecide(n0: nat, count: nat, events: seq<Event>, s: State)
    requires History(Start(n0, count), events, s)
    ensures |s.gens| == 1 + Grows(events)
    ensures Issued(s.gens) == Loans(events, count)
    ensures Made(s.gens) == Bindings(events) && MadeAndLost(s.gens) == Bindings(events) + Losses(events)
  {
    NewGenOk(n0, count);
    assert Start(n0, count).gens == [] + [NewGeneration(n0)];
    SumsAppend([], NewGeneration(n0));
    CountersAlong(Start(n0, count), n0, events, s);
  }

  /** After `r` replacements the current pool has n0 * 2^r elements, and more objects have been lent than all the
      replaced pools hold. Between calls those objects are the handles made and the objects lost to exceptions. */
  lemma GrowthBound(n0: nat, count: nat, events: seq<Event>, s: State)
    requires n0 > 0 && count > 0 && History(Start(n0, count), events, s)
    ensures s.gens != []
    ensures Current(s).size == n0 * Pow2(Grows(events))
    ensures Grows(events) >= 1 ==> n0 * (Pow2(Grows(events)) - 1) < Loans(events, count)
    ensures Idle(s) ==> Loans(events, count) == Bindings(events) + Losses(events)
  {
    RunBound(n0, count, events, s);
    EventsDecide(n0, count, events, s);
  }

  lemma RunBound(n0: nat, count: nat, events: seq<Event>, s: State)
    requires n0 > 0 && count > 0 && History(Start(n0, count), events, s)
    ensures s.gens != []
    ensures Current(s).size == n0 * Pow2(Last(s))
    ensures Last(s) >= 1 ==> n0 * (Pow2(Last(s)) - 1) < Issued(s.gens)
    ensures Idle(s) ==> Issued(s.gens) == MadeAndLost(s.gens)
  {
    ReachableInv(n0, count, events, s);
    SizeIsPower(n0, Last(s));
    BoundOfInv(s, n0);
    if Idle(s) {
      LoansAreMadeOrLost(s.gens);
    }
  }

  lemma {:induction false} SizeFromNothing(k: nat)
    ensures SizeAfter(0, k) == if k == 0 then 0 else Pow2(k - 1)
    ensures Pow2(k) > 0
  {
    if k > 0 {
      SizeFromNothing(k - 1);
    }
  }

  lemma RunSize(n0: nat, count: nat, events: seq<Event>, s: State)
    requires History(Start(n0, count), events, s)
    ensures s.gens != [] && Current(s).size == SizeAfter(n0, Last(s))
  {
    ReachableInv(n0, count, events, s);
  }

  /** A pool that starts without elements goes through 1, 2, 4, ... */
  lemma GrowthFromNothing(count: nat, events: seq<Event>, s: State)
    requires History(Start(0, count), events, s)
    ensures s.gens != [] && Current(s).size == if Grows(events) == 0 then 0 else Pow2(Grows(events) - 1)
  {
    RunSize(0, count, events, s);
    EventsDecide(0, count, events, s);
    SizeFromNothing(Last(s));
  }

  ghost predicate NoneThrows(events: seq<Event>) {
    forall e :: e in events && e.Step? ==> !e.s.Lose?
  }

  lemma {:induction false} NothingIsLost(events: seq<Event>)
    requires NoneThrows(events)
    ensures Losses(events) == 0
  {
    if events != [] {
      assert events[0] in events;
      assert NoneThrows(events[1..]) by {
        assert forall e :: e in events[1..] ==> e in events;
      }
      NothingIsLost(events[1..]);
    }
  }

  /** Between calls more handles have been made than all the replaced pools hold. */
  ghost predicate Amortised(n0: nat, events: seq<Event>, s: State) {
    Idle(s) && Grows(events) >= 1 ==> n0 * (Pow2(Grows(events)) - 1) < Bindings(events)
  }

  /** `mayThrow`: constructors of elements may throw. */
  ghost predicate AlwaysAmortised(n0: nat, count: nat, mayThrow: bool) {
    forall events, s :: History(Start(n0, count), events, s) && (mayThrow || NoneThrows(events))
                        ==> Amortised(n0, events, s)
  }

  /** The bound on the handles holds in every run exactly when elements hold at least one object and constructors cannot
      throw: with `countPerElement` 0 every call fails and replaces the pool all the same, and an object whose
      constructor throws is never handed out again. */
  lemma GrowthBoundExactly(n0: nat, count: nat, mayThrow: bool)
    requires n0 > 0
    ensures AlwaysAmortised(n0, count, mayThrow) <==> count > 0 && !mayThrow
  {
    if count > 0 && !mayThrow {
      forall events, s | History(Start(n0, count), events, s) && NoneThrows(events)
        ensures Amortised(n0, events, s)
      {
        GrowthBound(n0, count, events, s);
        NothingIsLost(events);
      }
    } else if count == 0 {
      var s := Next(Start(n0, count), Grow);
      assert [Grow][1..] == [];
      assert History(Start(n0, count), [Grow], s);
      assert NoneThrows([Grow]);
      assert Grows([Grow]) == 1 && Bindings([Grow]) == 0;
      assert n0 * (Pow2(1) - 1) >= 0;
      assert !Amortised(n0, [Grow], s);
    } else {
      var events, s := LoseAndGrow(n0, count);
      EventsDecide(n0, count, events, s);
      assert !Amortised(n0, events, s);
    }
  }

  lemma Then(s: State, e: Event, events: seq<Event>, s': State)
    requires Possible(s, e) && History(Next(s, e), events, s')
    ensures History(s, [e] + events, s')
  {
    assert ([e] + events)[1..] == events;
  }

  lemma {:induction false} Concat(s: State, events: seq<Event>, mid: State, more: seq<Event>, s': State)
    requires History(s, events, mid) && History(mid, more, s')
    ensures History(s, events + more, s')
    decreases |events|
  {
    if events == [] {
      assert events + more == more;
    } else {
      Concat(Next(s, events[0]), events[1..], mid, more, s');
      assert (events + more)[1..] == events[1..] + more;
    }
  }

  /** Every object of a first generation that has made nothing is lent, and lost. */
  lemma {:induction false} LoseAll(s: State) returns (events: seq<Event>, s': State)
    requires |s.gens| == 1 && s.count > 0 && Idle(s) && Current(s).made == 0
    ensures History(s, events, s') && |s'.gens| == 1 && s'.count == s.count && Idle(s')
    ensures Current(s').made == 0 && Current(s').pools.objects == [] && Current(s').size == Current(s).size
    ensures Current(s').objectRefs == Current(s).objectRefs && Current(s').controlRefs == Current(s).controlRefs
    decreases |Current(s).pools.objects|
  {
    if Current(s).pools.objects == [] {
      return [], s;
    }
    var o := Current(s).pools.objects[|Current(s).pools.objects| - 1];
    var s1 := Next(s, Step(0, P.LoanObject));
    var s2 := Next(s1, Step(0, P.Lose(o)));
    events, s' := LoseAll(s2);
    Then(s1, Step(0, P.Lose(o)), events, s');
    Then(s, Step(0, P.LoanObject), [Step(0, P.Lose(o))] + events, s');
    events := [Step(0, P.LoanObject)] + ([Step(0, P.Lose(o))] + events);
  }

  lemma LoseAndGrow(n0: nat, count: nat) returns (events: seq<Event>, s: State)
    requires n0 > 0 && count > 0
    ensures History(Start(n0, count), events, s) && Idle(s) && Last(s) == 1 && Made(s.gens) == 0
    ensures n0 * (Pow2(1) - 1) >= 0
  {
    var first, s1 := LoseAll(Start(n0, count));
    var s2 := Next(s1, Grow);
    var o := NextSize(n0) - 1;
    assert Current(s2).pools.building == {o};
    s := Next(s2, Step(1, P.Lose(o)));
    Then(s2, Step(1, P.Lose(o)), [], s);
    Then(s1, Grow, [Step(1, P.Lose(o))] + [], s);
    events := first + ([Grow] + ([Step(1, P.Lose(o))] + []));
    Concat(Start(n0, count), first, s1, [Grow] + ([Step(1, P.Lose(o))] + []), s);
    MadeNone(s.gens);
  }

  lemma {:induction false} NothingLent(s: State, events: seq<Event>, s': State)
    requires s.count == 0 && History(s, events, s')
    requires forall k {:trigger s.gens[k]} :: 0 <= k < |s.gens| ==> s.gens[k].pools.building == {}
    ensures Loans(events, 0) == Bindings(events) == 0
    decreases |events|
  {
    if events != [] {
      NothingLent(Next(s, events[0]), events[1..], s');
    }
  }

  /** With no objects per element no pool ever lends anything, so that every call replaces the pool. */
  lemma EmptyElementsGrowForever(n0: nat, events: seq<Event>, s: State)
    requires History(Start(n0, 0), events, s)
    ensures s.gens != [] && Possible(s, Grow) && !Possible(s, Step(Last(s), P.LoanObject))
    ensures Loans(events, 0) == Bindings(events) == 0
  {
    NothingLent(Start(n0, 0), events, s);
    ReachableInv(n0, 0, events, s);
    assert GenOk(Current(s), true, 0);
    assert |Current(s).pools.building| == 0;
  }

  // ---- Generation safety ----

  /** In every reachable state both regions of a generation are freed exactly when it has been replaced and its last
      handle is gone, control block included; so no step on any handle touches freed memory, and all blocks are
      accounted for. */
  lemma GenerationSafety(n0: nat, count: nat, events: seq<Event>, s: State, g: nat)
    requires History(Start(n0, count), events, s) && g < |s.gens|
    ensures P.Inv(s.gens[g].pools, s.gens[g].size)
    ensures ObjectsFreed(s.gens[g]) <==> g < Last(s) && s.gens[g].pools.live == map[] && s.gens[g].pools.tearing == {}
    ensures ControlsFreed(s.gens[g]) <==> ObjectsFreed(s.gens[g])
    ensures forall st :: Possible(s, Step(g, st)) ==> !ObjectsFreed(s.gens[g]) && !ControlsFreed(s.gens[g])
  {
    ReachableInv(n0, count, events, s);
    var p := s.gens[g].pools;
    assert p.live == map[] <==> |p.live| == 0;
    forall st | Possible(s, Step(g, st)) ensures !ObjectsFreed(s.gens[g]) {
      if st.DisposeObject? {
        assert |p.live| > 0 by { assert st.o in p.live.Keys; }
      }
    }
  }

  /** A release puts the object and then the control block back where they came from, touches no other generation, and
      the second half frees the memory if and only if the generation was replaced and this was its last handle. */
  lemma ReleaseGoesHome(n0: nat, count: nat, events: seq<Event>, s: State, g: nat, st: P.Step)
    requires History(Start(n0, count), events, s) && Possible(s, Step(g, st)) && (st.DisposeObject? || st.FreeControl?)
    ensures var s', p := Next(s, Step(g, st)), s.gens[g].pools;
            && |s'.gens| == |s.gens|
            && (forall k {:trigger s'.gens[k]} :: 0 <= k < |s.gens| && k != g ==> s'.gens[k] == s.gens[k])
            && !ObjectsFreed(s.gens[g]) && !ControlsFreed(s.gens[g])
            && (st.DisposeObject? ==>
                  && s'.gens[g].pools.objects == p.objects + [st.o] && st.o !in p.objects
                  && s'.gens[g].pools.tearing == p.tearing + {p.live[st.o]} && !ObjectsFreed(s'.gens[g]))
            && (st.FreeControl? ==>
                  && s'.gens[g].pools.controls == p.controls + [st.c] && st.c !in p.controls
                  && (ObjectsFreed(s'.gens[g]) <==> g < Last(s) && p.live == map[] && p.tearing == {st.c}))
  {
    var s' := Next(s, Step(g, st));
    SafetyAround(n0, count, events, s, g, st);
    if st.FreeControl? {
      assert s'.gens[g].pools.tearing == s.gens[g].pools.tearing - {st.c};
      assert s'.gens[g].pools.tearing == {} <==> s.gens[g].pools.tearing == {st.c};
    } else {
      assert s.gens[g].pools.live[st.o] in s'.gens[g].pools.tearing;
    }
  }

  lemma SafetyAround(n0: nat, count: nat, events: seq<Event>, s: State, g: nat, st: P.Step)
    requires History(Start(n0, count), events, s) && Possible(s, Step(g, st))
    ensures P.Inv(s.gens[g].pools, s.gens[g].size) && !ObjectsFreed(s.gens[g]) && !ControlsFreed(s.gens[g])
    ensures var gen := Next(s, Step(g, st)).gens[g];
            ObjectsFreed(gen) <==> g < Last(s) && gen.pools.live == map[] && gen.pools.tearing == {}
  {
    var s' := Next(s, Step(g, st));
    GenerationSafety(n0, count, events, s, g);
    Then(s, Step(g, st), [], s');
    Concat(Start(n0, count), events, s, [Step(g, st)] + [], s');
    GenerationSafety(n0, count, events + ([Step(g, st)] + []), s', g);
  }

  // ---- Whole calls, one at a time ----

  /** Nobody is making or releasing a handle. */
  ghost predicate Quiet(gens: seq<Generation>) {
    forall k {:trigger gens[k]} :: 0 <= k < |gens| ==> gens[k].pools.building == {} && gens[k].pools.tearing == {}
  }

  predicate CanLend(s: State)
    requires s.gens != []
  {
    P.CanMake(Current(s).pools, s.count)
  }

  /** The object that make_pooled lends has been lent; what follows is its control block, or an exception. */
  function Finish(o: nat, throws: bool): P.Step { if throws then P.Lose(o) else P.LoanControl(o) }

  /** A make_pooled has lent `o`, and there is a control block for it; otherwise all is quiet. */
  ghost predicate Making(s: State, o: nat) {
    && s.gens != []
    && Current(s).pools.building == {o} && Current(s).pools.tearing == {} && Current(s).pools.controls != []
    && Quiet(s.gens[..Last(s)])
  }

  lemma ReachableFits(n0: nat, count: nat, log: seq<Event>, s: State, g: nat)
    requires History(Start(n0, count), log, s) && g < |s.gens|
    ensures Fits(s.gens[g], g, Last(s), n0, count) && s.count == count
  {
    ReachableInv(n0, count, log, s);
  }

  lemma LoanReady(n0: nat, count: nat, log: seq<Event>, s: State)
    requires History(Start(n0, count), log, s) && s.gens != [] && Quiet(s.gens) && CanLend(s)
    ensures Possible(s, Step(Last(s), P.LoanObject))
    ensures var p := Current(s).pools; Making(Next(s, Step(Last(s), P.LoanObject)), p.objects[|p.objects| - 1])
  {
    ReachableFits(n0, count, log, s, Last(s));
    assert Next(s, Step(Last(s), P.LoanObject)).gens[..Last(s)] == s.gens[..Last(s)];
  }

  lemma FirstLoanMakes(size: nat, count: nat)
    requires size > 0
    ensures var p := FirstLoan(size, count).pools;
            && p.tearing == {} && p.controls != []
            && p.building == if count == 0 then {} else {size - 1}
  {
  }

  lemma GrowReady(n0: nat, count: nat, log: seq<Event>, s: State)
    requires History(Start(n0, count), log, s) && s.gens != [] && Quiet(s.gens) && !CanLend(s)
    ensures Possible(s, Grow)
    ensures var s' := Next(s, Grow); if s.count == 0 then Quiet(s'.gens) else Making(s', NextSize(Current(s).size) - 1)
  {
    var last := Last(s);
    assert Current(s).objectRefs > 0 && Current(s).controlRefs > 0 by {
      ReachableFits(n0, count, log, s, last);
    }
    FirstLoanMakes(NextSize(Current(s).size), s.count);
    var s' := Next(s, Grow);
    assert Quiet(s'.gens[..last + 1]);
    assert s'.gens == s'.gens[..last + 1] + [Current(s')];
  }

  lemma FinishReady(s: State, o: nat, throws: bool)
    requires Making(s, o)
    ensures Possible(s, Step(Last(s), Finish(o, throws)))
    ensures var s' := Next(s, Step(Last(s), Finish(o, throws)));
            Quiet(s'.gens) && Current(s').size == Current(s).size && (!throws ==> o in Current(s').pools.live)
  {
    var s' := Next(s, Step(Last(s), Finish(o, throws)));
    forall k | 0 <= k < |s'.gens| ensures s'.gens[k].pools.building == {} && s'.gens[k].pools.tearing == {} {
      if k < Last(s) {
        assert s'.gens[k] == s.gens[..Last(s)][k];
      }
    }
  }

  lemma ReleaseReady(n0: nat, count: nat, log: seq<Event>, s: State, g: nat, o: nat)
    requires History(Start(n0, count), log, s) && g < |s.gens| && Quiet(s.gens) && o in s.gens[g].pools.live
    ensures Possible(s, Step(g, P.DisposeObject(o)))
    ensures var s1, c := Next(s, Step(g, P.DisposeObject(o))), s.gens[g].pools.live[o];
            && Possible(s1, Step(g, P.FreeControl(c)))
            && Quiet(Next(s1, Step(g, P.FreeControl(c))).gens)
  {
    var s1, c := Next(s, Step(g, P.DisposeObject(o))), s.gens[g].pools.live[o];
    assert s.gens[g].objectRefs > 0 && s.gens[g].controlRefs > 0 by {
      ReachableFits(n0, count, log, s, g);
      assert |s.gens[g].pools.live| > 0 by { assert o in s.gens[g].pools.live.Keys; }
    }
    assert s1.gens[g].pools.tearing == {c};
  }

  lemma Extend(s0: State, log: seq<Event>, s: State, e: Event)
    requires History(s0, log, s) && Possible(s, e)
    ensures History(s0, log + [e], Next(s, e))
  {
    Then(s, e, [], Next(s, e));
    assert [e] + [] == [e];
    Concat(s0, log, s, [e], Next(s, e));
  }

  /** What make_pooled comes back with. `NoMemory`: the segment could not hold the next generation. */
  datatype Outcome = Null | Threw | NoMemory | Pooled(handle: Handle)

  /** A handle knows the generation that issued its blocks. */
  datatype Handle = Handle(g: nat, obj: nat, ctl: nat)

  /** The live handles of all generations. */
  ghost function Live(gens: seq<Generation>): set<Handle> {
    set g, o | 0 <= g < |gens| && o in gens[g].pools.live :: Handle(g, o, gens[g].pools.live[o])
  }

  /** The objects of all generations that were lost to exceptions. */
  ghost function Lost(gens: seq<Generation>): set<(nat, nat)> {
    set g, o | 0 <= g < |gens| && o in gens[g].pools.lost :: (g, o)
  }

  lemma LiveMember(gens: seq<Generation>, h: Handle)
    ensures h in Live(gens) <==> h.g < |gens| && h.obj in gens[h.g].pools.live && gens[h.g].pools.live[h.obj] == h.ctl
  {
    if h.g < |gens| && h.obj in gens[h.g].pools.live && gens[h.g].pools.live[h.obj] == h.ctl {
      assert h == Handle(h.g, h.obj, gens[h.g].pools.live[h.obj]);
    }
  }

  /** Generations whose live and lost objects are the same have the same handles. */
  lemma SameHandles(gens: seq<Generation>, gens': seq<Generation>)
    requires |gens| <= |gens'|
    requires forall g {:trigger gens'[g]} :: 0 <= g < |gens'| ==>
               && gens'[g].pools.live == (if g < |gens| then gens[g].pools.live else map[])
               && gens'[g].pools.lost == (if g < |gens| then gens[g].pools.lost else {})
    ensures Live(gens') == Live(gens) && Lost(gens') == Lost(gens)
  {
    forall h ensures h in Live(gens') <==> h in Live(gens) {
      LiveMember(gens, h);
      LiveMember(gens', h);
    }
    assert Lost(gens') == Lost(gens);
  }

  lemma LoanedHandles(s: State)
    requires s.gens != [] && Possible(s, Step(Last(s), P.LoanObject))
    ensures var gens' := Next(s, Step(Last(s), P.LoanObject)).gens;
            Live(gens') == Live(s.gens) && Lost(gens') == Lost(s.gens)
  {
    SameHandles(s.gens, Next(s, Step(Last(s), P.LoanObject)).gens);
  }

  lemma GrownHandles(s: State)
    requires Possible(s, Grow)
    ensures Live(Next(s, Grow).gens) == Live(s.gens) && Lost(Next(s, Grow).gens) == Lost(s.gens)
  {
    SameHandles(s.gens, Next(s, Grow).gens);
  }

  lemma FinishedHandles(s: State, o: nat, throws: bool)
    requires Making(s, o) && o !in Current(s).pools.live && o !in Current(s).pools.lost
    ensures var p, gens' := Current(s).pools, Next(s, Step(Last(s), Finish(o, throws))).gens;
            if throws then Live(gens') == Live(s.gens) && Lost(gens') == Lost(s.gens) + {(Last(s), o)}
            else
              && Live(gens') == Live(s.gens) + {Handle(Last(s), o, p.controls[|p.controls| - 1])}
              && Lost(gens') == Lost(s.gens)
    ensures (Last(s), o) !in Lost(s.gens) && forall c :: Handle(Last(s), o, c) !in Live(s.gens)
  {
    var p, gens' := Current(s).pools, Next(s, Step(Last(s), Finish(o, throws))).gens;
    var made := Handle(Last(s), o, p.controls[|p.controls| - 1]);
    forall h ensures h in Live(gens') <==> h in Live(s.gens) || (!throws && h == made) {
      LiveMember(s.gens, h);
      LiveMember(gens', h);
    }
    forall c ensures Handle(Last(s), o, c) !in Live(s.gens) {
      LiveMember(s.gens, Handle(Last(s), o, c));
    }
    assert Lost(gens') == if throws then Lost(s.gens) + {(Last(s), o)} else Lost(s.gens);
  }

  lemma DisposedHandles(s: State, g: nat, o: nat)
    requires Possible(s, Step(g, P.DisposeObject(o)))
    ensures var gens' := Next(s, Step(g, P.DisposeObject(o))).gens;
            Live(gens') == Live(s.gens) - {Handle(g, o, s.gens[g].pools.live[o])} && Lost(gens') == Lost(s.gens)
  {
    var gens' := Next(s, Step(g, P.DisposeObject(o))).gens;
    forall h ensures h in Live(gens') <==> h in Live(s.gens) && h != Handle(g, o, s.gens[g].pools.live[o]) {
      LiveMember(s.gens, h);
      LiveMember(gens', h);
    }
    assert Lost(gens') == Lost(s.gens);
  }

  class MemPoolGrowerIPC {
    const initial: nat
    const countPerElement: nat
    const growthRate: nat := 2
    var nElements: nat
    var nReconstructions: nat
    var gens: seq<Generation>
    ghost var log: seq<Event>

    ghost function View(): State
      reads this
    {
      State(countPerElement, gens)
    }

    /** The generations are those of a run, which `log` tells. */
    ghost predicate Reached()
      reads this
    {
      && History(Start(initial, countPerElement), log, View())
      && gens != [] && nReconstructions == |gens| - 1 && nElements == gens[|gens| - 1].size
    }

    /** And nobody is making or releasing a handle. */
    ghost predicate Valid()
      reads this
    {
      Reached() && Quiet(gens)
    }

    predicate IsLive(h: Handle)
      reads this
    {
      h.g < |gens| && h.obj in gens[h.g].pools.live && gens[h.g].pools.live[h.obj] == h.ctl
    }

    constructor (n0: nat, count: nat)
      ensures Valid() && View() == Start(n0, count) && initial == n0
    {
      initial, countPerElement, nElements, nReconstructions := n0, count, n0, 0;
      gens, log := [NewGeneration(n0)], [];
    }

    /** One step on the pools of generation `g`. */
    method Take(g: nat, st: P.Step)
      requires Reached() && Possible(View(), Step(g, st))
      modifies `gens, `log
      ensures Reached() && View() == Next(old(View()), Step(g, st)) && log == old(log) + [Step(g, st)]
    {
      Extend(Start(initial, countPerElement), log, View(), Step(g, st));
      gens := gens[g := After(gens[g], st, countPerElement)];
      log := log + [Step(g, st)];
    }

    /** The replacement of a pool that cannot lend, and the first loan of the new one. */
    method ReConstruct()
      requires Reached() && Possible(View(), Grow)
      modifies this
      ensures Reached() && View() == Next(old(View()), Grow) && log == old(log) + [Grow]
      ensures nElements == if old(nElements) == 0 then 1 else 2 * old(nElements)
    {
      Extend(Start(initial, countPerElement), log, View(), Grow);
      var newSize := if nElements == 0 then 1 else growthRate * nElements;
      var g := |gens| - 1;
      gens := gens[g := Retire(gens[g])] + [FirstLoan(newSize, countPerElement)];
      nElements := newSize;
      nReconstructions := nReconstructions + 1;
      log := log + [Grow];
    }

    /** The rest of `pool.make_pooled` once the object `o` is lent. */
    method FinishMake(o: nat, throws: bool) returns (r: Outcome)
      requires Reached() && Making(View(), o)
      modifies `gens, `log
      ensures Valid() && |gens| == old(|gens|)
      ensures log == old(log) + [Step(nReconstructions, Finish(o, throws))]
      ensures if throws then r == Threw else r.Pooled? && r.handle.g == nReconstructions && r.handle.obj == o
      ensures r.Pooled? ==>
                && IsLive(r.handle) && r.handle !in old(Live(gens))
                && Live(gens) == old(Live(gens)) + {r.handle} && Lost(gens) == old(Lost(gens))
      ensures r == Threw ==>
                && Live(gens) == old(Live(gens))
                && (nReconstructions, o) !in old(Lost(gens)) && Lost(gens) == old(Lost(gens)) + {(nReconstructions, o)}
    {
      FinishReady(View(), o, throws);
      MakingIsNew(View(), o);
      FinishedHandles(View(), o, throws);
      Take(nReconstructions, Finish(o, throws));
      r := if throws then Threw else Pooled(Handle(nReconstructions, o, gens[nReconstructions].pools.live[o]));
    }

    /** An object being built is neither live nor lost. */
    lemma MakingIsNew(s: State, o: nat)
      requires Reached() && s == View() && Making(s, o)
      ensures o !in Current(s).pools.live && o !in Current(s).pools.lost
    {
      ReachableFits(initial, countPerElement, log, s, Last(s));
    }

    /** The loan of a make: the object lent, or none because there is no memory for the next generation or elements hold
        no objects. Live handles and lost objects stay as they are. */
    method LoanObject(granted: bool) returns (o: Option<nat>)
      requires Valid()
      modifies this
      ensures Reached() && Live(gens) == old(Live(gens)) && Lost(gens) == old(Lost(gens)) && old(log) <= log
      ensures o.Some? <==> countPerElement > 0 && (CanLend(old(View())) || granted)
      ensures if o.Some? then Making(View(), o.value) else Valid()
      ensures nReconstructions == old(nReconstructions) + (if CanLend(old(View())) || !granted then 0 else 1)
      ensures nReconstructions == old(nReconstructions) && o.None? ==> View() == old(View())
    {
      if gens[nReconstructions].pools.objects != [] && countPerElement > 0 {
        LoanReady(initial, countPerElement, log, View());
        LoanedHandles(View());
        o := Some(gens[nReconstructions].pools.objects[|gens[nReconstructions].pools.objects| - 1]);
        Take(nReconstructions, P.LoanObject);
      } else {
        if !granted {
          return None;
        }
        GrowReady(initial, countPerElement, log, View());
        GrownHandles(View());
        ReConstruct();
        o := if countPerElement == 0 then None else Some(nElements - 1);
      }
    }

    /** `granted`: the segment has the memory if a new generation is needed. `throws`: an element's constructor throws.
        The handle is a new one, and no other handle comes or goes; exactly an exception loses an object. */
    method MakePooled(granted: bool, throws: bool) returns (r: Outcome)
      requires Valid()
      modifies this
      ensures Valid() && old(log) <= log
      ensures r == NoMemory <==> !CanLend(old(View())) && !granted
      ensures r == Null <==> r != NoMemory && countPerElement == 0
      ensures r == Threw <==> r != NoMemory && r != Null && throws
      ensures r.Pooled? ==> r.handle.g == nReconstructions && IsLive(r.handle) && r.handle !in old(Live(gens))
      ensures Live(gens) == if r.Pooled? then old(Live(gens)) + {r.handle} else old(Live(gens))
      ensures r != Threw ==> Lost(gens) == old(Lost(gens))
      ensures r == Threw ==> exists o: nat :: (nReconstructions, o) !in old(Lost(gens))
                                         && Lost(gens) == old(Lost(gens)) + {(nReconstructions, o)}
      ensures r == NoMemory ==> View() == old(View())
      ensures nReconstructions == old(nReconstructions) + (if CanLend(old(View())) || r == NoMemory then 0 else 1)
    {
      var hadRoom := gens[nReconstructions].pools.objects != [] && countPerElement > 0;
      var o := LoanObject(granted);
      if o.None? {
        return if !hadRoom && !granted then NoMemory else Null;
      }
      r := FinishMake(o.value, throws);
    }

    /** The deleter, and then the control block's own end: that handle goes, and no other one. */
    method Release(h: Handle)
      requires Valid() && IsLive(h)
      modifies `gens, `log
      ensures Valid() && Live(gens) == old(Live(gens)) - {h} && Lost(gens) == old(Lost(gens))
      ensures log == old(log) + [Step(h.g, P.DisposeObject(h.obj))] + [Step(h.g, P.FreeControl(h.ctl))]
    {
      ReleaseReady(initial, countPerElement, log, View(), h.g, h.obj);
      DisposedHandles(View(), h.g, h.obj);
      Take(h.g, P.DisposeObject(h.obj));
      ghost var before := gens;
      Take(h.g, P.FreeControl(h.ctl));
      SameHandles(before, gens);
    }
  }
}
