/** A shared-memory pool hands out pointers made of two blocks: one from the object pool, one from the pool of
    control blocks. Making and releasing a handle each take two separately locked steps. */
module PooledHandles {
  import opened Common
  import FreeList

  /** `building` are objects of handles that have no control block yet, `live` maps the object of each live handle
      to its control block, `tearing` are the control blocks of handles whose object has been returned. `lost` are
      objects whose elements' constructor threw: nothing returns them. */
  datatype Pools = Pools(
    objects: seq<nat>, controls: seq<nat>, building: set<nat>, live: map<nat, nat>, tearing: set<nat>, lost: set<nat>)

  datatype Step = LoanObject | Lose(o: nat) | LoanControl(o: nat) | DisposeObject(o: nat) | FreeControl(c: nat)

  /** make_pooled gets past its null check. */
  predicate CanMake(p: Pools, countPerElement: nat) {
    p.objects != [] && countPerElement > 0
  }

  predicate Possible(p: Pools, s: Step, countPerElement: nat) {
    match s
    case LoanObject => CanMake(p, countPerElement)
    case Lose(o) => o in p.building
    case LoanControl(o) => o in p.building && p.controls != []
    case DisposeObject(o) => o in p.live
    case FreeControl(c) => c in p.tearing
  }

  function After(p: Pools, s: Step, countPerElement: nat): Pools
    requires Possible(p, s, countPerElement)
  {
    match s
    case LoanObject =>
      var last := |p.objects| - 1;
      p.(objects := p.objects[..last], building := p.building + {p.objects[last]})
    case Lose(o) =>
      p.(building := p.building - {o}, lost := p.lost + {o})
    case LoanControl(o) =>
      var last := |p.controls| - 1;
      p.(controls := p.controls[..last], building := p.building - {o}, live := p.live[o := p.controls[last]])
    case DisposeObject(o) =>
      p.(objects := p.objects + [o], live := p.live - {o}, tearing := p.tearing + {p.live[o]})
    case FreeControl(c) =>
      p.(controls := p.controls + [c], tearing := p.tearing - {c})
  }

  ghost predicate ObjectsOk(p: Pools, n: nat) {
    && FreeList.NoDuplicates(p.objects)
    && (forall o :: o in p.objects ==> o !in p.building && o !in p.live && o !in p.lost)
    && p.building !! p.live.Keys && p.lost !! p.building && p.lost !! p.live.Keys
    && |p.objects| + |p.building| + |p.live| + |p.lost| == n
  }

  ghost predicate ControlsOk(p: Pools, n: nat) {
    && FreeList.NoDuplicates(p.controls)
    && (forall c :: c in p.controls ==> c !in p.tearing && forall o :: o in p.live ==> p.live[o] != c)
    && (forall o :: o in p.live ==> p.live[o] !in p.tearing)
    && (forall o, o' {:trigger p.live[o], p.live[o']} ::
          o in p.live && o' in p.live && o != o' ==> p.live[o] != p.live[o'])
    && |p.controls| + |p.live| + |p.tearing| == n
  }

  ghost predicate Inv(p: Pools, n: nat) {
    ObjectsOk(p, n) && ControlsOk(p, n)
  }

  lemma MapAdd(m: map<nat, nat>, o: nat, c: nat)
    requires o !in m
    ensures |m[o := c]| == |m| + 1
  {
    assert m[o := c].Keys == m.Keys + {o};
  }

  lemma MapRemove(m: map<nat, nat>, o: nat)
    requires o in m
    ensures |m - {o}| == |m| - 1
  {
    assert (m - {o}).Keys == m.Keys - {o};
  }

  lemma ObjectsLoan(p: Pools, n: nat, k: nat)
    requires ObjectsOk(p, n) && Possible(p, LoanObject, k)
    ensures ObjectsOk(After(p, LoanObject, k), n)
  {
    assert p.objects == After(p, LoanObject, k).objects + [p.objects[|p.objects| - 1]];
  }

  lemma ObjectsBind(p: Pools, n: nat, o: nat, k: nat)
    requires ObjectsOk(p, n) && Possible(p, LoanControl(o), k)
    ensures ObjectsOk(After(p, LoanControl(o), k), n)
  {
    var c := p.controls[|p.controls| - 1];
    MapAdd(p.live, o, c);
    assert p.live[o := c].Keys == p.live.Keys + {o};
  }

  lemma ObjectsDispose(p: Pools, n: nat, o: nat, k: nat)
    requires ObjectsOk(p, n) && Possible(p, DisposeObject(o), k)
    ensures ObjectsOk(After(p, DisposeObject(o), k), n)
  {
    MapRemove(p.live, o);
    assert (p.live - {o}).Keys == p.live.Keys - {o};
  }

  lemma ObjectsStep(p: Pools, n: nat, s: Step, k: nat)
    requires ObjectsOk(p, n) && Possible(p, s, k)
    ensures ObjectsOk(After(p, s, k), n)
  {
    match s
    case LoanObject => ObjectsLoan(p, n, k);
    case Lose(o) =>
    case LoanControl(o) => ObjectsBind(p, n, o, k);
    case DisposeObject(o) => ObjectsDispose(p, n, o, k);
    case FreeControl(c) =>
  }

  lemma ControlsBind(p: Pools, n: nat, o: nat, k: nat)
    requires ControlsOk(p, n) && Possible(p, LoanControl(o), k) && o !in p.live
    ensures ControlsOk(After(p, LoanControl(o), k), n)
  {
    var p', c := After(p, LoanControl(o), k), p.controls[|p.controls| - 1];
    MapAdd(p.live, o, c);
    assert p.controls == p'.controls + [c];
    forall x | x in p'.controls ensures x !in p'.tearing && forall q :: q in p'.live ==> p'.live[q] != x {
      assert x in p.controls;
    }
  }

  lemma ControlsDispose(p: Pools, n: nat, o: nat, k: nat)
    requires ControlsOk(p, n) && Possible(p, DisposeObject(o), k)
    ensures ControlsOk(After(p, DisposeObject(o), k), n)
  {
    MapRemove(p.live, o);
    assert p.live[o] !in p.tearing;
  }

  lemma ControlsFree(p: Pools, n: nat, c: nat, k: nat)
    requires ControlsOk(p, n) && Possible(p, FreeControl(c), k)
    ensures ControlsOk(After(p, FreeControl(c), k), n)
  {
  }

  lemma ControlsStep(p: Pools, n: nat, s: Step, k: nat)
    requires Inv(p, n) && Possible(p, s, k)
    ensures ControlsOk(After(p, s, k), n)
  {
    match s
    case LoanObject =>
    case Lose(o) =>
    case LoanControl(o) => ControlsBind(p, n, o, k);
    case DisposeObject(o) => ControlsDispose(p, n, o, k);
    case FreeControl(c) => ControlsFree(p, n, c, k);
  }

  lemma InvStep(p: Pools, n: nat, s: Step, k: nat)
    requires Inv(p, n) && Possible(p, s, k)
    ensures Inv(After(p, s, k), n)
  {
    ObjectsStep(p, n, s, k);
    ControlsStep(p, n, s, k);
  }

  ghost predicate History(p: Pools, steps: seq<Step>, p': Pools, k: nat)
    decreases |steps|
  {
    if steps == [] then p == p' else Possible(p, steps[0], k) && History(After(p, steps[0], k), steps[1..], p', k)
  }

  lemma {:induction false} InvHistory(p: Pools, n: nat, steps: seq<Step>, p': Pools, k: nat)
    requires Inv(p, n) && History(p, steps, p', k)
    ensures Inv(p', n)
    decreases |steps|
  {
    if steps != [] {
      InvStep(p, n, steps[0], k);
      InvHistory(After(p, steps[0], k), n, steps[1..], p', k);
    }
  }

  datatype Kind = Loans | Losses | Bindings | Disposals | Frees

  function KindOf(s: Step): Kind {
    match s
    case LoanObject => Loans
    case Lose(_) => Losses
    case LoanControl(_) => Bindings
    case DisposeObject(_) => Disposals
    case FreeControl(_) => Frees
  }

  function Count(steps: seq<Step>, kind: Kind): nat {
    if steps == [] then 0 else (if KindOf(steps[0]) == kind then 1 else 0) + Count(steps[1..], kind)
  }

  /** Handles, half-made and half-released ones and losses are what the steps of the run have made them: every object
      lent is being built until it is lost or gets its control block, and a handle lives until its object goes back. */
  lemma {:induction false} StepsDecide(p: Pools, n: nat, steps: seq<Step>, p': Pools, k: nat)
    requires Inv(p, n) && History(p, steps, p', k)
    ensures |p'.lost| == |p.lost| + Count(steps, Losses)
    ensures |p'.live| == |p.live| + Count(steps, Bindings) - Count(steps, Disposals)
    ensures |p'.tearing| == |p.tearing| + Count(steps, Disposals) - Count(steps, Frees)
    ensures |p'.building| == |p.building| + Count(steps, Loans) - Count(steps, Losses) - Count(steps, Bindings)
    decreases |steps|
  {
    if steps != [] {
      ObjectsMove(p, n, steps[0], k);
      HandlesMove(p, n, steps[0], k);
      InvStep(p, n, steps[0], k);
      StepsDecide(After(p, steps[0], k), n, steps[1..], p', k);
    }
  }

  lemma ObjectsMove(p: Pools, n: nat, s: Step, k: nat)
    requires ObjectsOk(p, n) && Possible(p, s, k)
    ensures var p' := After(p, s, k);
            && |p'.lost| == |p.lost| + (if s.Lose? then 1 else 0)
            && |p'.building|
               == |p.building| + (if s.LoanObject? then 1 else if s.Lose? || s.LoanControl? then -1 else 0)
  {
  }

  lemma HandlesMove(p: Pools, n: nat, s: Step, k: nat)
    requires Inv(p, n) && Possible(p, s, k)
    ensures var p' := After(p, s, k);
            && |p'.live| == |p.live| + (if s.LoanControl? then 1 else if s.DisposeObject? then -1 else 0)
            && |p'.tearing| == |p.tearing| + (if s.DisposeObject? then 1 else if s.FreeControl? then -1 else 0)
  {
    match s
    case LoanControl(o) => MapAdd(p.live, o, p.controls[|p.controls| - 1]);
    case DisposeObject(o) => MapRemove(p.live, o);
    case _ =>
  }

  /** Two pools of `n` blocks, all free. */
  ghost predicate Fresh(p: Pools, n: nat) {
    && FreeList.NoDuplicates(p.objects) && FreeList.NoDuplicates(p.controls)
    && |p.objects| == |p.controls| == n
    && p.building == {} && p.live == map[] && p.tearing == {} && p.lost == {}
  }

  /** In every interleaving of makes and releases: outstanding control blocks are outstanding objects, less the
      handles being built and the objects lost to exceptions, plus the handles being torn down. */
  lemma PairedAccounting(p0: Pools, n: nat, steps: seq<Step>, p: Pools, k: nat)
    requires Fresh(p0, n) && History(p0, steps, p, k)
    ensures Inv(p, n)
    ensures n - |p.controls| == (n - |p.objects|) - |p.building| - |p.lost| + |p.tearing|
    ensures n - |p.controls| == |p.live| + |p.tearing|
    ensures n - |p.objects| == |p.live| + |p.building| + |p.lost|
  {
    InvHistory(p0, n, steps, p, k);
  }

  /** When no call is in progress the pools agree exactly if no constructor has thrown, the control blocks count the
      live handles, and make_pooled answers null exactly when every element is live or lost, or elements hold no
      objects. */
  lemma QuiescentPools(p0: Pools, n: nat, steps: seq<Step>, p: Pools, k: nat)
    requires Fresh(p0, n) && History(p0, steps, p, k) && p.building == {} && p.tearing == {}
    ensures |p.objects| == |p.controls| <==> p.lost == {}
    ensures |p.controls| == n - |p.live|
    ensures !CanMake(p, k) <==> |p.live| + |p.lost| == n || k == 0
  {
    InvHistory(p0, n, steps, p, k);
  }

  /** A handle being built finds the control pool exhausted exactly when as many handles are being torn down as there
      are free objects, lost ones and handles being built; in particular only when some release is half done. */
  lemma ControlPoolExhaustedExactly(p0: Pools, n: nat, steps: seq<Step>, p: Pools, k: nat, o: nat)
    requires Fresh(p0, n) && History(p0, steps, p, k) && o in p.building
    ensures !Possible(p, LoanControl(o), k) <==> |p.tearing| == |p.objects| + |p.building| + |p.lost|
    ensures !Possible(p, LoanControl(o), k) ==> p.tearing != {}
  {
    InvHistory(p0, n, steps, p, k);
    assert |p.building| > 0;
  }

  lemma Then(p: Pools, s: Step, steps: seq<Step>, p': Pools, k: nat)
    requires Possible(p, s, k) && History(After(p, s, k), steps, p', k)
    ensures History(p, [s] + steps, p', k)
  {
    assert ([s] + steps)[1..] == steps;
  }

  /** From any state in which nothing is being built, makes can run until every object is in a live handle. */
  lemma {:induction false} FillUp(p: Pools, n: nat, k: nat) returns (steps: seq<Step>, p': Pools)
    requires Inv(p, n) && p.building == {} && p.tearing == {} && p.lost == {} && k > 0
    ensures History(p, steps, p', k) && Inv(p', n) && p'.objects == []
    ensures p'.building == {} && p'.tearing == {} && p'.lost == {}
    decreases |p.objects|
  {
    if p.objects == [] {
      return [], p;
    }
    var p1 := After(p, LoanObject, k);
    InvStep(p, n, LoanObject, k);
    var o := p.objects[|p.objects| - 1];
    var p2 := After(p1, LoanControl(o), k);
    InvStep(p1, n, LoanControl(o), k);
    steps, p' := FillUp(p2, n, k);
    Then(p1, LoanControl(o), steps, p', k);
    Then(p, LoanObject, [LoanControl(o)] + steps, p', k);
    steps := [LoanObject] + ([LoanControl(o)] + steps);
  }

  lemma SomeLive(p: Pools, n: nat) returns (o: nat)
    requires Inv(p, n) && p.objects == [] && p.building == {} && p.tearing == {} && p.lost == {} && n > 0
    ensures o in p.live && p.controls == []
  {
    assert |p.live.Keys| == n;
    o :| o in p.live.Keys;
  }

  lemma HalfRelease(p: Pools, o: nat, k: nat) returns (steps: seq<Step>, p': Pools)
    requires p.objects == [] && p.controls == [] && o in p.live && k > 0
    ensures History(p, steps, p', k) && o in p'.building && !Possible(p', LoanControl(o), k)
  {
    var p1 := After(p, DisposeObject(o), k);
    p' := After(p1, LoanObject, k);
    Then(p1, LoanObject, [], p', k);
    Then(p, DisposeObject(o), [LoanObject], p', k);
    steps := [DisposeObject(o)] + [LoanObject];
  }

  /** That it does happen, for every pool size: release one of `n` live handles half way, and a make_pooled that runs
      then gets the returned object but no control block. */
  lemma ControlPoolCanBeExhausted(p0: Pools, n: nat, k: nat) returns (steps: seq<Step>, p: Pools, o: nat)
    requires Fresh(p0, n) && n > 0 && k > 0
    ensures History(p0, steps, p, k) && o in p.building && !Possible(p, LoanControl(o), k)
  {
    var fill, full := FillUp(p0, n, k);
    var last: seq<Step>;
    o := SomeLive(full, n);
    last, p := HalfRelease(full, o, k);
    HistoryConcat(p0, fill, full, last, p, k);
    steps := fill + last;
  }

  lemma {:induction false} HistoryConcat(p: Pools, steps: seq<Step>, mid: Pools, more: seq<Step>, p': Pools, k: nat)
    requires History(p, steps, mid, k) && History(mid, more, p', k)
    ensures History(p, steps + more, p', k)
    decreases |steps|
  {
    if steps == [] {
      assert steps + more == more;
    } else {
      HistoryConcat(After(p, steps[0], k), steps[1..], mid, more, p', k);
      assert (steps + more)[1..] == steps[1..] + more;
    }
  }

  // ---- The object, used by one caller at a time ----

  /** A live handle: where its object and its control block are, as offsets into the two pools. */
  datatype Handle = Handle(obj: nat, ctl: nat)

  /** What make_pooled comes back with: null, the exception of an element's constructor, or a handle. */
  datatype Outcome = Null | Thrown | Made(handle: Handle)

  /** Each outstanding object is lost or belongs to one handle. */
  ghost predicate Owned(handles: map<nat, nat>, lost: set<nat>, objects: set<nat>) {
    handles.Keys !! lost && handles.Keys + lost == objects
  }

  lemma OwnedCount(handles: map<nat, nat>, lost: set<nat>, objects: set<nat>)
    requires Owned(handles, lost, objects)
    ensures |handles| + |lost| == |objects|
  {
    assert |handles.Keys| == |handles|;
  }

  /** Each handle has an outstanding control block of its own, and no control block is left over. */
  ghost predicate Bound(handles: map<nat, nat>, controls: set<nat>) {
    && (forall o :: o in handles ==> handles[o] in controls)
    && (forall o, o' {:trigger handles[o], handles[o']} ::
          o in handles && o' in handles && o != o' ==> handles[o] != handles[o'])
    && |handles| == |controls|
  }

  lemma OwnedAdd(handles: map<nat, nat>, lost: set<nat>, objects: set<nat>, o: nat, c: nat)
    requires Owned(handles, lost, objects) && o !in objects
    ensures Owned(handles[o := c], lost, objects + {o})
  {
    assert handles[o := c].Keys == handles.Keys + {o};
  }

  lemma OwnedLose(handles: map<nat, nat>, lost: set<nat>, objects: set<nat>, o: nat)
    requires Owned(handles, lost, objects) && o !in objects
    ensures Owned(handles, lost + {o}, objects + {o})
  {
  }

  lemma OwnedRemove(handles: map<nat, nat>, lost: set<nat>, objects: set<nat>, o: nat)
    requires Owned(handles, lost, objects) && o in handles
    ensures Owned(handles - {o}, lost, objects - {o}) && o in objects
  {
    assert (handles - {o}).Keys == handles.Keys - {o};
  }

  lemma BoundAdd(handles: map<nat, nat>, controls: set<nat>, o: nat, c: nat)
    requires Bound(handles, controls) && o !in handles && c !in controls
    ensures Bound(handles[o := c], controls + {c})
  {
    MapAdd(handles, o, c);
  }

  lemma BoundRemove(handles: map<nat, nat>, controls: set<nat>, o: nat)
    requires Bound(handles, controls) && o in handles
    ensures Bound(handles - {o}, controls - {handles[o]}) && handles[o] in controls
  {
    MapRemove(handles, o);
  }

  ghost predicate Apart(a: FreeList.AllocatorState, b: FreeList.AllocatorState)
    reads a, b
  {
    a != b && a.pointers != b.pointers
  }

  /** Borrow a block of one pool, and leave the other alone. Offsets are addresses under a mapping at 0. */
  method LoanFrom(pool: FreeList.AllocatorState, other: FreeList.AllocatorState) returns (p: Option<nat>)
    requires pool.Valid() && other.Valid() && Apart(pool, other)
    modifies pool
    ensures pool.Valid() && other.Valid() && Apart(pool, other) && unchanged(pool`pointers, pool`sizeSharedT)
    ensures p.None? <==> |old(pool.out)| == pool.nElementsTotal || pool.countPerElement == 0
    ensures |old(pool.out)| <= pool.nElementsTotal
    ensures p.None? ==> pool.out == old(pool.out)
    ensures p.Some? ==> p.value !in old(pool.out) && pool.out == old(pool.out) + {p.value}
  {
    p := pool.LoanAt(0);
  }

  method ReturnTo(pool: FreeList.AllocatorState, o: nat, other: FreeList.AllocatorState)
    requires pool.Valid() && other.Valid() && Apart(pool, other) && o in pool.out
    modifies pool, pool.pointers
    ensures pool.Valid() && other.Valid() && Apart(pool, other) && unchanged(pool`pointers, pool`sizeSharedT)
    ensures pool.out == old(pool.out) - {o}
  {
    pool.AcceptAt(0, Some(o));
  }

  class MemPoolIPC {
    const nElements: nat
    const countPerElement: nat
    const sizeT: nat
    const sizeControl: nat
    const objects: FreeList.AllocatorState
    const controls: FreeList.AllocatorState
    ghost var handles: map<nat, nat>
    ghost var lost: set<nat>

    /** Both pools are set up. */
    ghost predicate Settled()
      reads objects, objects.pointers, controls, controls.pointers
    {
      && Apart(objects, controls)
      && objects.Valid() && controls.Valid()
      && objects.nElementsTotal == controls.nElementsTotal == nElements
      && objects.countPerElement == countPerElement && controls.countPerElement == 1
      && objects.sizeSharedT == sizeT && controls.sizeSharedT == sizeControl
    }

    ghost predicate Valid()
      reads this, objects, objects.pointers, controls, controls.pointers
    {
      Settled() && Owned(handles, lost, objects.out) && Bound(handles, controls.out)
    }

    /** The elements of distinct live handles, and their control blocks, lie in the two regions and do not overlap. */
    lemma HandlesAreApart(o: nat, o': nat)
      requires Valid() && countPerElement > 0 && o in handles && o' in handles
      ensures var bytes := sizeT * countPerElement;
              o + bytes <= bytes * nElements && (o != o' ==> o + bytes <= o' || o' + bytes <= o)
      ensures var c, c' := handles[o], handles[o'];
              && c + sizeControl <= sizeControl * nElements
              && (o != o' ==> c + sizeControl <= c' || c' + sizeControl <= c)
    {
      objects.IsPartition();
      controls.IsPartition();
      FreeList.OutstandingDisjoint(objects.View(), nElements, sizeT * countPerElement, o, o');
      FreeList.OutstandingDisjoint(controls.View(), nElements, sizeControl * 1, handles[o], handles[o']);
    }

    /** `granted` and `controlsGranted` tell whether the segment has the memory; without it the source throws. */
    constructor (n: nat, count: nat, sizeTIn: nat, sizeControlIn: nat, granted: bool, controlsGranted: bool)
      requires sizeTIn > 0 && sizeControlIn > 0
      ensures nElements == n && countPerElement == count && sizeT == sizeTIn && sizeControl == sizeControlIn
      ensures handles == map[] && lost == {}
      ensures objects.initialized == granted && controls.initialized == controlsGranted
      ensures granted && controlsGranted && sizeT * count * n < WORD && sizeControl * 1 * n < WORD ==> Valid()
      ensures fresh(objects) && fresh(controls) && fresh(objects.pointers) && fresh(controls.pointers)
    {
      nElements, countPerElement, handles, lost := n, count, map[], {};
      sizeT, sizeControl := sizeTIn, sizeControlIn;
      var c := new FreeList.AllocatorState(n, 1);
      var _ := c.Allocate(sizeControlIn, controlsGranted);
      var o := new FreeList.AllocatorState(n, count);
      var _ := o.Allocate(sizeTIn, granted);
      objects, controls := o, c;
    }

    /** The second half of make_pooled: the control block for the object `o`. */
    method Bind(o: nat, ghost before: set<nat>) returns (h: Handle)
      requires Settled() && objects.out == before + {o} && o !in before
      requires Owned(handles, lost, before) && Bound(handles, controls.out) && |controls.out| < nElements
      modifies this, controls
      ensures Valid() && unchanged(controls`pointers) && lost == old(lost)
      ensures h.obj == o && h.ctl !in old(controls.out) && handles == old(handles)[o := h.ctl]
    {
      ghost var was := handles;
      var c := LoanFrom(controls, objects);
      ghost var now := was[o := c.value];
      assert Owned(now, lost, objects.out) by {
        OwnedAdd(was, lost, before, o, c.value);
      }
      assert Bound(now, controls.out) by {
        BoundAdd(was, old(controls.out), o, c.value);
      }
      handles := now;
      return Handle(o, c.value);
    }

    /** An element's constructor threw: nothing will return its object. */
    ghost method Lose(o: nat, before: set<nat>)
      requires Settled() && objects.out == before + {o} && o !in before
      requires Owned(handles, lost, before) && Bound(handles, controls.out)
      modifies `lost
      ensures Valid() && old(lost) < lost && |lost| == |old(lost)| + 1
    {
      OwnedLose(handles, lost, before, o);
      lost := lost + {o};
    }

    /** make_pooled once the object is lent. */
    method Construct(o: nat, throws: bool, ghost before: set<nat>) returns (r: Outcome)
      requires Settled() && objects.out == before + {o} && o !in before
      requires Owned(handles, lost, before) && Bound(handles, controls.out) && |controls.out| < nElements
      modifies this, controls
      ensures Valid() && unchanged(controls`pointers)
      ensures if throws then r == Thrown else r.Made?
      ensures if throws then old(lost) < lost && |lost| == |old(lost)| + 1 else lost == old(lost)
      ensures r.Made? ==> r.handle.obj == o && r.handle.ctl !in old(controls.out)
      ensures handles == if r.Made? then old(handles)[r.handle.obj := r.handle.ctl] else old(handles)
    {
      if throws {
        Lose(o, before);
        return Thrown;
      }
      var handle := Bind(o, before);
      return Made(handle);
    }

    /** `throws`: the constructor of an element throws. Null exactly when every element is live or lost, or elements
        hold no objects; otherwise a handle on two blocks that were free, or an exception that leaves the object lost.
        */
    method MakePooled(throws: bool) returns (r: Outcome)
      requires Valid()
      modifies this, objects, controls
      ensures Valid() && unchanged(objects`pointers) && unchanged(controls`pointers)
      ensures r == Null <==> |old(handles)| + |old(lost)| == nElements || countPerElement == 0
      ensures r == Thrown <==> throws && r != Null
      ensures r == Thrown ==> old(lost) < lost && |lost| == |old(lost)| + 1
      ensures r != Thrown ==> lost == old(lost)
      ensures r.Made? ==> r.handle.obj !in old(objects.out) && r.handle.ctl !in old(controls.out)
      ensures handles == if r.Made? then old(handles)[r.handle.obj := r.handle.ctl] else old(handles)
    {
      ghost var before := objects.out;
      OwnedCount(handles, lost, before);
      var o := LoanFrom(objects, controls);
      if o.None? {
        return Null;
      }
      r := Construct(o.value, throws, before);
    }

    /** The second half of a release: the control block goes back. */
    method Unbind(c: nat, ghost was: map<nat, nat>, ghost o: nat)
      requires Settled() && o in was && was[o] == c && Bound(was, controls.out)
      requires handles == was - {o} && Owned(handles, lost, objects.out)
      modifies controls, controls.pointers
      ensures Valid() && unchanged(controls`pointers)
    {
      BoundRemove(was, controls.out, o);
      ReturnTo(controls, c, objects);
    }

    method Release(h: Handle)
      requires Valid() && h.obj in handles && handles[h.obj] == h.ctl
      modifies this, objects, objects.pointers, controls, controls.pointers
      ensures Valid() && unchanged(objects`pointers) && unchanged(controls`pointers)
      ensures handles == old(handles) - {h.obj} && lost == old(lost)
    {
      OwnedRemove(handles, lost, objects.out, h.obj);
      ghost var was := handles;
      handles := handles - {h.obj};
      ReturnTo(objects, h.obj, controls);
      Unbind(h.ctl, was, h.obj);
    }

    /** The statistics of the control blocks count the live handles; a lost object is not outstanding to them. */
    method Statistics() returns (nOutstanding: nat, nAvailable: nat)
      requires Valid()
      ensures nOutstanding == |handles| && nAvailable == nElements - |handles|
    {
      nOutstanding, nAvailable := controls.Statistics();
    }
  }
}
