/** The process-local pool of arrays: a free list of blocks, and for each block a slice of `count` element slots that
    is constructed when the block is handed out and destroyed when it comes back. */
module ArrayPool {
  import opened Common
  import FreeList
  import AlignedMemory

  /** Stages of a block that is not on the free list. `Thrown(k)`: the constructor of its k-th element threw. */
  datatype Phase = Loaned | Live | Thrown(k: nat) | Destroyed

  /** `free` and `held` are block numbers; `built[k]` tells whether slot `k` holds a constructed element. */
  datatype Slices = Slices(free: seq<nat>, held: map<nat, Phase>, built: seq<bool>)

  /** The separately scheduled steps of allocate_raw (Lend, and Construct or ConstructThrows) and of a release
      (Destroy, Return). When a constructor throws, unwinding drops the pointer and so releases the block. */
  datatype Move = Lend | Construct(b: nat) | ConstructThrows(b: nat, k: nat) | Destroy(b: nat) | Return(b: nat)

  /** Arithmetic element types (`plain`) are neither constructed nor destroyed. */
  ghost predicate Legal(s: Slices, m: Move, count: nat, plain: bool) {
    match m
    case Lend => s.free != []
    case Construct(b) => b in s.held && s.held[b] == Loaned
    case ConstructThrows(b, k) => b in s.held && s.held[b] == Loaned && k < count && !plain
    case Destroy(b) => b in s.held && (s.held[b].Live? || s.held[b].Thrown?)
    case Return(b) => b in s.held && s.held[b] == Destroyed
  }

  function Fill(built: seq<bool>, from: nat, len: nat, v: bool): (r: seq<bool>)
    ensures |r| == |built|
    ensures forall k {:trigger r[k]} :: 0 <= k < |built| ==> r[k] == if from <= k < from + len then v else built[k]
  {
    seq(|built|, k requires 0 <= k < |built| => if from <= k < from + len then v else built[k])
  }

  ghost function Do(s: Slices, m: Move, count: nat, plain: bool): Slices
    requires Legal(s, m, count, plain)
  {
    match m
    case Lend =>
      var b := s.free[|s.free| - 1];
      s.(free := s.free[..|s.free| - 1], held := s.held[b := Loaned])
    case Construct(b) =>
      s.(held := s.held[b := Live], built := if plain then s.built else Fill(s.built, count * b, count, true))
    case ConstructThrows(b, k) =>
      s.(held := s.held[b := Thrown(k)], built := Fill(s.built, count * b, k, true))
    case Destroy(b) =>
      s.(held := s.held[b := Destroyed], built := if plain then s.built else Fill(s.built, count * b, count, false))
    case Return(b) =>
      s.(free := s.free + [b], held := s.held - {b})
  }

  /** A whole release: the callback runs before the block is pushed. */
  ghost function Release(s: Slices, b: nat, count: nat, plain: bool): Slices
    requires Legal(s, Destroy(b), count, plain)
  {
    Do(Do(s, Destroy(b), count, plain), Return(b), count, plain)
  }

  /** `throwsAt` is the element, if any, whose constructor throws. */
  predicate Completes(throwsAt: Option<nat>, count: nat, plain: bool) {
    plain || throwsAt.None? || throwsAt.value >= count
  }

  /** A whole allocate_raw: an exception releases the block as if its slice were complete. */
  ghost function Allocate(s: Slices, throwsAt: Option<nat>, count: nat, plain: bool): Slices {
    if s.free == [] then s
    else
      var b := s.free[|s.free| - 1];
      var lent := Do(s, Lend, count, plain);
      if Completes(throwsAt, count, plain) then Do(lent, Construct(b), count, plain)
      else Release(Do(lent, ConstructThrows(b, throwsAt.value), count, plain), b, count, plain)
  }

  /** Of the slots of a slice exactly the first `made` are constructed. */
  ghost predicate Front(built: seq<bool>, from: nat, len: nat, made: nat) {
    forall k {:trigger built[k]} :: from <= k < from + len && k < |built| ==> (built[k] <==> k < from + made)
  }

  ghost predicate BlocksOk(s: Slices, n: nat) {
    && FreeList.NoDuplicates(s.free)
    && (forall b :: b in s.free ==> b !in s.held)
    && (forall b: nat :: b in s.free || b in s.held <==> b < n)
    && |s.free| + |s.held| == n
  }

  /** A whole allocate_raw, in terms of its inputs: the last free block is lent and live, or, exactly if there is an
      element whose constructor throws, the free blocks and the loans are as they were. */
  lemma AllocateOutcome(s: Slices, n: nat, throwsAt: Option<nat>, count: nat, plain: bool)
    requires BlocksOk(s, n) && s.free != []
    ensures var s', last := Allocate(s, throwsAt, count, plain), |s.free| - 1;
            && s.free[last] !in s.held
            && (s'.free, s'.held) == if !plain && throwsAt.Some? && throwsAt.value < count then (s.free, s.held)
                                     else (s.free[..last], s.held[s.free[last] := Live])
  {
    var last := |s.free| - 1;
    var b := s.free[last];
    assert s.free[..last] + [b] == s.free;
    assert s.held[b := Loaned][b := Live] == s.held[b := Live];
    if !Completes(throwsAt, count, plain) {
      var thrown := Thrown(throwsAt.value);
      assert s.held[b := Loaned][b := thrown][b := Destroyed] - {b} == s.held;
    }
  }

  /** How many elements of a block its history has constructed. */
  function Made(s: Slices, b: nat, count: nat, plain: bool): nat {
    if plain || b !in s.held then 0
    else match s.held[b] { case Live => count case Thrown(k) => k case _ => 0 }
  }

  ghost predicate SlotsOk(s: Slices, n: nat, count: nat, plain: bool) {
    && |s.built| == count * n
    && (forall b {:trigger s.held[b]} :: b in s.held && s.held[b].Thrown? ==> s.held[b].k < count && !plain)
    && forall b: nat {:trigger SliceOk(s, count, plain, b)} :: b < n ==> SliceOk(s, count, plain, b)
  }

  /** Of the elements of block `b` those are constructed that its history says. */
  ghost predicate SliceOk(s: Slices, count: nat, plain: bool, b: nat) {
    Front(s.built, count * b, count, Made(s, b, count, plain))
  }

  ghost predicate Inv(s: Slices, n: nat, count: nat, plain: bool) {
    BlocksOk(s, n) && SlotsOk(s, n, count, plain)
  }

  lemma LendOk(s: Slices, n: nat, count: nat, plain: bool)
    requires BlocksOk(s, n) && Legal(s, Lend, count, plain)
    ensures BlocksOk(Do(s, Lend, count, plain), n)
  {
    var s' := Do(s, Lend, count, plain);
    var last := |s.free| - 1;
    assert s.free == s'.free + [s.free[last]];
    assert s'.held.Keys == s.held.Keys + {s.free[last]};
  }

  lemma ReturnOk(s: Slices, n: nat, b: nat, count: nat, plain: bool)
    requires BlocksOk(s, n) && Legal(s, Return(b), count, plain)
    ensures BlocksOk(Do(s, Return(b), count, plain), n)
  {
    assert Do(s, Return(b), count, plain).held.Keys == s.held.Keys - {b};
  }

  lemma BlocksStep(s: Slices, n: nat, m: Move, count: nat, plain: bool)
    requires BlocksOk(s, n) && Legal(s, m, count, plain)
    ensures BlocksOk(Do(s, m, count, plain), n)
  {
    match m
    case Lend =>
      LendOk(s, n, count, plain);
    case Return(b) =>
      ReturnOk(s, n, b, count, plain);
    case _ =>
      assert Do(s, m, count, plain).held.Keys == s.held.Keys;
  }

  /** Filling in one block's slots leaves the other slices alone. */
  lemma FillOther(built: seq<bool>, n: nat, count: nat, b: nat, len: nat, v: bool, c: nat, made: nat)
    requires b < n && c < n && b != c && len <= count && |built| == count * n
    requires Front(built, count * c, count, made)
    ensures Front(Fill(built, count * b, len, v), count * c, count, made)
  {
    if b < c {
      FreeList.MultiplesAscend(count, b, c);
    } else {
      FreeList.MultiplesAscend(count, c, b);
    }
  }

  lemma FillOwn(built: seq<bool>, from: nat, count: nat, len: nat, v: bool)
    requires len <= count && if v then Front(built, from, count, 0) else len == count
    ensures Front(Fill(built, from, len, v), from, count, if v then len else 0)
  {
  }

  predicate Fills(m: Move) { m.Construct? || m.ConstructThrows? || m.Destroy? }

  lemma SliceStep(s: Slices, n: nat, m: Move, count: nat, plain: bool, c: nat)
    requires Legal(s, m, count, plain) && c < n && |s.built| == count * n && (Fills(m) ==> m.b < n)
    requires SliceOk(s, count, plain, c)
    requires m.Lend? ==> s.free[|s.free| - 1] !in s.held
    ensures SliceOk(Do(s, m, count, plain), count, plain, c)
  {
    if plain || !Fills(m) {
      assert Made(Do(s, m, count, plain), c, count, plain) == Made(s, c, count, plain);
    } else {
      var len := if m.ConstructThrows? then m.k else count;
      if m.b == c {
        FillOwn(s.built, count * c, count, len, !m.Destroy?);
      } else {
        FillOther(s.built, n, count, m.b, len, !m.Destroy?, c, Made(s, c, count, plain));
      }
    }
  }

  lemma ThrownStep(s: Slices, m: Move, count: nat, plain: bool)
    requires Legal(s, m, count, plain)
    requires forall b {:trigger s.held[b]} :: b in s.held && s.held[b].Thrown? ==> s.held[b].k < count && !plain
    ensures var s' := Do(s, m, count, plain);
            && |s'.built| == |s.built|
            && forall b {:trigger s'.held[b]} :: b in s'.held && s'.held[b].Thrown? ==> s'.held[b].k < count && !plain
  {
  }

  lemma SlotsStep(s: Slices, n: nat, m: Move, count: nat, plain: bool)
    requires Inv(s, n, count, plain) && Legal(s, m, count, plain)
    ensures SlotsOk(Do(s, m, count, plain), n, count, plain)
  {
    ThrownStep(s, m, count, plain);
    forall c: nat | c < n ensures SliceOk(Do(s, m, count, plain), count, plain, c) {
      assert SliceOk(s, count, plain, c);
      SliceStep(s, n, m, count, plain, c);
    }
  }

  lemma InvStep(s: Slices, n: nat, m: Move, count: nat, plain: bool)
    requires Inv(s, n, count, plain) && Legal(s, m, count, plain)
    ensures Inv(Do(s, m, count, plain), n, count, plain)
  {
    BlocksStep(s, n, m, count, plain);
    SlotsStep(s, n, m, count, plain);
  }

  ghost predicate History(s: Slices, moves: seq<Move>, s': Slices, count: nat, plain: bool)
    decreases |moves|
  {
    if moves == [] then s == s'
    else Legal(s, moves[0], count, plain) && History(Do(s, moves[0], count, plain), moves[1..], s', count, plain)
  }

  function Start(n: nat, count: nat): Slices {
    Slices(seq(n, i requires 0 <= i => i), map[], seq(count * n, _ => false))
  }

  lemma StartInv(n: nat, count: nat, plain: bool)
    ensures Inv(Start(n, count), n, count, plain)
  {
    StartBlocksOk(n, count);
    var built := Start(n, count).built;
    forall b: nat | b < n ensures Front(built, count * b, count, 0) {
    }
  }

  lemma StartBlocksOk(n: nat, count: nat)
    ensures BlocksOk(Start(n, count), n)
  {
    var free := Start(n, count).free;
    forall b: nat ensures b in free <==> b < n {
      if b < n {
        assert free[b] == b;
      }
    }
  }

  lemma {:induction false} InvHistory(s: Slices, n: nat, count: nat, plain: bool, moves: seq<Move>, s': Slices)
    requires Inv(s, n, count, plain) && History(s, moves, s', count, plain)
    ensures Inv(s', n, count, plain)
    decreases |moves|
  {
    if moves != [] {
      InvStep(s, n, moves[0], count, plain);
      InvHistory(Do(s, moves[0], count, plain), n, count, plain, moves[1..], s');
    }
  }

  /** In every interleaving, whichever constructors throw: construction only ever finds unconstructed slots; slices of
      distinct blocks are disjoint and in bounds; and a block on the free list has none of its slots constructed, so no
      slice is lent again while it is being destroyed. A block about to be destroyed has its whole slice constructed
      exactly if none of its constructors threw, and otherwise exactly the elements before the one that did. */
  lemma SliceLifecycle(n: nat, count: nat, plain: bool, moves: seq<Move>, s: Slices, b: nat)
    requires History(Start(n, count), moves, s, count, plain) && b < n
    ensures count * b + count <= |s.built|
    ensures Legal(s, Construct(b), count, plain) ==> Front(s.built, count * b, count, 0) && b !in s.free
    ensures Legal(s, Destroy(b), count, plain) ==>
              && b !in s.free && SliceOk(s, count, plain, b)
              && (plain || Front(s.built, count * b, count, count) <==> s.held[b] == Live)
    ensures b in s.free ==> Front(s.built, count * b, count, 0) && b !in s.held
    ensures forall c: nat {:trigger count * c} :: c < n && c != b ==>
              count * b + count <= count * c || count * c + count <= count * b
  {
    assert Inv(s, n, count, plain) by {
      StartInv(n, count, plain);
      InvHistory(Start(n, count), n, count, plain, moves, s);
    }
    FreeList.MultiplesAscend(count, b, n);
    SliceFacts(s, n, count, plain, b);
    SlicesAreDisjoint(n, count, b);
  }

  lemma SliceFacts(s: Slices, n: nat, count: nat, plain: bool, b: nat)
    requires Inv(s, n, count, plain) && b < n
    ensures Legal(s, Construct(b), count, plain) ==> Front(s.built, count * b, count, 0) && b !in s.free
    ensures Legal(s, Destroy(b), count, plain) ==>
              && b !in s.free && SliceOk(s, count, plain, b)
              && (plain || Front(s.built, count * b, count, count) <==> s.held[b] == Live)
    ensures b in s.free ==> Front(s.built, count * b, count, 0) && b !in s.held
  {
    assert SliceOk(s, count, plain, b);
    if b in s.held && s.held[b].Thrown? {
      FreeList.MultiplesAscend(count, b, n);
      assert !s.built[count * b + s.held[b].k];
    }
  }

  lemma SlicesAreDisjoint(n: nat, count: nat, b: nat)
    ensures forall c: nat {:trigger count * c} :: c < n && c != b ==>
              count * b + count <= count * c || count * c + count <= count * b
  {
    forall c: nat | c < n && c != b ensures count * b + count <= count * c || count * c + count <= count * b {
      if b < c {
        FreeList.MultiplesAscend(count, b, c);
      } else {
        FreeList.MultiplesAscend(count, c, b);
      }
    }
  }

  // ---- When destruction only meets constructed elements ----

  ghost predicate NoneThrows(moves: seq<Move>) {
    forall m :: m in moves ==> !m.ConstructThrows?
  }

  lemma {:induction false} NoneThrown(s: Slices, count: nat, plain: bool, moves: seq<Move>, s': Slices)
    requires History(s, moves, s', count, plain) && NoneThrows(moves)
    requires forall b {:trigger s.held[b]} :: b in s.held ==> !s.held[b].Thrown?
    ensures forall b {:trigger s'.held[b]} :: b in s'.held ==> !s'.held[b].Thrown?
    decreases |moves|
  {
    if moves != [] {
      assert moves[0] in moves;
      assert NoneThrows(moves[1..]) by {
        assert forall m :: m in moves[1..] ==> m in moves;
      }
      NoneThrown(Do(s, moves[0], count, plain), count, plain, moves[1..], s');
    }
  }

  /** `mayThrow`: the element type's constructor may throw. */
  ghost predicate DestroysOnlyBuilt(n: nat, count: nat, plain: bool, mayThrow: bool) {
    forall moves, s, b: nat {:trigger History(Start(n, count), moves, s, count, plain), count * b} ::
      History(Start(n, count), moves, s, count, plain) && (mayThrow || NoneThrows(moves)) && b < n
      && Legal(s, Destroy(b), count, plain)
      ==> plain || Front(s.built, count * b, count, count)
  }

  /** In every run a destruction finds its whole slice constructed, if and only if constructors cannot throw, or
      elements are arithmetic, or there is nothing to construct. Otherwise a constructor that throws makes the release
      destroy elements that never were. */
  lemma DestroysOnlyBuiltExactly(n: nat, count: nat, plain: bool, mayThrow: bool)
    ensures DestroysOnlyBuilt(n, count, plain, mayThrow) <==> !mayThrow || plain || count == 0 || n == 0
  {
    if mayThrow && !plain && count > 0 && n > 0 {
      ThrowingRun(n, count);
    } else {
      forall moves, s, b: nat |
        && History(Start(n, count), moves, s, count, plain) && (mayThrow || NoneThrows(moves)) && b < n
        && Legal(s, Destroy(b), count, plain)
        ensures plain || Front(s.built, count * b, count, count)
      {
        SliceLifecycle(n, count, plain, moves, s, b);
        if NoneThrows(moves) {
          NoneThrown(Start(n, count), count, plain, moves, s);
        }
      }
    }
  }

  /** The first constructor of the last block throws: the block is about to be destroyed, and its first slot is empty.
      */
  lemma ThrowingRun(n: nat, count: nat)
    requires n > 0 && count > 0
    ensures !DestroysOnlyBuilt(n, count, false, true)
  {
    var b := n - 1;
    var s0 := Start(n, count);
    var s1 := Do(s0, Lend, count, false);
    var s2 := Do(s1, ConstructThrows(b, 0), count, false);
    assert [Lend, ConstructThrows(b, 0)][1..] == [ConstructThrows(b, 0)];
    assert [ConstructThrows(b, 0)][1..] == [];
    assert History(s1, [ConstructThrows(b, 0)], s2, count, false);
    assert History(s0, [Lend, ConstructThrows(b, 0)], s2, count, false);
    FreeList.MultiplesAscend(count, b, n);
    assert !s2.built[count * b];
    assert !Front(s2.built, count * b, count, count);
  }

  // ---- Where the elements are ----

  /** The element memory: null if it was refused, or if alignment failed. */
  function Elements(granted: bool, base: nat, n: nat, count: nat, sizeT: nat, a: nat, slack: nat): Option<nat>
    requires a > 0
  {
    if granted then AlignedMemory.Region(base, (n * count) % WORD, sizeT, a, slack) else None
  }

  /** Where slot `slot` is taken to be: nobody asks whether the memory is null. */
  function SlotAddress(elements: Option<nat>, sizeT: nat, slot: nat): nat {
    (if elements.Some? then elements.value else 0) + (sizeT * slot) % WORD
  }

  ghost predicate AllInside(elements: Option<nat>, base: nat, bytes: nat, slots: nat, sizeT: nat) {
    forall slot: nat {:trigger SlotAddress(elements, sizeT, slot)} :: slot < slots ==>
      base <= SlotAddress(elements, sizeT, slot) && SlotAddress(elements, sizeT, slot) + sizeT <= base + bytes
  }

  ghost predicate SlotsInside(granted: bool, base: nat, n: nat, count: nat, sizeT: nat, a: nat, slack: nat)
    requires a > 0
  {
    AllInside(Elements(granted, base, n, count, sizeT, a, slack), base,
              AlignedMemory.BytesRequested((n * count) % WORD, sizeT, slack), n * count, sizeT)
  }

  lemma AllInsideExactly(elements: Option<nat>, base: nat, bytes: nat, slots: nat, sizeT: nat)
    requires base > 0 && slots > 0 && sizeT > 0 && bytes < WORD
    requires elements.Some? ==>
               base <= elements.value && (sizeT * slots < WORD ==> elements.value + sizeT * slots <= base + bytes)
    ensures AllInside(elements, base, bytes, slots, sizeT) <==> elements.Some? && sizeT * slots < WORD
  {
    if elements.None? {
      assert SlotAddress(elements, sizeT, 0) == 0 by { assert sizeT * 0 == 0; }
    } else if sizeT * slots < WORD {
      forall slot: nat | slot < slots
        ensures base <= SlotAddress(elements, sizeT, slot) && SlotAddress(elements, sizeT, slot) + sizeT <= base + bytes
      {
        FreeList.MultiplesAscend(sizeT, slot, slots);
      }
    } else {
      var slot := SlotSticksOut(slots, sizeT, bytes);
      assert SlotAddress(elements, sizeT, slot) + sizeT > base + bytes;
    }
  }

  /** Every slot lies inside the element memory if and only if that memory was granted and could be aligned, and its
      size does not exceed a size_t. */
  lemma SlotsInsideExactly(granted: bool, base: nat, n: nat, count: nat, sizeT: nat, a: nat, slack: nat)
    requires base > 0 && n * count > 0 && sizeT > 0 && a > 0 && slack < WORD
    ensures SlotsInside(granted, base, n, count, sizeT, a, slack)
            <==> Elements(granted, base, n, count, sizeT, a, slack).Some? && sizeT * (n * count) < WORD
  {
    var slots := n * count;
    FreeList.ModuloOfProduct(sizeT, slots);
    AlignedMemory.RegionAt(base, slots % WORD, sizeT, a, slack);
    AllInsideExactly(Elements(granted, base, n, count, sizeT, a, slack), base,
                     AlignedMemory.BytesRequested(slots % WORD, sizeT, slack), slots, sizeT);
  }

  /** If the slots need more than a size_t can say, one of them reaches past any allocation. */
  lemma SlotSticksOut(slots: nat, sizeT: nat, bytes: nat) returns (slot: nat)
    requires sizeT > 0 && bytes < WORD <= sizeT * slots
    ensures slot < slots && (sizeT * slot) % WORD + sizeT > bytes
  {
    slot := bytes / sizeT;
    assert sizeT * slot <= bytes < sizeT * slot + sizeT;
    if slot > slots {
      FreeList.MultiplesAscend(sizeT, slots, slot);
    }
    assert (sizeT * slot) % WORD == sizeT * slot;
  }

  ghost predicate SlotsAlwaysInside(granted: bool, n: nat, count: nat, sizeT: nat, a: nat, slack: nat)
    requires a > 0
  {
    forall base: nat {:trigger SlotsInside(granted, base, n, count, sizeT, a, slack)} ::
      base > 0 ==> SlotsInside(granted, base, n, count, sizeT, a, slack)
  }

  lemma SlotsInsideAt(granted: bool, base: nat, n: nat, count: nat, sizeT: nat, a: nat, slack: nat)
    requires base > 0 && n * count > 0 && sizeT > 0 && a > 0 && slack < WORD
    ensures SlotsInside(granted, base, n, count, sizeT, a, slack)
            <==> && granted && AlignedMemory.RoundUp(base, a) - base <= slack && sizeT * (n * count) + slack < WORD
  {
    SlotsInsideExactly(granted, base, n, count, sizeT, a, slack);
    RegionOfSlots(base, n * count, sizeT, a, slack);
  }

  lemma RegionOfSlots(base: nat, slots: nat, sizeT: nat, a: nat, slack: nat)
    requires a > 0 && slack < WORD
    ensures sizeT * slots < WORD ==>
              (AlignedMemory.Region(base, slots % WORD, sizeT, a, slack).Some?
               <==> AlignedMemory.RoundUp(base, a) - base <= slack && sizeT * slots + slack < WORD)
  {
    AlignedMemory.RegionAt(base, slots % WORD, sizeT, a, slack);
    WrapsToItself(sizeT, slots);
  }

  lemma WrapsToItself(sizeT: nat, slots: nat)
    ensures sizeT * slots < WORD ==> (sizeT * (slots % WORD)) % WORD == sizeT * slots
  {
    FreeList.ModuloOfProduct(sizeT, slots);
    SmallModulo(sizeT * slots);
  }

  lemma SmallModulo(x: nat)
    ensures x < WORD ==> x % WORD == x
  {
  }

  /** Wherever the allocator puts the memory, elements are constructed and destroyed inside it, if and only if it was
      granted, the slack covers the alignment, and elements and slack together fit in a size_t. */
  lemma SlotsAlwaysInsideExactly(granted: bool, n: nat, count: nat, sizeT: nat, a: nat, slack: nat)
    requires n * count > 0 && sizeT > 0 && a > 0 && slack < WORD
    ensures SlotsAlwaysInside(granted, n, count, sizeT, a, slack)
            <==> granted && a <= slack + 1 && sizeT * (n * count) + slack < WORD
  {
    if granted && a <= slack + 1 && sizeT * (n * count) + slack < WORD {
      forall base: nat | base > 0 ensures SlotsInside(granted, base, n, count, sizeT, a, slack) {
        SlotsInsideAt(granted, base, n, count, sizeT, a, slack);
      }
    } else {
      AlignedMemory.FirstMultiples(a);
      SlotsInsideAt(granted, 1, n, count, sizeT, a, slack);
      assert !SlotsInside(granted, 1, n, count, sizeT, a, slack);
    }
  }

  // ---- The objects that do it in place ----

  ghost predicate IsLowest(low: nat, past: seq<nat>) {
    low in past && forall i {:trigger past[i]} :: 0 <= i < |past| ==> low <= past[i]
  }

  lemma LowestSoFar(low: nat, past: seq<nat>, v: nat)
    requires IsLowest(low, past)
    ensures IsLowest(if v < low then v else low, past + [v])
    ensures past != [] && low <= past[|past| - 1]
  {
    if low in past {
      assert low in past + [v];
    }
    assert (past + [v])[|past|] == v;
  }

  /** The loop over one slice, which constructs (`v`) or destroys its elements. */
  method FillSlice(built: array<bool>, first: nat, len: nat, v: bool)
    requires first + len <= built.Length
    modifies built
    ensures built[..] == Fill(old(built[..]), first, len, v)
  {
    var k := first;
    while k < first + len
      invariant first <= k <= first + len
      invariant forall j {:trigger built[j]} :: 0 <= j < built.Length ==>
                  built[j] == if first <= j < k then v else old(built[j])
    {
      built[k] := v;
      k := k + 1;
    }
  }

  /** What allocate_raw comes back with: the address of the first element, null because the pool is exhausted, or the
      exception of an element's constructor. */
  datatype Allocation = Array(address: nat) | Exhausted | Threw

  class SharedPointerArrayAllocator {
    const elements: Option<nat>
    const sizeT: nat
    const nElements: nat
    const count: nat
    const plain: bool
    const sizeSharedT: nat
    const rawAligned: nat
    const ptrs: array<nat>
    const built: array<bool>
    var nAvailable: nat
    var historicMin: nat
    ghost var freeBlocks: seq<nat>
    ghost var held: map<nat, Phase>
    ghost var past: seq<nat>

    ghost function View(): Slices
      reads this, built
    {
      Slices(freeBlocks, held, built[..])
    }

    ghost predicate Valid()
      reads this, ptrs, built
    {
      && sizeSharedT > 0 && ptrs.Length == nElements
      && |freeBlocks| == nAvailable <= nElements
      && (forall k {:trigger ptrs[k]} :: 0 <= k < nAvailable ==> ptrs[k] == rawAligned + sizeSharedT * freeBlocks[k])
      && Inv(View(), nElements, count, plain)
      && IsLowest(historicMin, past) && past != [] && past[|past| - 1] == nAvailable
    }

    /** `size` and `base` are those of the pool of pointers; the others describe the memory of the elements. */
    constructor (n: nat, countIn: nat, isArithmetic: bool, size: nat, base: nat,
                 granted: bool, elementsBase: nat, sizeElement: nat, alignElement: nat, slack: nat)
      requires size > 0 && alignElement > 0
      ensures Valid() && View() == Start(n, countIn)
      ensures nElements == n && count == countIn && plain == isArithmetic && sizeSharedT == size && rawAligned == base
      ensures past == [n] && sizeT == sizeElement
      ensures elements == Elements(granted, elementsBase, n, countIn, sizeElement, alignElement, slack)
    {
      elements := Elements(granted, elementsBase, n, countIn, sizeElement, alignElement, slack);
      sizeT := sizeElement;
      nElements, count, plain, sizeSharedT, rawAligned := n, countIn, isArithmetic, size, base;
      ptrs := new nat[n];
      built := new bool[countIn * n];
      nAvailable, historicMin := n, n;
      freeBlocks, held, past := Start(n, countIn).free, map[], [n];
      new;
      forall k | 0 <= k < built.Length {
        built[k] := false;
      }
      assert built[..] == Start(n, countIn).built;
      for i := 0 to n
        invariant built[..] == Start(n, countIn).built
        invariant nAvailable == historicMin == n && freeBlocks == Start(n, countIn).free && held == map[] && past == [n]
        invariant forall k {:trigger ptrs[k]} :: 0 <= k < i ==> ptrs[k] == rawAligned + sizeSharedT * k
      {
        ptrs[i] := rawAligned + sizeSharedT * i;
      }
      StartInv(n, countIn, plain);
    }

    /** `None` is the bad_alloc that tells the caller the pool is exhausted. */
    method Loan() returns (p: Option<nat>)
      requires Valid()
      modifies this
      ensures Valid()
      ensures p.None? <==> old(freeBlocks) == []
      ensures p.None? ==> View() == old(View()) && past == old(past)
      ensures p.Some? ==>
                && View() == Do(old(View()), Lend, count, plain)
                && p.value == rawAligned + sizeSharedT * old(freeBlocks[|freeBlocks| - 1])
                && past == old(past) + [nAvailable]
    {
      if nAvailable == 0 {
        return None;
      }
      ghost var s' := Do(View(), Lend, count, plain);
      assert Inv(s', nElements, count, plain) by {
        InvStep(View(), nElements, Lend, count, plain);
      }
      nAvailable := nAvailable - 1;
      assert IsLowest(if nAvailable < historicMin then nAvailable else historicMin, past + [nAvailable]) by {
        LowestSoFar(historicMin, past, nAvailable);
      }
      historicMin := if nAvailable < historicMin then nAvailable else historicMin;
      past := past + [nAvailable];
      p := Some(ptrs[nAvailable]);
      freeBlocks := s'.free;
      held := s'.held;
      assert View() == s';
    }

    ghost predicate Inside(ptr: nat, b: nat) {
      rawAligned + sizeSharedT * b <= ptr < rawAligned + sizeSharedT * b + sizeSharedT
    }

    /** The first slot of the slice that belongs to the block around `ptr`. */
    method FirstSlot(ptr: nat, ghost b: nat) returns (first: nat)
      requires sizeSharedT > 0 && Inside(ptr, b) && b < nElements
      ensures first == count * b && first + count <= count * nElements
    {
      AlignedMemory.InteriorPointerFindsItsBlock(ptr, rawAligned, sizeSharedT, b);
      FreeList.MultiplesAscend(count, b, nElements);
      first := count * AlignedMemory.ElementNumber(ptr, rawAligned, sizeSharedT);
    }

    /** The tail of allocate_raw: `ret` is where the pooled pointer lives, somewhere inside block `b`. */
    method ConstructSlice(ret: nat, throwsAt: Option<nat>, ghost b: nat) returns (first: nat, complete: bool)
      requires Valid() && Legal(View(), Construct(b), count, plain) && Inside(ret, b)
      modifies `held, built
      ensures Valid() && first == count * b
      ensures complete <==> Completes(throwsAt, count, plain)
      ensures complete ==> View() == Do(old(View()), Construct(b), count, plain)
      ensures !complete ==> View() == Do(old(View()), ConstructThrows(b, throwsAt.value), count, plain)
    {
      first := FirstSlot(ret, b);
      complete := Completes(throwsAt, count, plain);
      ghost var move := if complete then Construct(b) else ConstructThrows(b, throwsAt.value);
      InvStep(View(), nElements, move, count, plain);
      if !plain {
        FillSlice(built, first, if complete then count else throwsAt.value, true);
      }
      held := held[b := if complete then Live else Thrown(throwsAt.value)];
      assert View() == Do(old(View()), move, count, plain);
    }

    /** `inner` is the offset of the pooled pointer inside its block; an exception drops that pointer again. */
    method AllocateRaw(inner: nat, throwsAt: Option<nat>) returns (r: Allocation)
      requires Valid() && inner < sizeSharedT
      modifies this, built, ptrs
      ensures r == Exhausted <==> old(freeBlocks) == []
      ensures r == Threw <==> old(freeBlocks) != [] && !plain && throwsAt.Some? && throwsAt.value < count
      ensures r.Array? ==>
                var last := |old(freeBlocks)| - 1;
                freeBlocks == old(freeBlocks)[..last] && held == old(held)[old(freeBlocks)[last] := Live]
      ensures !r.Array? ==> freeBlocks == old(freeBlocks) && held == old(held)
      ensures r.Array? ==>
                var first := count * old(freeBlocks)[|old(freeBlocks)| - 1];
                r.address == (if elements.Some? then elements.value else 0) + (sizeT * first) % WORD
      ensures View() == Allocate(old(View()), throwsAt, count, plain)
      ensures Valid()
    {
      var p := Loan();
      if p.None? {
        return Exhausted;
      }
      AllocateOutcome(old(View()), nElements, throwsAt, count, plain);
      ghost var b := old(freeBlocks[|freeBlocks| - 1]);
      var slot, complete := ConstructSlice(p.value + inner, throwsAt, b);
      if !complete {
        Accept(p, b);
        return Threw;
      }
      return Array(SlotAddress(elements, sizeT, slot));
    }

    /** The callback of a release: `p` is the block's own address. */
    method DestroySlice(p: nat, ghost b: nat)
      requires Valid() && Legal(View(), Destroy(b), count, plain) && p == rawAligned + sizeSharedT * b
      modifies `held, built
      ensures Valid() && View() == Do(old(View()), Destroy(b), count, plain)
    {
      InvStep(View(), nElements, Destroy(b), count, plain);
      var first := FirstSlot(p, b);
      if !plain {
        FillSlice(built, first, count, false);
      }
      held := held[b := Destroyed];
      assert View() == Do(old(View()), Destroy(b), count, plain);
    }

    method PushBack(p: nat, ghost b: nat)
      requires Valid() && Legal(View(), Return(b), count, plain) && p == rawAligned + sizeSharedT * b
      modifies this, ptrs
      ensures Valid() && View() == Do(old(View()), Return(b), count, plain)
      ensures past == old(past) + [nAvailable]
    {
      ghost var s' := Do(View(), Return(b), count, plain);
      assert Inv(s', nElements, count, plain) by {
        InvStep(View(), nElements, Return(b), count, plain);
      }
      assert |held| > 0 by {
        assert b in held.Keys;
      }
      LowestSoFar(historicMin, past, nAvailable + 1);
      ptrs[nAvailable] := p;
      nAvailable := nAvailable + 1;
      freeBlocks := s'.free;
      held := s'.held;
      past := past + [nAvailable];
      assert View() == s';
    }

    /** Null is ignored; otherwise the slice is destroyed, and then the block is free again. */
    method Accept(p: Option<nat>, ghost b: nat)
      requires Valid()
      requires p.Some? ==> Legal(View(), Destroy(b), count, plain) && p.value == rawAligned + sizeSharedT * b
      modifies this, ptrs, built
      ensures Valid()
      ensures View() == if p.None? then old(View()) else Release(old(View()), b, count, plain)
      ensures p.Some? ==> freeBlocks == old(freeBlocks) + [b] && held == old(held) - {b}
    {
      if p.Some? {
        assert old(held)[b := Destroyed] - {b} == old(held) - {b};
        DestroySlice(p.value, b);
        PushBack(p.value, b);
      }
    }

    method Statistics() returns (nOutstanding: nat, nFree: nat, lowest: nat)
      requires Valid()
      ensures nFree == |freeBlocks| && nOutstanding == |held|
      ensures IsLowest(lowest, past)
    {
      return nElements - nAvailable, nAvailable, historicMin;
    }
  }
}
