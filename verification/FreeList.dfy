/** The free list of a shared-memory pool: a stack of block offsets, valid under every process's own mapping. */
module FreeList {
  import opened Common

  /** `free` is `pointers_alignedPtr[..nAvailable]`; `out` are the offsets handed out and not returned. */
  datatype Ledger = Ledger(free: seq<nat>, out: set<nat>)

  ghost predicate IsBlock(n: nat, stride: nat, o: nat) {
    exists i: nat {:trigger stride * i} :: i < n && o == stride * i
  }

  ghost predicate NoDuplicates(xs: seq<nat>) {
    forall i, j {:trigger xs[i], xs[j]} :: 0 <= i < j < |xs| ==> xs[i] != xs[j]
  }

  /** Free and outstanding offsets are distinct, disjoint, and together exactly the `n` multiples of the stride. */
  ghost predicate Partition(l: Ledger, n: nat, stride: nat) {
    && NoDuplicates(l.free)
    && (forall o :: o in l.free ==> o !in l.out)
    && |l.free| + |l.out| == n
    && forall o: nat {:trigger IsBlock(n, stride, o)} :: o in l.free || o in l.out <==> IsBlock(n, stride, o)
  }

  // ---- Loan and Accept on the ledger ----

  function Lend(l: Ledger): Ledger
    requires l.free != []
  {
    var o := l.free[|l.free| - 1];
    Ledger(l.free[..|l.free| - 1], l.out + {o})
  }

  function TakeBack(l: Ledger, o: nat): Ledger {
    Ledger(l.free + [o], l.out - {o})
  }

  lemma LendKeepsPartition(l: Ledger, n: nat, stride: nat)
    requires Partition(l, n, stride) && l.free != []
    ensures Partition(Lend(l), n, stride)
    ensures l.free[|l.free| - 1] !in l.out
  {
    var last := |l.free| - 1;
    assert l.free == Lend(l).free + [l.free[last]];
    forall o: nat ensures o in Lend(l).free || o in Lend(l).out <==> IsBlock(n, stride, o) {
      assert o in l.free || o in l.out <==> IsBlock(n, stride, o);
    }
  }

  lemma TakeBackKeepsPartition(l: Ledger, n: nat, stride: nat, o: nat)
    requires Partition(l, n, stride) && o in l.out
    ensures Partition(TakeBack(l, o), n, stride)
  {
    forall p: nat ensures p in TakeBack(l, o).free || p in TakeBack(l, o).out <==> IsBlock(n, stride, p) {
      assert p in l.free || p in l.out <==> IsBlock(n, stride, p);
    }
  }

  /** The same, as a rule for lending: lend out everything, the top of the stack first, and no block is lent that is
      already out, and in the end all blocks are out. */
  ghost predicate Accounted(l: Ledger, n: nat, stride: nat)
    decreases |l.free|
  {
    if l.free == [] then
      |l.out| == n && forall o: nat {:trigger IsBlock(n, stride, o)} :: o in l.out <==> IsBlock(n, stride, o)
    else l.free[|l.free| - 1] !in l.out && Accounted(Lend(l), n, stride)
  }

  lemma {:induction false} AccountedIsPartition(l: Ledger, n: nat, stride: nat)
    ensures Accounted(l, n, stride) <==> Partition(l, n, stride)
    decreases |l.free|
  {
    if l.free == [] {
    } else {
      var o := l.free[|l.free| - 1];
      AccountedIsPartition(Lend(l), n, stride);
      if Accounted(l, n, stride) {
        TakeBackKeepsPartition(Lend(l), n, stride, o);
        LendThenTakeBack(l);
      }
      if Partition(l, n, stride) {
        LendKeepsPartition(l, n, stride);
      }
    }
  }

  lemma LendThenTakeBack(l: Ledger)
    requires l.free != [] && l.free[|l.free| - 1] !in l.out
    ensures TakeBack(Lend(l), l.free[|l.free| - 1]) == l
  {
    var last := |l.free| - 1;
    assert l.free[..last] + [l.free[last]] == l.free;
    assert l.out + {l.free[last]} - {l.free[last]} == l.out;
  }

  lemma TakeBackIsAccounted(l: Ledger, n: nat, stride: nat, o: nat)
    requires Accounted(l, n, stride) && o in l.out
    ensures Accounted(TakeBack(l, o), n, stride)
  {
    var back := TakeBack(l, o);
    assert back.free[..|back.free| - 1] == l.free && back.out + {o} == l.out;
    assert Lend(back) == l;
  }

  lemma {:induction false} MultiplesAscend(stride: nat, i: nat, j: nat)
    requires i < j
    ensures stride * i + stride <= stride * j
  {
    assert stride * j == stride * (j - 1) + stride;
    if i < j - 1 {
      MultiplesAscend(stride, i, j - 1);
    }
  }

  /** Block ranges lie inside the region and never overlap. */
  lemma BlocksAreDisjoint(n: nat, stride: nat, o: nat, p: nat)
    requires IsBlock(n, stride, o) && IsBlock(n, stride, p)
    ensures o + stride <= stride * n
    ensures o != p ==> o + stride <= p || p + stride <= o
  {
    var i: nat :| i < n && o == stride * i;
    var j: nat :| j < n && p == stride * j;
    MultiplesAscend(stride, i, n);
    if i < j {
      MultiplesAscend(stride, i, j);
    } else if j < i {
      MultiplesAscend(stride, j, i);
    }
  }

  function Initial(n: nat, stride: nat): seq<nat> {
    seq(n, i requires 0 <= i => stride * i)
  }

  lemma InitialPartition(n: nat, stride: nat)
    requires stride > 0
    ensures Partition(Ledger(Initial(n, stride), {}), n, stride)
  {
    var free := Initial(n, stride);
    forall i, j | 0 <= i < j < n ensures free[i] != free[j] {
      MultiplesAscend(stride, i, j);
    }
    forall o: nat ensures o in free <==> IsBlock(n, stride, o) {
      if IsBlock(n, stride, o) {
        var i: nat :| i < n && o == stride * i;
        assert free[i] == o;
      }
    }
  }

  // ---- Whole runs, by processes that map the region at different addresses ----

  /** A process passes the address at which it sees the pool's first byte. */
  datatype Op = Loan(base: nat) | Accept(base: nat, p: nat)

  ghost predicate Legal(l: Ledger, op: Op) {
    match op
    case Loan(_) => l.free != []
    case Accept(base, p) => p >= base && p - base in l.out
  }

  function Perform(l: Ledger, op: Op): Ledger
    requires Legal(l, op)
  {
    match op
    case Loan(_) => Lend(l)
    case Accept(base, p) => TakeBack(l, p - base)
  }

  ghost predicate History(l: Ledger, ops: seq<Op>, l': Ledger)
    decreases |ops|
  {
    if ops == [] then l == l' else Legal(l, ops[0]) && History(Perform(l, ops[0]), ops[1..], l')
  }

  lemma {:induction false} PartitionHistory(l: Ledger, n: nat, stride: nat, ops: seq<Op>, l': Ledger)
    requires Partition(l, n, stride) && History(l, ops, l')
    ensures Partition(l', n, stride)
    decreases |ops|
  {
    if ops != [] {
      match ops[0] {
        case Loan(_) => LendKeepsPartition(l, n, stride);
        case Accept(base, p) => TakeBackKeepsPartition(l, n, stride, p - base);
      }
      PartitionHistory(Perform(l, ops[0]), n, stride, ops[1..], l');
    }
  }

  lemma ReachablePartition(n: nat, stride: nat, ops: seq<Op>, l: Ledger)
    requires stride > 0 && History(Ledger(Initial(n, stride), {}), ops, l)
    ensures Partition(l, n, stride)
  {
    InitialPartition(n, stride);
    PartitionHistory(Ledger(Initial(n, stride), {}), n, stride, ops, l);
  }

  lemma OutstandingDisjoint(l: Ledger, n: nat, stride: nat, o: nat, p: nat)
    requires Partition(l, n, stride) && o in l.out && p in l.out
    ensures o + stride <= stride * n
    ensures o != p ==> o + stride <= p || p + stride <= o
  {
    BlocksAreDisjoint(n, stride, o, p);
  }

  /** In every reachable state free and outstanding offsets partition the blocks, and the byte ranges that the
      outstanding blocks occupy stay in the region and do not overlap. */
  lemma OutstandingNeverOverlap(n: nat, stride: nat, ops: seq<Op>, l: Ledger)
    requires stride > 0 && History(Ledger(Initial(n, stride), {}), ops, l)
    ensures Partition(l, n, stride)
    ensures forall o, p {:trigger o in l.out, p in l.out} :: o in l.out && p in l.out ==>
              o + stride <= stride * n && (o != p ==> o + stride <= p || p + stride <= o)
  {
    ReachablePartition(n, stride, ops, l);
    forall o, p | o in l.out && p in l.out
      ensures o + stride <= stride * n && (o != p ==> o + stride <= p || p + stride <= o)
    {
      OutstandingDisjoint(l, n, stride, o, p);
    }
  }

  /** A block lent under one mapping and returned under another restores the free list, offset for offset. */
  lemma ReturnUnderAnotherMapping(l: Ledger, n: nat, stride: nat, base: nat, base': nat)
    requires Partition(l, n, stride) && l.free != []
    ensures var o := l.free[|l.free| - 1];
            var lent := Perform(l, Loan(base));
            Legal(lent, Accept(base', base' + o)) && Perform(lent, Accept(base', base' + o)) == l
  {
    assert l.free[|l.free| - 1] in l.free;
    LendThenTakeBack(l);
  }

  // ---- When the region is large enough ----

  /** What is asked of the segment, in 64-bit arithmetic. */
  function BytesRequested(n: nat, count: nat, size: nat): nat {
    (size * ((n * count) % WORD)) % WORD
  }

  function OffsetStored(i: nat, count: nat, size: nat): nat {
    (size * count * i) % WORD
  }

  lemma ModuloOfProduct(a: nat, x: nat)
    ensures (a * (x % WORD)) % WORD == (a * x) % WORD
  {
    var q, r := x / WORD, x % WORD;
    assert a * x == (a * q) * WORD + a * r;
    ModuloOfSum(a * q, a * r);
  }

  lemma {:induction false} ModuloOfSum(q: nat, r: nat)
    ensures (q * WORD + r) % WORD == r % WORD
  {
    if q > 0 {
      ModuloOfSum(q - 1, r);
      assert q * WORD + r == ((q - 1) * WORD + r) + WORD;
    }
  }

  lemma RoomForAll(n: nat, block: nat, i: nat)
    requires block * n < WORD && i < n
    ensures (block * i) % WORD + block <= (block * n) % WORD
  {
    MultiplesAscend(block, i, n);
  }

  lemma BlockThatSticksOut(n: nat, block: nat) returns (i: nat)
    requires block > 0 && block * n >= WORD
    ensures i < n && (block * i) % WORD + block > (block * n) % WORD
  {
    var room := (block * n) % WORD;
    i := room / block;
    assert block * i <= room < block * i + block;
    if i >= n {
      if i > n {
        MultiplesAscend(block, n, i);
      }
      assert false;
    }
  }

  ghost predicate BlocksInside(n: nat, count: nat, size: nat) {
    forall i: nat {:trigger OffsetStored(i, count, size)} :: i < n ==>
      OffsetStored(i, count, size) + size * count <= BytesRequested(n, count, size)
  }

  /** All blocks lie inside the memory requested exactly when the total size does not exceed a size_t. */
  lemma RegionHoldsBlocksExactly(n: nat, count: nat, size: nat)
    requires n > 0 && count > 0 && size > 0
    ensures BlocksInside(n, count, size) <==> size * count * n < WORD
  {
    var block := size * count;
    assert block > 0;
    assert BytesRequested(n, count, size) == (block * n) % WORD by {
      ModuloOfProduct(size, n * count);
      assert size * (n * count) == block * n;
    }
    if block * n < WORD {
      forall i: nat | i < n
        ensures OffsetStored(i, count, size) + block <= BytesRequested(n, count, size)
      {
        RoomForAll(n, block, i);
      }
    } else {
      var i := BlockThatSticksOut(n, block);
      assert OffsetStored(i, count, size) == (block * i) % WORD;
    }
  }

  // ---- The object that updates the free list in place ----

  /** The offsets as they are stored. */
  function Stored(n: nat, count: nat, size: nat): seq<nat> {
    seq(n, i requires 0 <= i => OffsetStored(i, count, size))
  }

  lemma StoredIsInitial(n: nat, count: nat, size: nat)
    requires size > 0 && size * count * n < WORD
    ensures Stored(n, count, size) == Initial(n, size * count)
    ensures count > 0 ==> Accounted(Ledger(Initial(n, size * count), {}), n, size * count)
  {
    var stride := size * count;
    forall k: nat | k < n ensures OffsetStored(k, count, size) == stride * k {
      MultiplesAscend(stride, k, n);
    }
    if count > 0 {
      InitialPartition(n, stride);
      AccountedIsPartition(Ledger(Initial(n, stride), {}), n, stride);
    }
  }

  method StoreOffsets(n: nat, count: nat, size: nat) returns (offsets: array<nat>)
    ensures fresh(offsets) && offsets[..] == Stored(n, count, size)
  {
    offsets := new nat[n];
    for i := 0 to n
      invariant forall k: nat :: k < i ==> offsets[k] == OffsetStored(k, count, size)
    {
      offsets[i] := (size * count * i) % WORD;
    }
  }

  class AllocatorState {
    const nElementsTotal: nat
    const countPerElement: nat
    var pointers: array<nat>
    var nAvailable: nat
    var initialized: bool
    var sizeSharedT: nat
    ghost var out: set<nat>

    ghost function View(): Ledger
      reads this, pointers
      requires nAvailable <= pointers.Length
    {
      Ledger(pointers[..nAvailable], out)
    }

    /** The pool is set up, and its blocks fit in memory. */
    ghost predicate Valid()
      reads this, pointers
    {
      && initialized && sizeSharedT > 0
      && pointers.Length == nElementsTotal && nAvailable <= nElementsTotal
      && sizeSharedT * countPerElement * nElementsTotal < WORD
      && (countPerElement == 0 ==> out == {} && nAvailable == nElementsTotal)
      && (countPerElement > 0 ==> Accounted(View(), nElementsTotal, sizeSharedT * countPerElement))
    }

    /** So free and outstanding offsets partition the blocks. */
    lemma IsPartition()
      requires Valid() && countPerElement > 0
      ensures Partition(View(), nElementsTotal, sizeSharedT * countPerElement)
    {
      AccountedIsPartition(View(), nElementsTotal, sizeSharedT * countPerElement);
    }

    lemma OutstandingCount()
      requires Valid()
      ensures |out| == nElementsTotal - nAvailable && (out != {} ==> |out| > 0)
    {
      if countPerElement > 0 { IsPartition(); }
    }

    constructor (nElements: nat, count: nat)
      ensures !initialized && nElementsTotal == nAvailable == nElements && countPerElement == count && out == {}
      ensures fresh(pointers)
    {
      nElementsTotal, nAvailable, countPerElement := nElements, nElements, count;
      initialized, sizeSharedT, out := false, 0, {};
      pointers := new nat[0];
    }

    /** `granted` tells whether the segment had the memory; without it the call ends in bad_alloc. */
    method Allocate(size: nat, granted: bool) returns (ok: bool)
      requires size > 0
      requires !initialized ==> nAvailable == nElementsTotal && out == {}
      modifies this
      ensures old(initialized) ==> ok && unchanged(this)
      ensures !old(initialized) ==> ok == granted == initialized && out == old(out) && nAvailable == old(nAvailable)
      ensures !ok ==> unchanged(`pointers)
      ensures !old(initialized) && ok ==>
                && fresh(pointers) && sizeSharedT == size
                && pointers[..] == Stored(nElementsTotal, countPerElement, size)
      ensures !old(initialized) && ok && size * countPerElement * nElementsTotal < WORD ==>
                Valid() && View() == Ledger(Initial(nElementsTotal, size * countPerElement), {})
    {
      if initialized {
        return true;
      }
      sizeSharedT := size;
      if !granted {
        return false;
      }
      pointers := StoreOffsets(nElementsTotal, countPerElement, size);
      initialized := true;
      if size * countPerElement * nElementsTotal < WORD {
        StoredIsInitial(nElementsTotal, countPerElement, size);
        assert pointers[..nAvailable] == pointers[..];
      }
      return true;
    }

    /** The address handed out is the caller's view of the last free offset. */
    method LoanAt(base: nat) returns (p: Option<nat>)
      requires Valid()
      modifies this
      ensures Valid() && unchanged(`pointers) && unchanged(`sizeSharedT)
      ensures p.Some? <==> old(nAvailable) > 0 && countPerElement > 0
      ensures p.None? <==> |old(out)| == nElementsTotal || countPerElement == 0
      ensures |old(out)| <= nElementsTotal
      ensures p.None? ==> View() == old(View())
      ensures p.Some? ==> p.value >= base && p.value - base !in old(out) && out == old(out) + {p.value - base}
      ensures p.Some? ==>
                && old(View()).free != []
                && p.value == base + old(View()).free[old(nAvailable) - 1]
                && View() == Perform(old(View()), Loan(base))
    {
      OutstandingCount();
      if nAvailable > 0 && countPerElement > 0 {
        nAvailable := nAvailable - 1;
        out := out + {pointers[nAvailable]};
        assert View() == Lend(old(View()));
        return Some(base + pointers[nAvailable]);
      } else {
        return None;
      }
    }

    /** Callers return addresses of blocks that are out, or the null pointer. */
    method AcceptAt(base: nat, p: Option<nat>)
      requires Valid()
      requires p.Some? ==> Legal(View(), Accept(base, p.value))
      modifies this, pointers
      ensures Valid() && unchanged(`pointers) && unchanged(`sizeSharedT)
      ensures out == if p.None? then old(out) else old(out) - {p.value - base}
      ensures View() == if p.None? then old(View()) else Perform(old(View()), Accept(base, p.value))
    {
      if p.None? {
        return;
      }
      OutstandingCount();
      ghost var back := TakeBack(View(), p.value - base);
      assert countPerElement > 0 && Accounted(back, nElementsTotal, sizeSharedT * countPerElement) by {
        TakeBackIsAccounted(View(), nElementsTotal, sizeSharedT * countPerElement, p.value - base);
      }
      pointers[nAvailable] := p.value - base;
      nAvailable := nAvailable + 1;
      out := out - {p.value - base};
      assert View() == back;
    }

    method Statistics() returns (nOutstanding: nat, nFree: nat)
      requires Valid()
      ensures nOutstanding == |out| && nFree == nElementsTotal - |out|
    {
      OutstandingCount();
      nFree := nAvailable;
      nOutstanding := nElementsTotal - nAvailable;
    }
  }
}
