/** `RawMemory::Allocate`: carving an aligned region out of an over-sized allocation. */
module AlignedMemory {
  import opened Common
  import FreeList

  lemma UniqueRemainder(x: nat, a: nat, q: nat, r: nat)
    requires x == a * q + r && r < a
    ensures x % a == r
  {
    var k := x / a;
    assert x == a * k + x % a;
    if k < q {
      FreeList.MultiplesAscend(a, k, q);
    } else if q < k {
      FreeList.MultiplesAscend(a, q, k);
    }
  }

  lemma NoRemainder(q: nat, a: nat)
    requires a > 0
    ensures (q * a) % a == 0
  {
    UniqueRemainder(q * a, a, q, 0);
  }

  /** The first multiple of `a` from `p` on. */
  function RoundUp(p: nat, a: nat): (r: nat)
    requires a > 0
    ensures p <= r < p + a
  {
    if p % a == 0 then p else p + (a - p % a)
  }

  lemma RoundUpIsMultiple(p: nat, a: nat)
    requires a > 0
    ensures RoundUp(p, a) % a == 0
  {
    var k := p / a;
    assert p == a * k + p % a;
    if p % a != 0 {
      assert a * k + a == a * (k + 1);
      UniqueRemainder(RoundUp(p, a), a, k + 1, 0);
    }
  }

  lemma FirstMultiples(a: nat)
    requires a > 0
    ensures RoundUp(0, a) == 0 && RoundUp(1, a) == a
  {
    UniqueRemainder(0, a, 0, 0);
    if a > 1 {
      UniqueRemainder(1, a, 0, 1);
    } else {
      UniqueRemainder(1, a, 1, 0);
    }
  }

  /** `std::align`: the first aligned address in the space, if `size` bytes still fit behind it. */
  function Align(a: nat, size: nat, ptr: nat, space: nat): (r: Option<nat>)
    requires a > 0
  {
    var aligned := RoundUp(ptr, a);
    if aligned >= ptr && size + (aligned - ptr) <= space then Some(aligned) else None
  }

  /** Bytes asked of the allocator, in 64-bit arithmetic; `slack` is alignof(std::max_align_t). */
  function BytesRequested(n: nat, size: nat, slack: nat): nat { (size * n + slack) % WORD }

  /** Where the region starts inside an allocation at `base`; none if alignment fails. */
  function Region(base: nat, n: nat, size: nat, a: nat, slack: nat): Option<nat>
    requires a > 0
  {
    Align(a, (n * size) % WORD, base, BytesRequested(n, size, slack))
  }

  /** The region, of `size * n` bytes whatever a size_t makes of that, is aligned and inside the allocation. */
  ghost predicate InBounds(base: nat, n: nat, size: nat, a: nat, slack: nat)
    requires a > 0
  {
    Region(base, n, size, a, slack).Some? ==>
      var r := Region(base, n, size, a, slack).value;
      r % a == 0 && base <= r && r + size * n <= base + BytesRequested(n, size, slack)
  }

  /** What `Region` answers, in terms of the wrapped size. */
  lemma RegionAt(base: nat, n: nat, size: nat, a: nat, slack: nat)
    requires a > 0 && slack < WORD
    ensures var w := (size * n) % WORD;
            && BytesRequested(n, size, slack) == (if w + slack < WORD then w + slack else w + slack - WORD)
            && Region(base, n, size, a, slack)
               == (if w + slack < WORD && RoundUp(base, a) - base <= slack then Some(RoundUp(base, a)) else None)
    ensures RoundUp(base, a) % a == 0
  {
    RoundUpIsMultiple(base, a);
    assert n * size == size * n;
    WrappedSum(size * n, slack);
  }

  lemma WrappedSum(x: nat, slack: nat)
    requires slack < WORD
    ensures var w := x % WORD;
            (x + slack) % WORD == if w + slack < WORD then w + slack else w + slack - WORD
  {
    var q, w := x / WORD, x % WORD;
    if w + slack < WORD {
      FreeList.ModuloOfSum(q, w + slack);
      assert x + slack == q * WORD + (w + slack);
    } else {
      FreeList.ModuloOfSum(q + 1, w + slack - WORD);
      assert x + slack == (q + 1) * WORD + (w + slack - WORD);
    }
  }

  ghost predicate AlwaysInBounds(n: nat, size: nat, a: nat, slack: nat)
    requires a > 0
  {
    forall base: nat {:trigger InBounds(base, n, size, a, slack)} :: InBounds(base, n, size, a, slack)
  }

  /** Where alignment succeeds, all bytes of the region lie inside the allocation: for every base address, exactly if
      the size does not exceed a size_t, or what it wraps to leaves no room for the slack (then alignment fails). */
  lemma RegionInBoundsExactly(n: nat, size: nat, a: nat, slack: nat)
    requires a > 0 && slack < WORD
    ensures AlwaysInBounds(n, size, a, slack) <==> size * n < WORD || (size * n) % WORD + slack >= WORD
  {
    if size * n < WORD || (size * n) % WORD + slack >= WORD {
      forall base: nat ensures InBounds(base, n, size, a, slack) {
        RegionAt(base, n, size, a, slack);
      }
    } else {
      RegionAt(0, n, size, a, slack);
      FirstMultiples(a);
      assert !InBounds(0, n, size, a, slack);
    }
  }

  ghost predicate AlwaysFits(n: nat, size: nat, a: nat, slack: nat)
    requires a > 0
  {
    forall base: nat {:trigger Region(base, n, size, a, slack)} :: Region(base, n, size, a, slack).Some?
  }

  /** Alignment succeeds for every base address exactly if the slack covers the alignment (for a power of two and a
      slack of 16: an alignment of at most 16) and does not itself make the number of bytes wrap. */
  lemma SlackIsEnoughExactly(n: nat, size: nat, a: nat, slack: nat)
    requires a > 0 && slack < WORD
    ensures AlwaysFits(n, size, a, slack) <==> a <= slack + 1 && (size * n) % WORD + slack < WORD
  {
    if a <= slack + 1 && (size * n) % WORD + slack < WORD {
      forall base: nat ensures Region(base, n, size, a, slack).Some? {
        RegionAt(base, n, size, a, slack);
      }
    } else {
      RegionAt(1, n, size, a, slack);
      FirstMultiples(a);
      assert Region(1, n, size, a, slack) == None;
    }
  }

  /** Both together: every allocation yields an aligned region with all its bytes in bounds exactly if the slack covers
      the alignment and size and slack fit in a size_t. */
  lemma RegionIsUsableExactly(n: nat, size: nat, a: nat, slack: nat)
    requires a > 0 && slack < WORD
    ensures AlwaysFits(n, size, a, slack) && AlwaysInBounds(n, size, a, slack)
            <==> a <= slack + 1 && size * n + slack < WORD
  {
    SlackIsEnoughExactly(n, size, a, slack);
    RegionInBoundsExactly(n, size, a, slack);
  }

  /** Two sizes at which it goes wrong, for eight-byte elements: 2^61 of them are given the slack alone, and a region of
      2^64 bytes inside it; one less, and the request wraps below the size of the region. */
  lemma RegionWraps(base: nat)
    ensures BytesRequested(0x2000_0000_0000_0000, 8, 16) == 16
    ensures Region(16, 0x2000_0000_0000_0000, 8, 8, 16) == Some(16)
    ensures !InBounds(16, 0x2000_0000_0000_0000, 8, 8, 16)
    ensures Region(base, 0x1FFF_FFFF_FFFF_FFFF, 8, 8, 16) == None
  {
    RegionAt(16, 0x2000_0000_0000_0000, 8, 8, 16);
    RegionAt(base, 0x1FFF_FFFF_FFFF_FFFF, 8, 8, 16);
  }

  ghost predicate EveryBlockAligned(aligned: nat, n: nat, size: nat, a: nat)
    requires a > 0
  {
    forall i: nat {:trigger size * i} :: i < n ==> (aligned + size * i) % a == 0
  }

  /** Every block pointer `rawAligned + sizeSharedT * i` is aligned exactly when the block size is a multiple of the
      alignment, or there are not two blocks. */
  lemma BlocksAlignedExactly(aligned: nat, n: nat, size: nat, a: nat)
    requires a > 0 && aligned % a == 0
    ensures EveryBlockAligned(aligned, n, size, a) <==> n <= 1 || size % a == 0
  {
    if n > 1 && EveryBlockAligned(aligned, n, size, a) {
      assert (aligned + size * 1) % a == 0;
      SumOfMultiples(aligned, size, a);
    }
    if size % a == 0 {
      forall i: nat | i < n ensures (aligned + size * i) % a == 0 {
        MultipleOfMultiple(size, i, a);
        SumOfMultiples(aligned, size * i, a);
      }
    } else if n <= 1 {
      assert size * 0 == 0;
    }
  }

  lemma SumOfMultiples(x: nat, y: nat, a: nat)
    requires a > 0 && x % a == 0
    ensures (x + y) % a == 0 <==> y % a == 0
  {
    var q := x / a;
    assert x == q * a;
    AddMultiple(q, y, a);
  }

  lemma AddMultiple(q: nat, y: nat, a: nat)
    requires a > 0
    ensures (q * a + y) % a == y % a
  {
    var k := y / a;
    assert y == a * k + y % a;
    assert q * a + y == a * (q + k) + y % a;
    UniqueRemainder(q * a + y, a, q + k, y % a);
  }

  lemma MultipleOfMultiple(x: nat, i: nat, a: nat)
    requires a > 0 && x % a == 0
    ensures (x * i) % a == 0
  {
    var q := x / a;
    assert x * i == (q * i) * a;
    NoRemainder(q * i, a);
  }

  /** `GetElementNumber`. */
  function ElementNumber(ptr: nat, aligned: nat, size: nat): nat
    requires size > 0 && ptr >= aligned
  {
    (ptr - aligned) / size
  }

  /** The index recovered from any address inside block `i` is `i`, and from no other block. */
  lemma InteriorPointerFindsItsBlock(ptr: nat, aligned: nat, size: nat, i: nat)
    requires size > 0 && ptr >= aligned
    ensures ElementNumber(ptr, aligned, size) == i <==> aligned + size * i <= ptr < aligned + size * i + size
  {
    var k := ElementNumber(ptr, aligned, size);
    assert ptr - aligned == size * k + (ptr - aligned) % size;
    if k < i {
      FreeList.MultiplesAscend(size, k, i);
    } else if i < k {
      FreeList.MultiplesAscend(size, i, k);
    }
  }
}
