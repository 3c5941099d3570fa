/** The bump allocator of the wasm build (magna-gqlmin `wasm.rs`), on 32-bit words. */
module Bump {
  import opened Basics

  const ARENA_SIZE: nat := 256 * 1024
  const WORD: nat := 0x1_0000_0000

  // ----- words -----

  function Pow2(k: nat): (p: nat)
    ensures p >= 1
  {
    if k == 0 then 1 else 2 * Pow2(k - 1)
  }

  /** Bitwise conjunction. */
  function And(a: nat, b: nat): nat {
    if a == 0 || b == 0 then 0 else 2 * And(a / 2, b / 2) + (a % 2) * (b % 2)
  }

  function Not32(a: nat): nat
    requires a < WORD
  {
    WORD - 1 - a
  }

  function WrappingAdd(a: nat, b: nat): nat {
    (a + b) % WORD
  }

  lemma {:induction false} AndOnes(x: nat, w: nat)
    requires x < Pow2(w)
    ensures And(x, Pow2(w) - 1) == x
  {
    if w > 0 {
      assert (Pow2(w) - 1) / 2 == Pow2(w - 1) - 1;
      AndOnes(x / 2, w - 1);
    }
  }

  lemma {:induction false} ModHalves(x: nat, p: nat)
    requires p >= 1
    ensures x % (2 * p) == 2 * ((x / 2) % p) + x % 2
  {
    var h := x / 2;
    var q, r := h / p, h % p;
    assert h == p * q + r;
    assert x == (2 * p) * q + (2 * r + x % 2);
    ModUnique(2 * p, q, 2 * r + x % 2);
  }

  lemma {:induction false} TimesAtLeast(p: nat, a: nat, b: nat)
    requires a < b
    ensures p * b >= p * a + p
  {
    assert p * b == p * a + p * (b - a);
    assert p * (b - a) == p + p * (b - a - 1);
  }

  lemma {:induction false} DivisionUnique(p: nat, q: nat, r: nat, d: nat, m: nat)
    requires r < p && m < p && p * q + r == p * d + m
    ensures q == d && r == m
  {
    if d > q {
      TimesAtLeast(p, q, d);
    } else if d < q {
      TimesAtLeast(p, d, q);
    }
  }

  lemma {:induction false} ModUnique(p: nat, q: nat, r: nat)
    requires r < p
    ensures (p * q + r) % p == r
  {
    var x := p * q + r;
    DivisionUnique(p, q, r, x / p, x % p);
  }

  /** Clearing the low bits with a mask is rounding down to a multiple of the power of two. */
  lemma {:induction false} MaskClearsLowBits(x: nat, w: nat, k: nat)
    requires x < Pow2(w) && k <= w
    ensures Pow2(k) <= Pow2(w)
    ensures And(x, Pow2(w) - Pow2(k)) == x - x % Pow2(k)
  {
    if k == 0 {
      AndOnes(x, w);
    } else {
      MaskClearsLowBits(x / 2, w - 1, k - 1);
      var y := Pow2(w) - Pow2(k);
      assert y % 2 == 0 && y / 2 == Pow2(w - 1) - Pow2(k - 1);
      ModHalves(x, Pow2(k - 1));
    }
  }

  /** The least multiple of `align` that is not below `n`. */
  function RoundUp(n: nat, align: nat): nat
    requires align >= 1
  {
    if n % align == 0 then n else n + (align - n % align)
  }

  lemma {:induction false} RoundUpIsLeast(n: nat, align: nat, m: nat)
    requires align >= 1
    ensures RoundUp(n, align) >= n && RoundUp(n, align) % align == 0
    ensures m >= n && m % align == 0 ==> m >= RoundUp(n, align)
  {
    var q, r := n / align, n % align;
    assert n == align * q + r;
    if r != 0 {
      assert RoundUp(n, align) == align * (q + 1) + 0;
      ModUnique(align, q + 1, 0);
      if m >= n && m % align == 0 {
        var d := m / align;
        assert m == align * d;
        if d > q + 1 {
          TimesAtLeast(align, q + 1, d);
        } else if d < q {
          TimesAtLeast(align, d, q);
        }
      }
    }
  }

  /** The mask form, for every power of two up to half the word. */
  lemma {:induction false} MaskIsRoundUp(off: nat, k: nat)
    requires k <= 31 && off + Pow2(k) <= WORD
    ensures Pow2(k) <= WORD
    ensures And(WrappingAdd(off, Pow2(k) - 1), Not32(Pow2(k) - 1)) == RoundUp(off, Pow2(k))
  {
    WordIsPow2();
    var x := off + Pow2(k) - 1;
    assert WrappingAdd(off, Pow2(k) - 1) == x;
    MaskClearsLowBits(x, 32, k);
    assert Not32(Pow2(k) - 1) == Pow2(32) - Pow2(k);
    DownOfUp(off, Pow2(k));
    hide And, Pow2, RoundUp, WrappingAdd, Not32;
  }

  lemma {:induction false} WordIsPow2()
    ensures Pow2(32) == WORD
  {
    assert Pow2(8) == 256;
    assert Pow2(16) == 65536;
    assert Pow2(24) == 0x100_0000;
  }

  lemma {:induction false} DownOfUp(n: nat, align: nat)
    requires align >= 1
    ensures (n + align - 1) - (n + align - 1) % align == RoundUp(n, align)
  {
    var q, r := n / align, n % align;
    assert n == align * q + r;
    if r == 0 {
      ModUnique(align, q, align - 1);
    } else {
      assert n + align - 1 == align * (q + 1) + (r - 1);
      ModUnique(align, q + 1, r - 1);
    }
  }

  // ----- the allocator -----

  datatype Block = Block(start: nat, size: nat, align: nat)

  ghost predicate Disjoint(a: Block, b: Block) {
    a.start + a.size <= b.start || b.start + b.size <= a.start
  }

  class BumpAllocator {
    var offset: nat
    /** Every block handed out so far. */
    ghost var blocks: seq<Block>

    ghost predicate Valid()
      reads this
    {
      && offset <= ARENA_SIZE
      && (forall i :: 0 <= i < |blocks| ==> blocks[i].start + blocks[i].size <= offset)
      && (forall i :: 0 <= i < |blocks| ==> blocks[i].align >= 1 && blocks[i].start % blocks[i].align == 0)
      && (forall i, j :: 0 <= i < j < |blocks| ==> Disjoint(blocks[i], blocks[j]))
    }

    constructor ()
      ensures Valid() && blocks == [] && offset == 0
    {
      offset, blocks := 0, [];
    }

    /** A block at the least aligned offset, or null exactly when it does not fit. */
    method Alloc(size: nat, k: nat) returns (start: Option<nat>)
      requires Valid() && size < WORD && k <= 31
      modifies this
      ensures Valid()
      ensures start.None? <==> RoundUp(old(offset), Pow2(k)) + size > ARENA_SIZE
      ensures start.None? ==> offset == old(offset) && blocks == old(blocks)
      ensures start.Some? ==>
        && start.value == RoundUp(old(offset), Pow2(k)) && offset == start.value + size >= old(offset)
        && blocks == old(blocks) + [Block(start.value, size, Pow2(k))]
    {
      var align := Pow2(k);
      Pow2Bound(k);
      MaskIsRoundUp(offset, k);
      RoundUpIsLeast(offset, align, 0);
      var off := offset;
      var mask := align - 1;
      var begin := And(WrappingAdd(off, mask), Not32(mask));
      if begin < off || begin > ARENA_SIZE {
        return None;
      }
      if begin + size >= WORD {
        return None;
      }
      var end := begin + size;
      if end > ARENA_SIZE {
        return None;
      }
      offset := end;
      blocks := blocks + [Block(begin, size, align)];
      start := Some(begin);
    }

    method Dealloc(start: nat)
      requires Valid()
      ensures Valid() && offset == old(offset) && blocks == old(blocks)
    {
    }
  }

  lemma {:induction false} Pow2Bound(k: nat)
    requires k <= 31
    ensures Pow2(k) <= 0x8000_0000
  {
    assert Pow2(8) == 256 && Pow2(16) == 65536 && Pow2(24) == 0x100_0000;
    Pow2Grows(k, 31);
  }

  lemma {:induction false} Pow2Grows(j: nat, k: nat)
    requires j <= k
    ensures Pow2(j) <= Pow2(k)
  {
    if j < k {
      Pow2Grows(j, k - 1);
    }
  }

  /** Any run of allocations: the blocks lie in the arena and do not overlap. */
  method AllocateAll(sizes: seq<nat>, logAligns: seq<nat>) returns (starts: seq<Option<nat>>)
    requires |sizes| == |logAligns| && forall i :: 0 <= i < |sizes| ==> sizes[i] < WORD && logAligns[i] <= 31
    ensures |starts| == |sizes|
    ensures forall i :: 0 <= i < |sizes| && starts[i].Some? ==>
      starts[i].value % Pow2(logAligns[i]) == 0 && starts[i].value + sizes[i] <= ARENA_SIZE
    ensures forall i, j :: 0 <= i < j < |sizes| && starts[i].Some? && starts[j].Some? ==>
      starts[i].value + sizes[i] <= starts[j].value
  {
    var allocator := new BumpAllocator();
    starts := [];
    for n := 0 to |sizes|
      invariant |starts| == n && allocator.Valid() && fresh(allocator)
      invariant forall i :: 0 <= i < n && starts[i].Some? ==>
        starts[i].value % Pow2(logAligns[i]) == 0 && starts[i].value + sizes[i] <= allocator.offset
      invariant forall i, j :: 0 <= i < j < n && starts[i].Some? && starts[j].Some? ==>
        starts[i].value + sizes[i] <= starts[j].value
    {
      RoundUpIsLeast(allocator.offset, Pow2(logAligns[n]), 0);
      var start := allocator.Alloc(sizes[n], logAligns[n]);
      starts := starts + [start];
    }
  }
}
