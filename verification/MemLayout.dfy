/** The abstract heap of lwip/src/core/mem.c: which blocks tile the heap area and which of
  * them are in use, without the linked headers that record it. */
module MemLayout {
  import Arith

  /** `cuts` are the offsets at which a block starts, and the end of the heap; `used` are the
    * starts of the blocks in use. A block reaches from its start to the next cut, so any two
    * blocks are disjoint and together they cover the heap, by construction. */
  datatype Layout = Layout(cuts: set<nat>, used: set<nat>)

  /** The compile-time settings. `wrap` is the number of values of `mem_size_t`. */
  datatype Config = Config(memSize: nat, header: nat, minData: nat, alignment: nat, wrap: nat) {
    predicate Ok() {
      && 0 < alignment
      && 0 < header
      && header + minData <= memSize < wrap
      && forall x {:trigger Aligned(x)} | x in {memSize, header, minData, wrap} :: Aligned(x)
    }

    /** `x` is a multiple of the alignment; see `AlignedMeaning`. */
    predicate Aligned(x: nat)
      requires 0 < alignment
    {
      if x < alignment then x == 0 else Aligned(x - alignment)
    }

    /** LWIP_MEM_ALIGN_SIZE over unbounded numbers. */
    function AlignUp(x: nat): (r: nat)
      requires 0 < alignment
    {
      (x + alignment - 1) / alignment * alignment
    }

    /** The size both `mem_malloc` and `mem_trim` work with: aligned, stored in a
      * `mem_size_t` (so it can wrap), and at least MIN_SIZE_ALIGNED. */
    function Rounded(x: nat): (r: nat)
      requires Ok()
    {
      var a := AlignUp(x) % wrap;
      if a < minData then minData else a
    }
  }

  // ---------------------------------------------------------------- alignment

  lemma {:induction false} AlignedMeaning(c: Config, x: nat)
    requires 0 < c.alignment
    ensures c.Aligned(x) <==> x % c.alignment == 0
  {
    var a := c.alignment;
    if x < a {
      Arith.DivUnique(x, a, 0, x);
    } else {
      AlignedMeaning(c, x - a);
      var q, r := (x - a) / a, (x - a) % a;
      assert x == (q + 1) * a + r;
      Arith.DivUnique(x, a, q + 1, r);
    }
  }

  lemma {:induction false} AlignedMultiple(c: Config, k: nat)
    requires 0 < c.alignment
    ensures c.Aligned(k * c.alignment)
  {
    if k > 0 {
      AlignedMultiple(c, k - 1);
      assert k * c.alignment == (k - 1) * c.alignment + c.alignment;
    }
  }

  lemma {:induction false} AlignedSum(c: Config, x: nat, y: nat)
    requires 0 < c.alignment && c.Aligned(x) && c.Aligned(y)
    ensures c.Aligned(x + y)
  {
    if x >= c.alignment {
      AlignedSum(c, x - c.alignment, y);
    }
  }

  lemma AlignedEnd(c: Config, s: nat, size: nat)
    requires c.Ok() && c.Aligned(s) && c.Aligned(size)
    ensures c.Aligned(s + c.header + size)
  {
    AlignedSum(c, s, c.header);
    AlignedSum(c, s + c.header, size);
  }

  /** Two aligned numbers are equal or at least one alignment unit apart. */
  lemma {:induction false} AlignedGap(c: Config, x: nat, y: nat)
    requires 0 < c.alignment && c.Aligned(x) && c.Aligned(y) && x < y
    ensures x + c.alignment <= y
  {
    if x >= c.alignment {
      AlignedGap(c, x - c.alignment, y - c.alignment);
    }
  }

  lemma AlignUpBounds(c: Config, x: nat)
    requires 0 < c.alignment
    ensures c.Aligned(c.AlignUp(x))
    ensures x <= c.AlignUp(x) < x + c.alignment
  {
    AlignedMultiple(c, (x + c.alignment - 1) / c.alignment);
  }

  /** What the rounding does to a request: it is aligned, at least MIN_SIZE_ALIGNED, and it
    * covers the request exactly when the alignment did not wrap. A request that wraps is
    * rounded down to MIN_SIZE_ALIGNED. */
  lemma RoundedMeaning(c: Config, x: nat)
    requires c.Ok() && x < c.wrap
    ensures c.Aligned(c.Rounded(x)) && c.minData <= c.Rounded(x)
    ensures x <= c.Rounded(x) <==> c.AlignUp(x) < c.wrap || x <= c.minData
    ensures c.AlignUp(x) >= c.wrap ==> c.Rounded(x) == c.minData
    ensures c.AlignUp(x) < c.wrap ==>
              c.Rounded(x) < x + c.alignment || c.Rounded(x) == c.minData
  {
    AlignUpBounds(c, x);
    var u := c.AlignUp(x);
    if u < c.wrap {
      Arith.DivUnique(u, c.wrap, 0, u);
    } else {
      if u > c.wrap {
        AlignedGap(c, c.wrap, u);
      }
      assert u == c.wrap;
      Arith.DivUnique(u, c.wrap, 1, 0);
    }
  }

  // ---------------------------------------------------------------- well-formed layouts

  /** One block reaches from `s` to `e`. */
  ghost predicate Adjacent(L: Layout, s: nat, e: nat) {
    s in L.cuts && e in L.cuts && s < e && forall t | t in L.cuts :: t <= s || e <= t
  }

  ghost predicate FreeBlock(c: Config, L: Layout, s: nat) {
    s in L.cuts && s < c.memSize && s !in L.used
  }

  /** The cuts lie in the heap and every block can hold minData bytes behind its header. */
  ghost predicate Tiles(c: Config, L: Layout) {
    && 0 in L.cuts && c.memSize in L.cuts
    && (forall s | s in L.cuts :: s <= c.memSize)
    && (forall s, t | s in L.cuts && t in L.cuts && s < t :: s + c.header + c.minData <= t)
    && (forall s | s in L.used :: s in L.cuts && s < c.memSize)
  }

  ghost predicate AllAligned(c: Config, L: Layout)
    requires 0 < c.alignment
  {
    forall s {:trigger c.Aligned(s)} | s in L.cuts :: c.Aligned(s)
  }

  /** A cut between two free blocks. */
  ghost predicate Hole(c: Config, L: Layout, t: nat) {
    FreeBlock(c, L, t) && exists p: nat :: Adjacent(L, p, t) && p !in L.used
  }

  ghost predicate WellFormed(c: Config, L: Layout) {
    c.Ok() && Tiles(c, L) && AllAligned(c, L) && forall t :: !Hole(c, L, t)
  }

  /** The layout `mem_init` sets up: one free block. */
  function Fresh(c: Config): Layout {
    Layout({0, c.memSize}, {})
  }

  /** `low` is the lowest free block, or memSize when there is none; as an exception it may
    * still be a block in `held`, which an allocation in progress has taken but not left yet. */
  ghost predicate LowestFree(c: Config, L: Layout, low: nat, held: set<nat>) {
    && low in L.cuts
    && (forall s | s in L.cuts && s < low :: s in L.used)
    && (low in L.used ==> low in held)
  }

  /** The end of the block `s`. */
  ghost function End(c: Config, L: Layout, s: nat): (e: nat)
    requires s < c.memSize
    ensures s < e <= c.memSize
    ensures e in L.cuts || e == c.memSize
    ensures forall t | t in L.cuts :: t <= s || e <= t
    decreases c.memSize - s
  {
    if s + 1 in L.cuts || s + 1 == c.memSize then s + 1 else End(c, L, s + 1)
  }

  // ---------------------------------------------------------------- operations

  ghost predicate Fits(c: Config, L: Layout, s: nat, size: nat) {
    FreeBlock(c, L, s) && s + c.header + size <= End(c, L, s)
  }

  ghost predicate IsFirstFit(c: Config, L: Layout, s: nat, size: nat) {
    Fits(c, L, s, size) && forall t: nat | Fits(c, L, t, size) :: s <= t
  }

  ghost predicate NothingFits(c: Config, L: Layout, size: nat) {
    forall t: nat :: !Fits(c, L, t, size)
  }

  /** Take `size` bytes of data from the free block `s`; what is left becomes a block of its
    * own if it has room for a header and minData bytes. */
  ghost function Carve(c: Config, L: Layout, s: nat, size: nat): Layout {
    if Fits(c, L, s, size + c.header + c.minData)
    then Layout(L.cuts + {s + c.header + size}, L.used + {s})
    else Layout(L.cuts, L.used + {s})
  }

  /** Give the block `s` back: afterwards there is no cut between two free blocks. */
  ghost function Release(c: Config, L: Layout, s: nat): Layout {
    var L' := Layout(L.cuts, L.used - {s});
    Layout((set t | t in L.cuts && !Hole(c, L', t)), L'.used)
  }

  /** The start of the block that ends at `t`. */
  ghost function Before(L: Layout, t: nat): (p: nat)
    requires 0 < t && 0 in L.cuts
    ensures p in L.cuts && p < t && forall u | u in L.cuts :: u <= p || t <= u
  {
    if t - 1 in L.cuts then t - 1 else Before(L, t - 1)
  }

  /** Cut the used block `s` down to `size` data bytes, if the rest can be given back. */
  ghost function Shrink(c: Config, L: Layout, s: nat, size: nat): Layout
    requires s < c.memSize
  {
    var end, e := s + c.header + size, End(c, L, s);
    if e <= end then L
    else if FreeBlock(c, L, e) then Layout(L.cuts - {e} + {end}, L.used)
    else if end + c.header + c.minData <= e then Layout(L.cuts + {end}, L.used)
    else L
  }

  /** lfree after mem_free of the block `s`. */
  function ReleaseLow(s: nat, low: nat): nat {
    if s < low then s else low
  }

  /** lfree after mem_trim of the block `s`. */
  ghost function ShrinkLow(c: Config, L: Layout, s: nat, size: nat, low: nat): nat
    requires s < c.memSize
  {
    var end, e := s + c.header + size, End(c, L, s);
    if e <= end then low
    else if FreeBlock(c, L, e) then (if low == e then end else low)
    else if end + c.header + c.minData <= e && end < low then end
    else low
  }

  /** The bytes, headers included, of the used blocks from `s` on. */
  ghost function UsedFrom(c: Config, L: Layout, s: nat): nat
    decreases c.memSize - s
  {
    if s >= c.memSize then 0
    else (if s in L.used then End(c, L, s) - s else 0) + UsedFrom(c, L, End(c, L, s))
  }

  // ---------------------------------------------------------------- the operations keep layouts well formed

  lemma FreshWellFormed(c: Config)
    requires c.Ok()
    ensures WellFormed(c, Fresh(c)) && LowestFree(c, Fresh(c), 0, {})
    ensures UsedFrom(c, Fresh(c), 0) == 0
  {
    assert UsedFrom(c, Fresh(c), c.memSize) == 0;
  }

  /** A new cut inside the block that starts at `s` keeps the tiling. */
  lemma CutTiles(c: Config, L: Layout, s: nat, end: nat)
    requires Tiles(c, L) && s in L.cuts && s < c.memSize
    requires s + c.header + c.minData <= end && end + c.header + c.minData <= End(c, L, s)
    ensures Tiles(c, Layout(L.cuts + {end}, L.used))
  {
    var L' := Layout(L.cuts + {end}, L.used);
    forall x, y | x in L'.cuts && y in L'.cuts && x < y
      ensures x + c.header + c.minData <= y
    {
      if x == end {
        assert y in L.cuts;
      } else if y == end && x != s {
        assert x in L.cuts;
      }
    }
  }

  lemma CarveTiles(c: Config, L: Layout, s: nat, size: nat)
    requires Tiles(c, L) && Fits(c, L, s, size) && c.minData <= size
    ensures Tiles(c, Carve(c, L, s, size))
  {
    if Fits(c, L, s, size + c.header + c.minData) {
      CutTiles(c, L, s, s + c.header + size);
    }
  }

  /** Neither does it open a hole if the first part is in use and the next block is too. */
  lemma CutNoHole(c: Config, L: Layout, s: nat, end: nat, t: nat)
    requires s in L.cuts && s < c.memSize && s < end < End(c, L, s)
    requires !FreeBlock(c, L, End(c, L, s))
    ensures Hole(c, Layout(L.cuts + {end}, L.used + {s}), t) ==> Hole(c, L, t)
  {
    var L', e := Layout(L.cuts + {end}, L.used + {s}), End(c, L, s);
    if Hole(c, L', t) {
      var p: nat :| Adjacent(L', p, t) && p !in L'.used;
      assert s in L'.cuts && end in L'.cuts;
      assert t == end ==> p == s;
      assert p == end && e in L.cuts ==> e == t;
      assert Adjacent(L, p, t);
    }
  }

  /** Nor does marking a block as used. */
  lemma UseNoHole(c: Config, L: Layout, s: nat, t: nat)
    ensures Hole(c, Layout(L.cuts, L.used + {s}), t) ==> Hole(c, L, t)
  {
    var L' := Layout(L.cuts, L.used + {s});
    if Hole(c, L', t) {
      var p: nat :| Adjacent(L', p, t) && p !in L'.used;
      assert Adjacent(L, p, t);
    }
  }

  lemma CarveNoHole(c: Config, L: Layout, s: nat, size: nat, t: nat)
    requires Fits(c, L, s, size) && 0 < c.header && forall u :: !Hole(c, L, u)
    ensures !Hole(c, Carve(c, L, s, size), t)
  {
    if Fits(c, L, s, size + c.header + c.minData) {
      assert FreeBlock(c, L, End(c, L, s)) ==> Adjacent(L, s, End(c, L, s));
      assert !Hole(c, L, End(c, L, s));
      if 0 < c.header + c.minData {
        CutNoHole(c, L, s, s + c.header + size, t);
      }
    } else {
      UseNoHole(c, L, s, t);
    }
  }

  lemma CarveWellFormed(c: Config, L: Layout, s: nat, size: nat)
    requires WellFormed(c, L) && Fits(c, L, s, size)
    requires c.Aligned(size) && c.minData <= size
    ensures WellFormed(c, Carve(c, L, s, size))
  {
    CarveTiles(c, L, s, size);
    AlignedEnd(c, s, size);
    forall t ensures !Hole(c, Carve(c, L, s, size), t) {
      CarveNoHole(c, L, s, size, t);
    }
  }

  lemma ShrinkTiles(c: Config, L: Layout, s: nat, size: nat)
    requires Tiles(c, L) && s in L.used && c.minData <= size
    ensures Tiles(c, Shrink(c, L, s, size))
  {
    var end, e, L' := s + c.header + size, End(c, L, s), Shrink(c, L, s, size);
    if e <= end {
      assert L' == L;
    } else if FreeBlock(c, L, e) {
      assert L' == Layout(L.cuts - {e} + {end}, L.used);
      CutTiles(c, Layout(L.cuts - {e}, L.used), s, end);
    } else if end + c.header + c.minData <= e {
      assert L' == Layout(L.cuts + {end}, L.used);
      CutTiles(c, L, s, end);
    } else {
      assert L' == L;
    }
  }

  /** Removing the cut behind a used block opens no hole. */
  lemma MergeNoHole(c: Config, L: Layout, s: nat, t: nat)
    requires s in L.used && s in L.cuts && s < c.memSize
    ensures Hole(c, Layout(L.cuts - {End(c, L, s)}, L.used), t) ==> Hole(c, L, t)
  {
    var e := End(c, L, s);
    var L' := Layout(L.cuts - {e}, L.used);
    if Hole(c, L', t) {
      var p: nat :| Adjacent(L', p, t) && p !in L'.used;
      assert s in L'.cuts && p in L'.cuts && t in L'.cuts;
      assert t < e || e < p;
      assert forall x | x in L.cuts :: x == e || x in L'.cuts;
      assert Adjacent(L, p, t);
    }
  }

  lemma ShrinkNoHole(c: Config, L: Layout, s: nat, size: nat, t: nat)
    requires s in L.used && s in L.cuts && s < c.memSize && c.memSize in L.cuts
    requires 0 < c.header && forall u :: !Hole(c, L, u)
    ensures !Hole(c, Shrink(c, L, s, size), t)
  {
    var end, e := s + c.header + size, End(c, L, s);
    assert L.used + {s} == L.used;
    if end < e && FreeBlock(c, L, e) {
      var L' := Layout(L.cuts - {e}, L.used);
      MergeNoHole(c, L, s, t);
      assert FreeBlock(c, L, End(c, L, e)) ==> Adjacent(L, e, End(c, L, e));
      assert !Hole(c, L, End(c, L, e));
      assert End(c, L, e) in L'.cuts;
      assert forall x | x in L'.cuts :: x in L.cuts && x != e;
      assert End(c, L', s) == End(c, L, e);
      CutNoHole(c, L', s, end, t);
    } else if end < e && end + c.header + c.minData <= e {
      CutNoHole(c, L, s, end, t);
    }
  }

  lemma ShrinkWellFormed(c: Config, L: Layout, s: nat, size: nat)
    requires WellFormed(c, L) && s in L.used
    requires c.Aligned(size) && c.minData <= size
    ensures WellFormed(c, Shrink(c, L, s, size))
  {
    ShrinkTiles(c, L, s, size);
    AlignedEnd(c, s, size);
    forall t ensures !Hole(c, Shrink(c, L, s, size), t) {
      ShrinkNoHole(c, L, s, size, t);
    }
  }

  lemma ReleaseNoHole(c: Config, L: Layout, s: nat, t: nat)
    requires Tiles(c, L)
    ensures !Hole(c, Release(c, L, s), t)
  {
    var L', R := Layout(L.cuts, L.used - {s}), Release(c, L, s);
    if Hole(c, R, t) {
      var p: nat :| Adjacent(R, p, t) && p !in R.used;
      var q := Before(L', t);
      assert Adjacent(L', q, t);
      assert p in L'.cuts;
      assert q in R.cuts || Hole(c, L', q);
      assert Hole(c, L', t);
    }
  }

  lemma ReleaseWellFormed(c: Config, L: Layout, s: nat)
    requires WellFormed(c, L) && s in L.used
    ensures WellFormed(c, Release(c, L, s))
  {
    forall t ensures !Hole(c, Release(c, L, s), t) {
      ReleaseNoHole(c, L, s, t);
    }
  }

  /** The two halves of plug_holes for the free block `mem`. */
  ghost function Forward(c: Config, L: Layout, mem: nat): Layout
    requires mem < c.memSize
  {
    var e := End(c, L, mem);
    if FreeBlock(c, L, e) then Layout(L.cuts - {e}, L.used) else L
  }

  ghost function Backward(L: Layout, mem: nat, pmem: nat): Layout {
    if pmem != mem && pmem !in L.used then Layout(L.cuts - {mem}, L.used) else L
  }

  /** The hole at the far end of `mem`. */
  lemma HoleAhead(c: Config, L: Layout, mem: nat)
    requires Tiles(c, L) && FreeBlock(c, L, mem)
    ensures Hole(c, L, End(c, L, mem)) <==> FreeBlock(c, L, End(c, L, mem))
  {
    assert Adjacent(L, mem, End(c, L, mem));
  }

  /** The hole at `mem` itself, `pmem` being the block before it. */
  lemma HoleBehind(c: Config, L: Layout, mem: nat, pmem: nat)
    requires Tiles(c, L) && FreeBlock(c, L, mem)
    requires if mem == 0 then pmem == 0 else Adjacent(L, pmem, mem)
    ensures Hole(c, L, mem) <==> pmem != mem && pmem !in L.used
  {
    if Hole(c, L, mem) {
      var p: nat :| Adjacent(L, p, mem) && p !in L.used;
      assert p == pmem;
    }
  }

  /** Plugging forward does not change what lies before `mem`. */
  lemma BeforeForward(c: Config, L: Layout, mem: nat, pmem: nat)
    requires mem < c.memSize && mem in L.cuts && Adjacent(Forward(c, L, mem), pmem, mem)
    ensures Adjacent(L, pmem, mem)
  {
    var e, F := End(c, L, mem), Forward(c, L, mem);
    assert forall t | t in L.cuts :: t == e || t in F.cuts;
  }

  /** Together they close every hole, if `mem` is the only block that touches one. */
  lemma PlugsAll(c: Config, L: Layout, mem: nat, pmem: nat)
    requires Tiles(c, L) && FreeBlock(c, L, mem)
    requires if mem == 0 then pmem == 0 else Adjacent(Forward(c, L, mem), pmem, mem)
    requires forall t {:trigger Hole(c, L, t)} | Hole(c, L, t) :: t == mem || t == End(c, L, mem)
    ensures Backward(Forward(c, L, mem), mem, pmem).cuts == set t | t in L.cuts && !Hole(c, L, t)
  {
    if mem > 0 {
      BeforeForward(c, L, mem, pmem);
    }
    HoleAhead(c, L, mem);
    HoleBehind(c, L, mem, pmem);
  }

  /** When one block is freed, the only holes are at its two ends. */
  lemma ReleaseHoles(c: Config, L: Layout, s: nat)
    requires WellFormed(c, L) && s in L.used
    ensures var L' := Layout(L.cuts, L.used - {s});
            forall t {:trigger Hole(c, L', t)} | Hole(c, L', t) :: t == s || t == End(c, L', s)
  {
    var L' := Layout(L.cuts, L.used - {s});
    forall t | Hole(c, L', t) ensures t == s || t == End(c, L', s) {
      var p: nat :| Adjacent(L', p, t) && p !in L'.used;
      assert Adjacent(L, p, t) && !Hole(c, L, t);
    }
  }

  /** A cut at `at`, in place of what lies between `mem` and `next`. */
  ghost function Inserted(L: Layout, mem: nat, at: nat, next: nat): Layout {
    Layout((set t | t in L.cuts && !(mem < t < next)) + {at}, L.used)
  }

  lemma InsertedAdjacent(L: Layout, mem: nat, at: nat, next: nat)
    requires mem in L.cuts && next in L.cuts && mem < at < next
    ensures Adjacent(Inserted(L, mem, at, next), mem, at)
    ensures Adjacent(Inserted(L, mem, at, next), at, next)
  {
  }

  lemma OthersAdjacent(L: Layout, mem: nat, at: nat, next: nat, s: nat, e: nat)
    requires mem in L.cuts && next in L.cuts && mem < at < next
    requires Adjacent(L, s, e) && (e <= mem || next <= s)
    ensures Adjacent(Inserted(L, mem, at, next), s, e)
  {
  }

  // ---------------------------------------------------------------- the lowest free block

  /** `mem_free` only has to lower lfree to the freed block when that lies below it. */
  lemma ReleaseLowest(c: Config, L: Layout, s: nat, low: nat, held: set<nat>)
    requires WellFormed(c, L) && s in L.used && s !in held && LowestFree(c, L, low, held)
    ensures LowestFree(c, Release(c, L, s), ReleaseLow(s, low), held)
  {
    var L', low' := Layout(L.cuts, L.used - {s}), if s < low then s else low;
    assert low' in L.cuts;
    assert forall p: nat :: Adjacent(L', p, low') ==> p in L'.used;
  }

  lemma ShrinkLowest(c: Config, L: Layout, s: nat, size: nat, low: nat, held: set<nat>)
    requires WellFormed(c, L) && s in L.used && s !in held && LowestFree(c, L, low, held)
    ensures LowestFree(c, Shrink(c, L, s, size), ShrinkLow(c, L, s, size, low), held)
  {
    var L', end, e := Shrink(c, L, s, size), s + c.header + size, End(c, L, s);
    assert e in L.cuts;
    assert L'.cuts <= L.cuts + {end};
    if e <= end {
      assert L' == L;
    } else if FreeBlock(c, L, e) {
      assert L' == Layout(L.cuts - {e} + {end}, L.used);
    } else if end + c.header + c.minData <= e {
      assert L' == Layout(L.cuts + {end}, L.used);
    } else {
      assert L' == L;
    }
  }

  // ---------------------------------------------------------------- accounting

  /** Taking the block `s` into use adds its extent to the bytes in use. */
  lemma {:induction false} UseCounts(c: Config, L: Layout, s: nat, a: nat)
    requires s in L.cuts && a in L.cuts && s < c.memSize && s !in L.used
    requires forall u | u in L.cuts :: u <= c.memSize
    ensures var L' := Layout(L.cuts, L.used + {s});
            UsedFrom(c, L', a) == UsedFrom(c, L, a) + if a <= s then End(c, L, s) - s else 0
    decreases c.memSize - a
  {
    var L' := Layout(L.cuts, L.used + {s});
    if a < c.memSize {
      assert End(c, L', a) == End(c, L, a);
      if End(c, L, a) in L.cuts {
        UseCounts(c, L, s, End(c, L, a));
      }
    }
  }

  /** Closing holes does not change the bytes in use. */
  lemma {:induction false} HolesDoNotCount(c: Config, L: Layout, R: Layout, a: nat)
    requires R.cuts <= L.cuts && R.used == L.used && c.memSize in R.cuts && a in L.cuts
    requires forall u | u in L.cuts :: u <= c.memSize
    requires forall u {:trigger Hole(c, L, u)} | u in L.cuts && u !in R.cuts :: Hole(c, L, u)
    ensures UsedFrom(c, L, a) == if a in R.cuts then UsedFrom(c, R, a) else UsedFrom(c, R, End(c, R, a))
    decreases c.memSize - a
  {
    if a < c.memSize {
      var e := End(c, L, a);
      HolesDoNotCount(c, L, R, e);
      if e in R.cuts {
        assert End(c, R, a) == e;
        assert a in R.cuts || Hole(c, L, a);
      } else {
        assert Hole(c, L, e);
        HoleFree(c, L, a);
        assert a !in R.used;
        assert End(c, R, a) == End(c, R, e);
      }
    }
  }

  lemma HoleFree(c: Config, L: Layout, a: nat)
    requires a in L.cuts && a < c.memSize && Hole(c, L, End(c, L, a))
    ensures a !in L.used
  {
    var e := End(c, L, a);
    var p: nat :| Adjacent(L, p, e) && p !in L.used;
    assert p == a;
  }

  lemma OneHoleDoesNotCount(c: Config, L: Layout, h: nat)
    requires Tiles(c, L) && Hole(c, L, h)
    ensures UsedFrom(c, Layout(L.cuts - {h}, L.used), 0) == UsedFrom(c, L, 0)
  {
    var R := Layout(L.cuts - {h}, L.used);
    assert h != 0;
    assert forall u | u in L.cuts && u !in R.cuts :: u == h;
    HolesDoNotCount(c, L, R, 0);
  }

  /** Cutting a free block in two. */
  lemma CutDoesNotCount(c: Config, L: Layout, s: nat, end: nat)
    requires Tiles(c, L) && FreeBlock(c, L, s) && 0 < c.header
    requires s + c.header + c.minData <= end && end + c.header + c.minData <= End(c, L, s)
    ensures UsedFrom(c, Layout(L.cuts + {end}, L.used), 0) == UsedFrom(c, L, 0)
  {
    var M := Layout(L.cuts + {end}, L.used);
    CutTiles(c, L, s, end);
    assert end !in L.cuts;
    assert Adjacent(M, s, end);
    assert M.cuts - {end} == L.cuts;
    OneHoleDoesNotCount(c, M, end);
  }

  lemma CarveCounts(c: Config, L: Layout, s: nat, size: nat)
    requires c.Ok() && Tiles(c, L) && Fits(c, L, s, size) && c.minData <= size
    ensures var L' := Carve(c, L, s, size);
            UsedFrom(c, L', 0) == UsedFrom(c, L, 0) + End(c, L', s) - s
  {
    var end, L' := s + c.header + size, Carve(c, L, s, size);
    if Fits(c, L, s, size + c.header + c.minData) {
      assert L' == Layout(L.cuts + {end}, L.used + {s});
      CarveCutCounts(c, L, s, end);
    } else {
      assert L' == Layout(L.cuts, L.used + {s});
      UseCounts(c, L, s, 0);
      EndOfUse(c, L, s);
    }
  }

  lemma CarveCutCounts(c: Config, L: Layout, s: nat, end: nat)
    requires Tiles(c, L) && FreeBlock(c, L, s) && 0 < c.header
    requires s + c.header + c.minData <= end && end + c.header + c.minData <= End(c, L, s)
    ensures var L' := Layout(L.cuts + {end}, L.used + {s});
            UsedFrom(c, L', 0) == UsedFrom(c, L, 0) + End(c, L', s) - s
  {
    CutDoesNotCount(c, L, s, end);
    CutTiles(c, L, s, end);
    UseCounts(c, Layout(L.cuts + {end}, L.used), s, 0);
    EndOfUse(c, Layout(L.cuts + {end}, L.used), s);
  }

  lemma EndOfUse(c: Config, L: Layout, s: nat)
    requires s < c.memSize
    ensures End(c, Layout(L.cuts, L.used + {s}), s) == End(c, L, s)
  {
  }

  lemma ReleaseCounts(c: Config, L: Layout, s: nat)
    requires c.Ok() && Tiles(c, L) && s in L.used
    ensures UsedFrom(c, L, 0) == UsedFrom(c, Release(c, L, s), 0) + End(c, L, s) - s
  {
    var L' := Layout(L.cuts, L.used - {s});
    assert L == Layout(L'.cuts, L'.used + {s});
    UseCounts(c, L', s, 0);
    EndOfUse(c, L', s);
    HolesDoNotCount(c, L', Release(c, L, s), 0);
  }

  lemma ShrinkCounts(c: Config, L: Layout, s: nat, size: nat)
    requires c.Ok() && Tiles(c, L) && s in L.used && c.minData <= size
    ensures var L' := Shrink(c, L, s, size);
            UsedFrom(c, L, 0) == UsedFrom(c, L', 0) + End(c, L, s) - End(c, L', s)
  {
    var end, e, L' := s + c.header + size, End(c, L, s), Shrink(c, L, s, size);
    if e <= end {
      assert L' == L;
    } else if FreeBlock(c, L, e) {
      assert L' == Layout(L.cuts - {e} + {end}, L.used);
      ShrinkMoveCounts(c, L, s, end);
    } else if end + c.header + c.minData <= e {
      assert L' == Layout(L.cuts + {end}, L.used);
      ShrinkCutCounts(c, L, s, end);
    } else {
      assert L' == L;
    }
  }

  lemma ShrinkMoveCounts(c: Config, L: Layout, s: nat, end: nat)
    requires c.Ok() && Tiles(c, L) && s in L.used
    requires s + c.header + c.minData <= end < End(c, L, s) && FreeBlock(c, L, End(c, L, s))
    ensures var L' := Layout(L.cuts - {End(c, L, s)} + {end}, L.used);
            UsedFrom(c, L, 0) == UsedFrom(c, L', 0) + End(c, L, s) - end && End(c, L', s) == end
  {
    var U := Unused(c, L, s);
    ShrinkMove(c, L, U, s, end);
  }

  lemma ShrinkCutCounts(c: Config, L: Layout, s: nat, end: nat)
    requires c.Ok() && Tiles(c, L) && s in L.used
    requires s + c.header + c.minData <= end && end + c.header + c.minData <= End(c, L, s)
    ensures var L' := Layout(L.cuts + {end}, L.used);
            UsedFrom(c, L, 0) == UsedFrom(c, L', 0) + End(c, L, s) - end && End(c, L', s) == end
  {
    var U := Unused(c, L, s);
    ShrinkCut(c, L, U, s, end);
  }

  lemma Unused(c: Config, L: Layout, s: nat) returns (U: Layout)
    requires Tiles(c, L) && s in L.used
    ensures U == Layout(L.cuts, L.used - {s}) && U.used + {s} == L.used
    ensures Tiles(c, U) && FreeBlock(c, U, s) && End(c, U, s) == End(c, L, s)
    ensures UsedFrom(c, L, 0) == UsedFrom(c, U, 0) + End(c, L, s) - s
  {
    U := Layout(L.cuts, L.used - {s});
    assert L == Layout(U.cuts, U.used + {s});
    UseCounts(c, U, s, 0);
    EndOfUse(c, U, s);
  }

  lemma ShrinkMove(c: Config, L: Layout, U: Layout, s: nat, end: nat)
    requires Tiles(c, U) && FreeBlock(c, U, s) && 0 < c.header && U.used + {s} == L.used && U.cuts == L.cuts
    requires s + c.header + c.minData <= end < End(c, U, s) && FreeBlock(c, U, End(c, U, s))
    ensures var L' := Layout(L.cuts - {End(c, U, s)} + {end}, L.used);
            UsedFrom(c, L', 0) == UsedFrom(c, U, 0) + end - s && End(c, L', s) == end
  {
    var e := End(c, U, s);
    var R := Layout(U.cuts - {e}, U.used);
    assert Adjacent(U, s, e);
    assert Hole(c, U, e);
    OneHoleDoesNotCount(c, U, e);
    MergedBlock(c, U, s);
    ShrinkCut(c, L, R, s, end);
  }

  lemma MergedBlock(c: Config, U: Layout, s: nat)
    requires Tiles(c, U) && FreeBlock(c, U, s) && FreeBlock(c, U, End(c, U, s))
    ensures var R := Layout(U.cuts - {End(c, U, s)}, U.used);
            Tiles(c, R) && FreeBlock(c, R, s) && End(c, U, s) + c.header + c.minData <= End(c, R, s)
  {
    var e := End(c, U, s);
    var R := Layout(U.cuts - {e}, U.used);
    assert End(c, R, s) in U.cuts;
  }

  lemma ShrinkCut(c: Config, L: Layout, R: Layout, s: nat, end: nat)
    requires Tiles(c, R) && FreeBlock(c, R, s) && 0 < c.header && R.used + {s} == L.used
    requires s + c.header + c.minData <= end && end + c.header + c.minData <= End(c, R, s)
    ensures UsedFrom(c, Layout(R.cuts + {end}, L.used), 0) == UsedFrom(c, R, 0) + end - s
    ensures End(c, Layout(R.cuts + {end}, L.used), s) == end
  {
    var M := Layout(R.cuts + {end}, R.used);
    CutDoesNotCount(c, R, s, end);
    CutTiles(c, R, s, end);
    UseCounts(c, M, s, 0);
    EndOfUse(c, M, s);
    assert end in M.cuts;
  }

  /** Both ways of shrinking put one cut into the list of blocks. */
  lemma ShrinkInserts(c: Config, L: Layout, s: nat, size: nat)
    requires s < c.memSize && s in L.cuts && c.memSize in L.cuts
    requires s < s + c.header + size < End(c, L, s)
    ensures var L', e, end := Shrink(c, L, s, size), End(c, L, s), s + c.header + size;
            && end !in L.cuts && e in L.cuts
            && (if FreeBlock(c, L, e) then
                  L' == Inserted(L, s, end, End(c, L, e)) && End(c, L', s) == end && e !in L'.cuts
                else if end + c.header + c.minData <= e then
                  L' == Inserted(L, s, end, e) && End(c, L', s) == end && e in L'.cuts
                else L' == L)
  {
    var L', e, end := Shrink(c, L, s, size), End(c, L, s), s + c.header + size;
    if FreeBlock(c, L, e) {
      assert L' == Layout(L.cuts - {e} + {end}, L.used);
      assert L'.cuts == Inserted(L, s, end, End(c, L, e)).cuts;
    } else if end + c.header + c.minData <= e {
      assert L' == Layout(L.cuts + {end}, L.used);
      assert L'.cuts == Inserted(L, s, end, e).cuts;
    }
  }

  // ---------------------------------------------------------------- everything the heap keeps

  /** The invariant of the heap, apart from its links: `low` is lfree, `total` the statistic. */
  ghost predicate Sound(c: Config, L: Layout, low: nat, held: set<nat>, total: nat) {
    && WellFormed(c, L)
    && LowestFree(c, L, low, held)
    && held <= L.used
    && total == UsedFrom(c, L, 0)
  }

  lemma ReleaseSound(c: Config, L: Layout, s: nat, low: nat, held: set<nat>, total: nat)
    requires Sound(c, L, low, held, total) && s in L.used && s !in held
    ensures End(c, L, s) - s <= total
    ensures Sound(c, Release(c, L, s), ReleaseLow(s, low), held, total - (End(c, L, s) - s))
  {
    ReleaseWellFormed(c, L, s);
    ReleaseLowest(c, L, s, low, held);
    ReleaseCounts(c, L, s);
  }

  lemma ShrinkSound(c: Config, L: Layout, s: nat, size: nat, low: nat, held: set<nat>, total: nat)
    requires Sound(c, L, low, held, total) && s in L.used && s !in held
    requires c.Aligned(size) && c.minData <= size
    ensures var L', e := Shrink(c, L, s, size), End(c, L, s);
            && e - End(c, L', s) <= total
            && Sound(c, L', ShrinkLow(c, L, s, size, low), held, total - (e - End(c, L', s)))
  {
    ShrinkWellFormed(c, L, s, size);
    ShrinkLowest(c, L, s, size, low, held);
    ShrinkCounts(c, L, s, size);
  }

  /** The same, case by case as mem_trim distinguishes them. */
  lemma ShrinkSoundAs(c: Config, L: Layout, s: nat, size: nat, low: nat, held: set<nat>, total: nat)
    returns (low': nat, total': nat)
    requires Sound(c, L, low, held, total) && s in L.used && s !in held
    requires c.Aligned(size) && c.minData <= size && s + c.header + size < End(c, L, s)
    ensures var L', e, end := Shrink(c, L, s, size), End(c, L, s), s + c.header + size;
            && end !in L.used && e - end <= total
            && Sound(c, L', low', held, total') && low' == ShrinkLow(c, L, s, size, low)
            && (if FreeBlock(c, L, e) then
                  && L' == Inserted(L, s, end, End(c, L, e))
                  && low' == (if low == e then end else low) && total' + (e - end) == total
                else if end + c.header + c.minData <= e then
                  && L' == Inserted(L, s, end, e)
                  && low' == (if end < low then end else low) && total' + (e - end) == total
                else L' == L && low' == low && total' == total)
  {
    ShrinkSound(c, L, s, size, low, held, total);
    ShrinkInserts(c, L, s, size);
    ReleaseSound(c, L, s, low, held, total);
    low' := ShrinkLow(c, L, s, size, low);
    total' := total - (End(c, L, s) - End(c, Shrink(c, L, s, size), s));
  }

  lemma CarveSound(c: Config, L: Layout, s: nat, size: nat, low: nat, total: nat)
    requires Sound(c, L, low, {}, total) && Fits(c, L, s, size)
    requires c.Aligned(size) && c.minData <= size
    ensures Sound(c, Carve(c, L, s, size), low, {s}, total + (End(c, Carve(c, L, s, size), s) - s))
  {
    CarveWellFormed(c, L, s, size);
    CarveCounts(c, L, s, size);
  }

  // ---------------------------------------------------------------- searching

  /** Going on from a block that does not fit skips none that does. */
  lemma ScanStep(c: Config, L: Layout, s: nat, size: nat)
    requires s in L.cuts && s < c.memSize && !Fits(c, L, s, size)
    requires forall t: nat | t < s :: !Fits(c, L, t, size)
    ensures forall t: nat | t < End(c, L, s) :: !Fits(c, L, t, size)
  {
  }

  /** Stopping at memSize - size skips no block that fits either. */
  lemma ScanEnd(c: Config, L: Layout, s: nat, size: nat)
    requires 0 < c.header && c.memSize <= s + size
    requires forall t: nat | t < s :: !Fits(c, L, t, size)
    ensures NothingFits(c, L, size)
  {
  }

  // ---------------------------------------------------------------- whole runs

  /** Freeing what was just allocated restores the layout, whether the block was split or not. */
  lemma CarveThenRelease(c: Config, L: Layout, s: nat, size: nat)
    requires WellFormed(c, L) && Fits(c, L, s, size) && c.minData <= size
    ensures Release(c, Carve(c, L, s, size), s) == L
  {
    var M, end := Carve(c, L, s, size), s + c.header + size;
    var M' := Layout(M.cuts, M.used - {s});
    assert M'.used == L.used;
    forall t | t in M.cuts ensures Hole(c, M', t) <==> t !in L.cuts {
      if t !in L.cuts {
        assert t == end && Adjacent(M', s, t);
      } else {
        forall p: nat | Adjacent(M', p, t) ensures FreeBlock(c, M', t) ==> p in M'.used {
          assert Adjacent(L, if p in L.cuts then p else s, t) && !Hole(c, L, t);
        }
      }
    }
  }

  /** A layout in which nothing is in use is the one `mem_init` sets up. */
  lemma NothingUsed(c: Config, L: Layout)
    requires WellFormed(c, L) && L.used == {}
    ensures L == Fresh(c)
  {
    var e := End(c, L, 0);
    assert Adjacent(L, 0, e);
    assert !Hole(c, L, e);
    assert L.cuts == {0, c.memSize};
  }

  /** A call of `mem_free` or `mem_trim` on the data of the block `s`. */
  datatype Op = Free(s: nat) | Trim(s: nat, size: nat)

  /** A caller may pass the blocks it was given; `held` blocks have not been handed out yet. */
  predicate Allowed(c: Config, L: Layout, held: set<nat>, op: Op) {
    op.s in L.used && op.s !in held && (op.Trim? ==> op.size < c.wrap)
  }

  ghost function Effect(c: Config, L: Layout, op: Op): Layout
    requires c.Ok()
  {
    if op.s >= c.memSize then L
    else match op
      case Free(s) => Release(c, L, s)
      case Trim(s, size) => Shrink(c, L, s, c.Rounded(size))
  }

  ghost function Replay(c: Config, L: Layout, ops: seq<Op>): Layout
    requires c.Ok()
  {
    if ops == [] then L else Effect(c, Replay(c, L, ops[..|ops| - 1]), ops[|ops| - 1])
  }

  lemma ReplayMore(c: Config, L: Layout, ops: seq<Op>, op: Op)
    requires c.Ok()
    ensures Replay(c, L, ops + [op]) == Effect(c, Replay(c, L, ops), op)
  {
    assert (ops + [op])[..|ops|] == ops;
  }

  lemma {:induction false} ReplayConcat(c: Config, L: Layout, ops: seq<Op>, more: seq<Op>)
    requires c.Ok()
    ensures Replay(c, L, ops + more) == Replay(c, Replay(c, L, ops), more)
  {
    if more == [] {
      assert ops + more == ops;
    } else {
      var k := |more| - 1;
      ReplayConcat(c, L, ops, more[..k]);
      ReplayMore(c, L, ops + more[..k], more[k]);
      assert (ops + more[..k]) + [more[k]] == ops + more;
    }
  }

  /** lfree after the call. */
  ghost function EffectLow(c: Config, L: Layout, op: Op, low: nat): nat
    requires c.Ok()
  {
    if op.s >= c.memSize then low
    else match op
      case Free(s) => ReleaseLow(s, low)
      case Trim(s, size) => ShrinkLow(c, L, s, c.Rounded(size), low)
  }

  /** Whether the call gets as far as setting mem_free_count. */
  ghost predicate Disturbs(c: Config, L: Layout, op: Op)
    requires c.Ok()
  {
    op.Free? || (op.s < c.memSize && op.s + c.header + c.Rounded(op.size) < End(c, L, op.s))
  }

  lemma EffectWellFormed(c: Config, L: Layout, held: set<nat>, op: Op)
    requires WellFormed(c, L) && Allowed(c, L, held, op)
    ensures WellFormed(c, Effect(c, L, op))
    ensures Effect(c, L, op).used == match op case Free(s) => L.used - {s} case Trim(_, _) => L.used
    ensures forall low | LowestFree(c, L, low, held) ::
              LowestFree(c, Effect(c, L, op), EffectLow(c, L, op, low), held)
    ensures !Disturbs(c, L, op) ==> Effect(c, L, op) == L && forall low :: EffectLow(c, L, op, low) == low
  {
    match op
    case Free(s) =>
      ReleaseWellFormed(c, L, s);
      forall low | LowestFree(c, L, low, held) {
        ReleaseLowest(c, L, s, low, held);
      }
    case Trim(s, size) =>
      RoundedMeaning(c, size);
      ShrinkWellFormed(c, L, s, c.Rounded(size));
      forall low | LowestFree(c, L, low, held) {
        ShrinkLowest(c, L, s, c.Rounded(size), low, held);
      }
  }

  function Frees(order: seq<nat>): (ops: seq<Op>)
    ensures |ops| == |order|
  {
    seq(|order|, i requires 0 <= i < |order| => Free(order[i]))
  }

  /** Freeing all live blocks, in any order, restores the heap of `mem_init`. */
  lemma FreeAll(c: Config, L: Layout, order: seq<nat>)
    requires WellFormed(c, L)
    requires forall i, j | 0 <= i < j < |order| :: order[i] != order[j]
    requires L.used == set s | s in order
    ensures Replay(c, L, Frees(order)) == Fresh(c)
  {
    FreeSome(c, L, order, |order|);
    assert Frees(order)[..|order|] == Frees(order);
    NothingUsed(c, Replay(c, L, Frees(order)));
  }

  lemma {:induction false} FreeSome(c: Config, L: Layout, order: seq<nat>, n: nat)
    requires WellFormed(c, L) && n <= |order|
    requires forall i, j | 0 <= i < j < |order| :: order[i] != order[j]
    requires L.used == set s | s in order
    ensures var R := Replay(c, L, Frees(order)[..n]);
            WellFormed(c, R) && R.used == set s | s in order[n..]
  {
    var ops := Frees(order)[..n];
    if n > 0 {
      FreeSome(c, L, order, n - 1);
      assert ops[..n - 1] == Frees(order)[..n - 1];
      var R := Replay(c, L, ops[..n - 1]);
      assert order[n - 1..] == [order[n - 1]] + order[n..];
      assert order[n - 1] in order[n - 1..];
      EffectWellFormed(c, R, {}, Free(order[n - 1]));
    } else {
      assert order[0..] == order;
    }
  }

  // ---------------------------------------------------------------- cut by cut

  /** From `L` to `L'` mem_malloc has taken the block `s`, which ends where the request ends if what is left
    * has room for a header and minData bytes, and otherwise keeps its end. No other cut comes or goes, and
    * so little is wasted that nothing more could have been split off. */
  ghost predicate Taken(c: Config, L: Layout, L': Layout, s: nat, size: nat) {
    && s < c.memSize
    && var e, end := End(c, L, s), s + c.header + size;
       && L'.used == L.used + {s}
       && (if end + c.header + c.minData <= e
           then end !in L.cuts && L'.cuts == L.cuts + {end} && End(c, L', s) == end
           else L'.cuts == L.cuts && End(c, L', s) == e)
       && End(c, L', s) < end + c.header + c.minData
  }

  /** No free block has `size` bytes behind its header. */
  ghost predicate NoneEnough(c: Config, L: Layout, size: nat) {
    forall t | t in L.cuts && t < c.memSize && t !in L.used :: End(c, L, t) - (t + c.header) < size
  }

  /** `s` has, and is free, and no free block below it has. */
  ghost predicate LowestEnough(c: Config, L: Layout, s: nat, size: nat) {
    && s in L.cuts && s < c.memSize && s !in L.used && End(c, L, s) - (s + c.header) >= size
    && forall t | t in L.cuts && t < s && t !in L.used :: End(c, L, t) - (t + c.header) < size
  }

  /** mem_free has given back the block `s`: it is one with the block before it and the block behind it if
    * those are free, and no other cut changes. */
  ghost predicate GivenBack(c: Config, L: Layout, L': Layout, s: nat) {
    && 0 in L.cuts && s < c.memSize
    && var e := End(c, L, s);
       && L'.used == L.used - {s}
       && (forall t | t != s && t != e :: t in L'.cuts <==> t in L.cuts)
       && (s in L'.cuts <==> s == 0 || Before(L, s) in L.used)
       && (e in L'.cuts <==> e == c.memSize || e in L.used)
  }

  /** mem_trim has cut the block `s` down: it ends where it should, and what it loses joins the free block
    * behind it, or becomes a free block if it has room for a header and minData bytes; otherwise nothing
    * changes. */
  ghost predicate Trimmed(c: Config, L: Layout, L': Layout, s: nat, size: nat) {
    && s < c.memSize
    && var e, end := End(c, L, s), s + c.header + size;
       if end < e && e < c.memSize && e !in L.used then
         && L' == Layout(L.cuts - {e} + {end}, L.used)
         && End(c, L', s) == end && end < c.memSize && End(c, L', end) == End(c, L, e)
       else if end < e && end + c.header + c.minData <= e then
         L' == Layout(L.cuts + {end}, L.used) && End(c, L', s) == end && end < c.memSize && End(c, L', end) == e
       else L' == L
  }

  lemma CarveExact(c: Config, L: Layout, s: nat, size: nat)
    requires c.Ok() && Tiles(c, L) && Fits(c, L, s, size)
    ensures Taken(c, L, Carve(c, L, s, size), s, size)
  {
    var L', e, end := Carve(c, L, s, size), End(c, L, s), s + c.header + size;
    assert forall t | t in L'.cuts :: t in L.cuts || t == end;
    assert L'.cuts == L.cuts ==> End(c, L', s) == e;
  }

  lemma ReleaseExact(c: Config, L: Layout, s: nat)
    requires WellFormed(c, L) && s in L.used
    ensures GivenBack(c, L, Release(c, L, s), s)
  {
    var M, e := Layout(L.cuts, L.used - {s}), End(c, L, s);
    ReleaseHoles(c, L, s);
    assert s > 0 ==> Adjacent(M, Before(L, s), s) && forall p: nat | Adjacent(M, p, s) :: p == Before(L, s);
    assert Adjacent(M, s, e) && e in L.cuts;
    assert Hole(c, M, e) <==> FreeBlock(c, M, e);
  }

  lemma ShrinkExact(c: Config, L: Layout, s: nat, size: nat)
    requires WellFormed(c, L) && s in L.used && c.minData <= size
    ensures Trimmed(c, L, Shrink(c, L, s, size), s, size)
  {
    var L', e, end := Shrink(c, L, s, size), End(c, L, s), s + c.header + size;
    assert e in L.cuts;
    if e <= end {
      assert L' == L;
    } else if e < c.memSize && e !in L.used {
      EndIs(c, L', s, end);
      EndIs(c, L', end, End(c, L, e));
    } else if end + c.header + c.minData <= e {
      EndIs(c, L', s, end);
      EndIs(c, L', end, e);
    }
  }

  lemma FirstFitExact(c: Config, L: Layout, s: nat, size: nat)
    requires IsFirstFit(c, L, s, size)
    ensures LowestEnough(c, L, s, size)
  {
    forall t | t in L.cuts && t < s && t !in L.used ensures End(c, L, t) - (t + c.header) < size {
      assert !Fits(c, L, t, size);
    }
  }

  lemma NothingFitsExact(c: Config, L: Layout, size: nat)
    requires NothingFits(c, L, size)
    ensures NoneEnough(c, L, size)
  {
    forall t | t in L.cuts && t < c.memSize && t !in L.used ensures End(c, L, t) - (t + c.header) < size {
      assert !Fits(c, L, t, size);
    }
  }

  lemma EndIs(c: Config, L: Layout, s: nat, e: nat)
    requires s < e <= c.memSize && e in L.cuts && forall t | t in L.cuts :: t <= s || e <= t
    ensures End(c, L, s) == e
  {
  }

  // ---------------------------------------------------------------- what callers are promised

  /** The data of the used block `s`. */
  ghost function DataSize(c: Config, L: Layout, s: nat): int
    requires s < c.memSize
  {
    End(c, L, s) - s - c.header
  }

  /** mem_malloc: the blocks of all other callers keep their place and extent, and the new
    * block, which was free and lies inside the heap, stays clear of them. */
  lemma AllocationDisjoint(c: Config, L: Layout, s: nat, size: nat)
    requires WellFormed(c, L) && Fits(c, L, s, size)
    ensures var L' := Carve(c, L, s, size);
            && L'.used == L.used + {s} && s !in L.used && End(c, L', s) <= c.memSize
            && forall t | t in L.used :: End(c, L', t) == End(c, L, t) && (End(c, L, t) <= s || End(c, L', s) <= t)
  {
    var L' := Carve(c, L, s, size);
    assert L.cuts <= L'.cuts <= L.cuts + {s + c.header + size};
    forall t | t in L.used
      ensures End(c, L', t) == End(c, L, t) && (End(c, L, t) <= s || End(c, L', s) <= t)
    {
      assert t in L.cuts && t != s && End(c, L, t) in L'.cuts;
    }
  }

  /** mem_malloc: the data is aligned, and it covers the request exactly when rounding the
    * request up did not wrap `mem_size_t`. */
  lemma AllocationCovers(c: Config, L: Layout, request: nat, s: nat)
    requires WellFormed(c, L) && request < c.wrap && Fits(c, L, s, c.Rounded(request))
    ensures c.Aligned(s + c.header)
    ensures DataSize(c, Carve(c, L, s, c.Rounded(request)), s) >= request <==> c.AlignUp(request) < c.wrap
  {
    var n, L' := c.Rounded(request), Carve(c, L, s, c.Rounded(request));
    RoundedMeaning(c, request);
    AlignUpBounds(c, request);
    AlignedSum(c, s, c.header);
    AlignedGap(c, c.memSize, c.wrap);
    assert L'.cuts <= L.cuts + {s + c.header + n};
  }

  /** A request that wraps: on a fresh heap of 64 bytes, 65534 bytes are granted and 12 are given. */
  lemma WrapExample()
    ensures var c := Config(64, 8, 12, 4, 0x1_0000);
            && c.Ok() && WellFormed(c, Fresh(c)) && IsFirstFit(c, Fresh(c), 0, c.Rounded(65534))
            && DataSize(c, Carve(c, Fresh(c), 0, c.Rounded(65534)), 0) == 12
  {
    var c := Config(64, 8, 12, 4, 0x1_0000);
    AlignedMeaning(c, 64);
    AlignedMeaning(c, 8);
    AlignedMeaning(c, 12);
    AlignedMeaning(c, 0x1_0000);
    FreshWellFormed(c);
    assert c.AlignUp(65534) == 0x1_0000;
    assert c.Rounded(65534) == 12;
    assert End(c, Fresh(c), 0) == 64;
    assert Carve(c, Fresh(c), 0, 12) == Layout({0, 64, 20}, {0});
    assert End(c, Layout({0, 64, 20}, {0}), 0) == 20;
  }

  /** mem_trim: a size beyond the block's own is refused, as its documentation says, exactly
    * when rounding it up did not wrap. One that wraps shrinks the block to minData bytes. */
  lemma TrimPromise(c: Config, L: Layout, s: nat, newsize: nat)
    requires WellFormed(c, L) && s in L.used && newsize < c.wrap && DataSize(c, L, s) < newsize
    ensures c.Rounded(newsize) > DataSize(c, L, s) <==> c.AlignUp(newsize) < c.wrap
    ensures c.AlignUp(newsize) >= c.wrap ==> c.Rounded(newsize) == c.minData
  {
    RoundedMeaning(c, newsize);
    AlignUpBounds(c, newsize);
    assert End(c, L, s) in L.cuts;
  }
}
