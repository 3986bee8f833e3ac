/** The heap of lwip/src/core/mem.c (the variant without pools): headers linked by offsets in
  * one buffer, first fit from `lfree`, splitting, shrinking and merging. */
module MemHeap {
  import opened Basics
  import opened MemLayout

  /** struct mem. */
  datatype Mem = Mem(next: nat, prev: nat, used: bool)

  /** What the header at the cut `s` says: `next` and `prev` lead to the neighbouring cuts and
    * `used` is right. ram_end, at `end`, leads to itself and has no maintained `prev`. */
  ghost predicate LinkAt(end: nat, R: seq<Mem>, L: Layout, s: nat)
    requires |R| == end + 1
  {
    && s <= end
    && (if s < end then Adjacent(L, s, R[s].next) else R[s].next == end)
    && (R[s].used <==> s in L.used || s == end)
    && (if s == 0 then R[s].prev == 0 else s < end ==> Adjacent(L, R[s].prev, s))
  }

  /** The headers `R` (by offset) describe the blocks of `L`. */
  ghost predicate Links(end: nat, R: seq<Mem>, L: Layout) {
    && |R| == end + 1
    && 0 in L.cuts && end in L.cuts && 0 < end
    && forall s {:trigger LinkAt(end, R, L, s)} | s in L.cuts :: LinkAt(end, R, L, s)
  }

  /** plug_holes, both halves: the header behind `mem` leaves the list. */
  function Unlinked(R: seq<Mem>, mem: nat): (r: seq<Mem>)
    requires mem < |R| && R[mem].next < |R| && R[R[mem].next].next < |R|
  {
    var nn := R[R[mem].next].next;
    var R1 := R[mem := R[mem].(next := nn)];
    R1[nn := R1[nn].(prev := mem)]
  }

  lemma UnlinkedLinks(end: nat, R: seq<Mem>, L: Layout, mem: nat)
    requires Links(end, R, L) && mem in L.cuts && mem < end
    requires R[mem].next < end && R[mem].next !in L.used
    ensures LinkAt(end, R, L, mem) && LinkAt(end, R, L, R[mem].next)
    ensures Links(end, Unlinked(R, mem), Layout(L.cuts - {R[mem].next}, L.used))
  {
    var n := R[mem].next;
    assert LinkAt(end, R, L, mem) && LinkAt(end, R, L, n);
    var R', L' := Unlinked(R, mem), Layout(L.cuts - {n}, L.used);
    forall s | s in L'.cuts
      ensures LinkAt(end, R', L', s)
    {
      assert LinkAt(end, R, L, s);
    }
  }

  /** A new free header at `at`, between `mem` and `next`. */
  function Linked(R: seq<Mem>, mem: nat, at: nat, next: nat, end: nat): (r: seq<Mem>)
    requires mem < |R| && at < |R| && next < |R|
  {
    var R1 := R[at := Mem(next, mem, false)];
    var R2 := R1[mem := R1[mem].(next := at)];
    if next == end then R2 else R2[next := R2[next].(prev := at)]
  }

  lemma LinkedLinks(end: nat, R: seq<Mem>, L: Layout, mem: nat, at: nat, next: nat)
    requires Links(end, R, L) && mem in L.cuts && next in L.cuts && mem < at < next <= end
    requires at !in L.used
    ensures Links(end, Linked(R, mem, at, next, end), Inserted(L, mem, at, next))
  {
    var R', L' := Linked(R, mem, at, next, end), Inserted(L, mem, at, next);
    InsertedAdjacent(L, mem, at, next);
    forall s | s in L'.cuts
      ensures LinkAt(end, R', L', s)
    {
      if s != at {
        assert LinkAt(end, R, L, s);
        if s < end && s != mem {
          OthersAdjacent(L, mem, at, next, s, R[s].next);
        }
        if 0 < s < end && s != next {
          OthersAdjacent(L, mem, at, next, R[s].prev, s);
        }
      }
    }
  }

  lemma MarkedLinks(end: nat, R: seq<Mem>, L: Layout, mem: nat, used: bool)
    requires Links(end, R, L) && mem in L.cuts && mem < end
    ensures Links(end, R[mem := R[mem].(used := used)],
                  Layout(L.cuts, if used then L.used + {mem} else L.used - {mem}))
  {
    var R' := R[mem := R[mem].(used := used)];
    var L' := Layout(L.cuts, if used then L.used + {mem} else L.used - {mem});
    forall s | s in L'.cuts
      ensures LinkAt(end, R', L', s)
    {
      assert LinkAt(end, R, L, s);
    }
  }

  class Heap {
    const c: Config
    /** The headers, by the offset at which they lie in the heap. The last one is `ram_end`. */
    const ram: array<Mem>
    var lfree: nat
    var memFreeCount: nat
    /** lwip_stats.mem: bytes in use, failed allocations, illegal pointers. */
    var used: nat
    var err: nat
    var illegal: nat

    /** The blocks the headers describe. */
    ghost var layout: Layout
    /** The block an allocation in progress has taken but not yet returned. */
    ghost var held: set<nat>

    ghost predicate Valid()
      reads this, ram
    {
      && Links(c.memSize, ram[..], layout)
      && Sound(c, layout, lfree, held, used)
    }

    /** mem_init. */
    constructor (c: Config)
      requires c.Ok()
      ensures Valid() && fresh(ram) && this.c == c
      ensures layout == Fresh(c) && held == {} && lfree == 0
      ensures used == err == illegal == 0
    {
      this.c := c;
      var r := new Mem[c.memSize + 1](_ => Mem(0, 0, false));
      r[0] := Mem(c.memSize, 0, false);
      r[c.memSize] := Mem(c.memSize, c.memSize, true);
      ram := r;
      lfree, memFreeCount, used, err, illegal := 0, 0, 0, 0, 0;
      layout, held := Fresh(c), {};
      new;
      FreshWellFormed(c);
    }

    /** Set the flag in the header of the block `mem`. */
    method Mark(mem: nat, inUse: bool)
      requires Links(c.memSize, ram[..], layout) && mem in layout.cuts && mem < c.memSize
      modifies this`layout, ram
      ensures layout == Layout(old(layout).cuts, if inUse then old(layout).used + {mem} else old(layout).used - {mem})
      ensures Links(c.memSize, ram[..], layout) && ram[mem].next == old(ram[mem].next)
    {
      MarkedLinks(c.memSize, ram[..], layout, mem, inUse);
      ghost var R := ram[..][mem := ram[mem].(used := inUse)];
      ram[mem] := ram[mem].(used := inUse);
      assert ram[..] == R;
      layout := Layout(layout.cuts, if inUse then layout.used + {mem} else layout.used - {mem});
    }

    /** Put a free block's header at `at`, between `mem` and `next`; a free block that lay
      * between them is forgotten. Splitting and shrinking both do this. */
    method Insert(mem: nat, at: nat, next: nat)
      requires Links(c.memSize, ram[..], layout) && mem in layout.cuts && next in layout.cuts
      requires mem < at < next <= c.memSize && at !in layout.used
      modifies this`layout, ram
      ensures layout == Inserted(old(layout), mem, at, next)
      ensures Links(c.memSize, ram[..], layout)
    {
      LinkedLinks(c.memSize, ram[..], layout, mem, at, next);
      ghost var R := Linked(ram[..], mem, at, next, c.memSize);
      ram[at] := Mem(next, mem, false);
      ram[mem] := ram[mem].(next := at);
      if next != c.memSize {
        ram[next] := ram[next].(prev := at);
      }
      assert ram[..] == R;
      layout := Inserted(layout, mem, at, next);
    }

    /** The two assignments both halves of plug_holes make. */
    method Unlink(mem: nat)
      requires Links(c.memSize, ram[..], layout) && mem in layout.cuts && mem < c.memSize
      requires ram[mem].next < c.memSize && ram[mem].next !in layout.used
      modifies this`layout, ram
      ensures layout == Layout(old(layout).cuts - {old(ram[mem].next)}, old(layout).used)
      ensures Links(c.memSize, ram[..], layout)
    {
      UnlinkedLinks(c.memSize, ram[..], layout, mem);
      ghost var R := Unlinked(ram[..], mem);
      var nmem := ram[mem].next;
      ram[mem] := ram[mem].(next := ram[nmem].next);
      ram[ram[nmem].next] := ram[ram[nmem].next].(prev := mem);
      assert ram[..] == R;
      layout := Layout(layout.cuts - {nmem}, layout.used);
    }

    /** The first half of plug_holes. `lfree` follows its block when that is merged. */
    method PlugForward(mem: nat)
      requires Links(c.memSize, ram[..], layout) && FreeBlock(c, layout, mem)
      modifies this`lfree, this`layout, ram
      ensures Links(c.memSize, ram[..], layout)
      ensures layout == Forward(c, old(layout), mem)
      ensures lfree == if old(lfree) in old(layout.cuts) && old(lfree) !in layout.cuts then mem else old(lfree)
    {
      var nmem := ram[mem].next;
      assert LinkAt(c.memSize, ram[..], layout, mem) && LinkAt(c.memSize, ram[..], layout, nmem);
      assert nmem == End(c, layout, mem);
      if mem != nmem && !ram[nmem].used && nmem != c.memSize {
        if lfree == nmem {
          lfree := mem;
        }
        Unlink(mem);
      }
    }

    /** The second half of plug_holes. */
    method PlugBackward(mem: nat)
      requires Links(c.memSize, ram[..], layout) && FreeBlock(c, layout, mem)
      modifies this`lfree, this`layout, ram
      ensures Links(c.memSize, ram[..], layout)
      ensures if mem == 0 then old(ram[mem].prev) == 0 else Adjacent(old(layout), old(ram[mem].prev), mem)
      ensures layout == Backward(old(layout), mem, old(ram[mem].prev))
      ensures lfree == if old(lfree) == mem && mem !in layout.cuts then old(ram[mem].prev) else old(lfree)
    {
      var pmem := ram[mem].prev;
      assert LinkAt(c.memSize, ram[..], layout, mem);
      assert LinkAt(c.memSize, ram[..], layout, pmem);
      if pmem != mem && !ram[pmem].used {
        if lfree == mem {
          lfree := pmem;
        }
        Unlink(pmem);
      }
    }

    /** plug_holes: merge the free block `mem` with the free blocks beside it. */
    method PlugHoles(mem: nat)
      requires Tiles(c, layout) && Links(c.memSize, ram[..], layout)
      requires FreeBlock(c, layout, mem) && lfree in layout.cuts
      requires forall t {:trigger Hole(c, layout, t)} | Hole(c, layout, t) :: t == mem || t == End(c, layout, mem)
      modifies this`lfree, this`layout, ram
      ensures Links(c.memSize, ram[..], layout) && layout.used == old(layout.used)
      ensures layout.cuts == set t | t in old(layout.cuts) && !Hole(c, old(layout), t)
      ensures old(lfree) in layout.cuts ==> lfree == old(lfree)
      ensures old(lfree) !in layout.cuts ==> lfree < old(lfree)
    {
      PlugForward(mem);
      ghost var pmem := ram[mem].prev;
      PlugBackward(mem);
      PlugsAll(c, old(layout), mem, pmem);
    }

    /** A pointer is an offset from `ram`; None is NULL. */
    predicate InHeap(p: int) {
      0 <= p < c.memSize
    }

    /** What mem_free and mem_trim demand of a pointer into the heap: it was returned by
      * mem_malloc and not given back since. */
    ghost predicate Live(p: int)
      reads this
    {
      c.header <= p && p - c.header in layout.used - held
    }

    /** mem_free. */
    method Free(rmem: Option<int>)
      requires Valid()
      requires rmem.Some? && InHeap(rmem.value) ==> Live(rmem.value)
      modifies this`lfree, this`memFreeCount, this`used, this`illegal, this`layout, ram
      ensures Valid()
      ensures rmem.Some? && InHeap(rmem.value) ==>
                && layout == Release(c, old(layout), rmem.value - c.header)
                && lfree == ReleaseLow(rmem.value - c.header, old(lfree))
                && memFreeCount == 1 && illegal == old(illegal)
      ensures rmem.Some? && InHeap(rmem.value) ==> GivenBack(c, old(layout), layout, rmem.value - c.header)
      ensures rmem.None? || !InHeap(rmem.value) ==>
                && layout == old(layout) && lfree == old(lfree) && memFreeCount == old(memFreeCount)
                && illegal == old(illegal) + if rmem.Some? then 1 else 0
    {
      if rmem.None? {
        return;
      }
      if rmem.value < 0 || rmem.value >= c.memSize {
        illegal := illegal + 1;
        return;
      }
      ReleaseExact(c, layout, rmem.value - c.header);
      GiveBack(rmem.value - c.header);
    }

    /** The part of mem_free that runs with the heap protected. */
    method GiveBack(mem: nat)
      requires Valid() && mem in layout.used && mem !in held
      modifies this`lfree, this`memFreeCount, this`used, this`layout, ram
      ensures Valid()
      ensures layout == Release(c, old(layout), mem) && memFreeCount == 1
      ensures lfree == ReleaseLow(mem, old(lfree))
    {
      ReleaseSound(c, layout, mem, lfree, held, used);
      ReleaseHoles(c, layout, mem);
      assert LinkAt(c.memSize, ram[..], layout, mem);
      assert ram[mem].next == End(c, layout, mem);
      Mark(mem, false);
      if mem < lfree {
        lfree := mem;
      }
      used := used - (ram[mem].next - mem);
      PlugHoles(mem);
      assert layout == Release(c, old(layout), mem);
      memFreeCount := 1;
    }

    /** mem_trim. The result is `rmem`, or NULL for a size that is too big. */
    method Trim(rmem: Option<int>, newsize: nat) returns (r: Option<int>)
      requires Valid() && newsize < c.wrap
      requires rmem.Some? && InHeap(rmem.value) ==> Live(rmem.value)
      modifies this`lfree, this`memFreeCount, this`used, this`illegal, this`layout, ram
      ensures Valid()
      ensures r == if c.Rounded(newsize) > c.memSize
                      || (rmem.Some? && InHeap(rmem.value)
                          && rmem.value + c.Rounded(newsize) > End(c, old(layout), rmem.value - c.header))
                   then None else rmem
      ensures layout == if rmem.Some? && InHeap(rmem.value) && r.Some?
                        then Shrink(c, old(layout), rmem.value - c.header, c.Rounded(newsize))
                        else old(layout)
      ensures rmem.Some? && InHeap(rmem.value) && r.Some? ==>
                Trimmed(c, old(layout), layout, rmem.value - c.header, c.Rounded(newsize))
      ensures illegal == old(illegal) +
                if c.Rounded(newsize) <= c.memSize && (rmem.None? || !InHeap(rmem.value)) then 1 else 0
      ensures if rmem.Some? && InHeap(rmem.value)
                 && rmem.value + c.Rounded(newsize) < End(c, old(layout), rmem.value - c.header)
              then memFreeCount == 1
                   && lfree == ShrinkLow(c, old(layout), rmem.value - c.header, c.Rounded(newsize), old(lfree))
              else memFreeCount == old(memFreeCount) && lfree == old(lfree)
    {
      RoundedMeaning(c, newsize);
      var n := c.Rounded(newsize);
      if rmem.Some? && InHeap(rmem.value) {
        ShrinkExact(c, layout, rmem.value - c.header, n);
      }
      if n > c.memSize {
        return None;
      }
      if rmem.None? || rmem.value < 0 || rmem.value >= c.memSize {
        illegal := illegal + 1;
        return rmem;
      }
      var mem: nat := rmem.value - c.header;
      assert LinkAt(c.memSize, ram[..], layout, mem);
      assert ram[mem].next == End(c, layout, mem);
      var size := ram[mem].next - mem - c.header;
      if n > size {
        return None;
      }
      if n == size {
        return rmem;
      }
      TrimLive(mem, n);
      return rmem;
    }

    /** The part of mem_trim that runs with the heap protected keeps the invariant. */
    method TrimLive(mem: nat, newsize: nat)
      requires Valid() && mem in layout.used && mem !in held
      requires c.Aligned(newsize) && c.minData <= newsize && mem + c.header + newsize < End(c, layout, mem)
      modifies this`lfree, this`memFreeCount, this`used, this`layout, ram
      ensures Valid()
      ensures layout == Shrink(c, old(layout), mem, newsize) && memFreeCount == 1
      ensures lfree == ShrinkLow(c, old(layout), mem, newsize, old(lfree))
    {
      ghost var low, total := ShrinkSoundAs(c, layout, mem, newsize, lfree, held, used);
      CutBack(mem, newsize);
      assert layout == Shrink(c, old(layout), mem, newsize);
      assert lfree == low && used == total;
    }

    /** The part of mem_trim that runs with the heap protected. */
    method CutBack(mem: nat, newsize: nat)
      requires Links(c.memSize, ram[..], layout)
      requires mem in layout.cuts && mem < c.memSize && mem < mem + c.header + newsize < End(c, layout, mem)
      requires mem + c.header + newsize !in layout.used
      requires End(c, layout, mem) - (mem + c.header + newsize) <= used
      modifies this`lfree, this`memFreeCount, this`used, this`layout, ram
      ensures Links(c.memSize, ram[..], layout) && memFreeCount == 1
      ensures var L, e, end := old(layout), End(c, old(layout), mem), mem + c.header + newsize;
              if FreeBlock(c, L, e) then
                && layout == Inserted(L, mem, end, End(c, L, e))
                && lfree == (if old(lfree) == e then end else old(lfree)) && used + (e - end) == old(used)
              else if end + c.header + c.minData <= e then
                && layout == Inserted(L, mem, end, e)
                && lfree == (if end < old(lfree) then end else old(lfree)) && used + (e - end) == old(used)
              else layout == L && lfree == old(lfree) && used == old(used)
    {
      ghost var L := layout;
      assert LinkAt(c.memSize, ram[..], L, mem);
      var mem2 := ram[mem].next;
      assert mem2 == End(c, L, mem);
      assert LinkAt(c.memSize, ram[..], L, mem2);
      var size := mem2 - mem - c.header;
      var ptr2 := mem + c.header + newsize;
      if !ram[mem2].used {
        var next := ram[mem2].next;
        assert next == End(c, L, mem2);
        if lfree == mem2 {
          lfree := ptr2;
        }
        Insert(mem, ptr2, next);
        used := used - (size - newsize);
      } else if newsize + c.header + c.minData <= size {
        if ptr2 < lfree {
          lfree := ptr2;
        }
        Insert(mem, ptr2, mem2);
        used := used - (size - newsize);
      }
      memFreeCount := 1;
    }

    /** The part of mem_malloc that takes `size` bytes from the free block `mem`. */
    method Take(mem: nat, size: nat)
      requires Links(c.memSize, ram[..], layout) && 0 < c.header
      requires Fits(c, layout, mem, size)
      requires Fits(c, layout, mem, size + c.header + c.minData) ==> mem + c.header + size !in layout.used
      modifies this`used, this`layout, ram
      ensures Links(c.memSize, ram[..], layout)
      ensures layout == Carve(c, old(layout), mem, size)
      ensures used == old(used) + (End(c, layout, mem) - mem)
    {
      ghost var L := layout;
      assert LinkAt(c.memSize, ram[..], L, mem);
      assert ram[mem].next == End(c, L, mem);
      if ram[mem].next - (mem + c.header) >= size + c.header + c.minData {
        var ptr2 := mem + c.header + size;
        Insert(mem, ptr2, ram[mem].next);
        assert layout == Layout(L.cuts + {ptr2}, L.used);
        Mark(mem, true);
        used := used + (size + c.header);
      } else {
        Mark(mem, true);
        used := used + (ram[mem].next - mem);
      }
    }

    method TakeLive(mem: nat, size: nat)
      requires Valid() && held == {} && Fits(c, layout, mem, size)
      requires c.Aligned(size) && c.minData <= size
      modifies this`used, this`layout, this`held, ram
      ensures Valid() && held == {mem}
      ensures layout == Carve(c, old(layout), mem, size)
    {
      CarveSound(c, layout, mem, size, lfree, used);
      Take(mem, size);
      held := {mem};
    }

    /** The end of mem_malloc: `lfree` moves on if the block just taken was the lowest free one. */
    method AdjustLfree(mem: nat)
      requires Valid() && held == {mem}
      modifies this`lfree, this`held
      ensures Valid() && held == {}
    {
      if mem == lfree {
        var cur := lfree;
        while ram[cur].used && cur != c.memSize
          invariant cur in layout.cuts && cur <= c.memSize
          invariant forall t | t in layout.cuts && t < cur :: t in layout.used
          decreases c.memSize - cur
        {
          assert LinkAt(c.memSize, ram[..], layout, cur);
          cur := ram[cur].next;
        }
        assert LinkAt(c.memSize, ram[..], layout, cur);
        lfree := cur;
      }
      held := {};
    }

    /** The scan of mem_malloc: from `lfree`, up to memSize - size. */
    method Search(size: nat) returns (r: Option<nat>)
      requires Valid() && held == {} && size <= c.memSize
      ensures match r
              case Some(s) => IsFirstFit(c, layout, s, size)
              case None => NothingFits(c, layout, size)
    {
      var ptr := lfree;
      while ptr < c.memSize - size
        invariant ptr in layout.cuts && ptr <= c.memSize
        invariant forall t: nat | t < ptr :: !Fits(c, layout, t, size)
        decreases c.memSize - ptr
      {
        assert LinkAt(c.memSize, ram[..], layout, ptr);
        assert ram[ptr].next == End(c, layout, ptr);
        if !ram[ptr].used && ram[ptr].next - (ptr + c.header) >= size {
          return Some(ptr);
        }
        ScanStep(c, layout, ptr, size);
        ptr := ram[ptr].next;
      }
      ScanEnd(c, layout, ptr, size);
      return None;
    }

    /** mem_malloc, from the block that fits on. */
    method TakeBlock(mem: nat, size: nat)
      requires Valid() && held == {} && Fits(c, layout, mem, size)
      requires c.Aligned(size) && c.minData <= size
      modifies this`lfree, this`used, this`layout, this`held, ram
      ensures Valid() && held == {}
      ensures layout == Carve(c, old(layout), mem, size) && Taken(c, old(layout), layout, mem, size)
    {
      CarveExact(c, layout, mem, size);
      TakeLive(mem, size);
      AdjustLfree(mem);
    }

    /** mem_malloc, when no other context can free memory meanwhile. It returns the lowest
      * free block that fits, and NULL only when there is none. */
    method Malloc(size: nat) returns (r: Option<nat>)
      requires Valid() && held == {} && size < c.wrap
      modifies this`lfree, this`used, this`err, this`layout, this`held, ram
      ensures Valid() && held == {}
      ensures var n := c.Rounded(size);
              match r
              case Some(p) =>
                && 0 < size && c.header <= p
                && IsFirstFit(c, old(layout), p - c.header, n)
                && layout == Carve(c, old(layout), p - c.header, n)
                && err == old(err)
                && Taken(c, old(layout), layout, p - c.header, n)
                && LowestEnough(c, old(layout), p - c.header, n)
              case None =>
                && layout == old(layout)
                && (size == 0 || n > c.memSize || (NothingFits(c, layout, n) && NoneEnough(c, layout, n)))
                && err == old(err) + if size == 0 || n > c.memSize then 0 else 1
    {
      if size == 0 {
        return None;
      }
      RoundedMeaning(c, size);
      var n := c.Rounded(size);
      if n > c.memSize {
        return None;
      }
      var found := Search(n);
      if found.Some? {
        FirstFitExact(c, layout, found.value, n);
        TakeBlock(found.value, n);
        return Some(found.value + c.header);
      }
      NothingFitsExact(c, layout, n);
      err := err + 1;
      return None;
    }
  }
}
