/** The heap of lwip/src/core/mem.c with LWIP_ALLOW_MEM_FREE_FROM_OTHER_CONTEXT, on its headers: in every
  * window in which `mem_malloc` lifts the protection, another context frees and trims blocks. */
module MemInterrupt {
  import opened Basics
  import opened MemHeap
  import opened MemLayout

  /** The other context frees and trims only what is in use. */
  method InUse(h: Heap, s: nat) returns (b: bool)
    requires h.Valid()
    ensures b <==> s in h.layout.used
  {
    var ptr: nat := 0;
    while ptr < s && ptr < h.c.memSize
      invariant ptr in h.layout.cuts && ptr <= h.c.memSize
      invariant forall t | t in h.layout.cuts && t < ptr :: t != s
      decreases h.c.memSize - ptr
    {
      assert LinkAt(h.c.memSize, h.ram[..], h.layout, ptr);
      assert h.ram[ptr].next == End(h.c, h.layout, ptr);
      ptr := h.ram[ptr].next;
    }
    assert LinkAt(h.c.memSize, h.ram[..], h.layout, ptr);
    b := ptr == s && ptr < h.c.memSize && h.ram[ptr].used;
  }

  function Mine(mine: Option<nat>): set<nat> {
    if mine.Some? then {mine.value} else {}
  }

  /** The call is made: it is the other context's block, and the code takes no pointer at the very end of the
    * heap, where a block without data would have its data. */
  predicate Makes(c: Config, L: Layout, held: set<nat>, op: Op) {
    Allowed(c, L, held, op) && op.s + c.header < c.memSize
  }

  /** The heap after the calls `ops` of the other context, each of which is made if it may be made when its
    * turn comes. */
  ghost function Shared(c: Config, L: Layout, held: set<nat>, ops: seq<Op>): Layout
    requires c.Ok()
  {
    if ops == [] then L
    else
      var R, op := Shared(c, L, held, ops[..|ops| - 1]), ops[|ops| - 1];
      if Makes(c, R, held, op) then Effect(c, R, op) else R
  }

  lemma SharedMore(c: Config, L: Layout, held: set<nat>, ops: seq<Op>, op: Op)
    requires c.Ok()
    ensures var R := Shared(c, L, held, ops);
            Shared(c, L, held, ops + [op]) == if Makes(c, R, held, op) then Effect(c, R, op) else R
  {
    assert (ops + [op])[..|ops|] == ops;
  }

  lemma {:induction false} SharedConcat(c: Config, L: Layout, held: set<nat>, ops: seq<Op>, more: seq<Op>)
    requires c.Ok()
    ensures Shared(c, L, held, ops + more) == Shared(c, Shared(c, L, held, ops), held, more)
  {
    if more == [] {
      assert ops + more == ops;
    } else {
      var k := |more| - 1;
      SharedConcat(c, L, held, ops, more[..k]);
      SharedMore(c, L, held, ops + more[..k], more[k]);
      assert (ops + more[..k]) + [more[k]] == ops + more;
    }
  }

  /** What the other context wants to do in the first `w` windows. */
  function Calls(windows: seq<seq<Op>>, w: nat): seq<Op>
    requires w <= |windows|
  {
    if w == 0 then [] else Calls(windows, w - 1) + windows[w - 1]
  }

  /** The heap after the first `w` windows. */
  ghost function Meanwhile(c: Config, L: Layout, held: set<nat>, windows: seq<seq<Op>>, w: nat): Layout
    requires c.Ok() && w <= |windows|
  {
    Shared(c, L, held, Calls(windows, w))
  }

  lemma NextWindow(c: Config, L: Layout, held: set<nat>, windows: seq<seq<Op>>, w: nat)
    requires c.Ok() && w < |windows|
    ensures Meanwhile(c, L, held, windows, w + 1) == Shared(c, Meanwhile(c, L, held, windows, w), held, windows[w])
  {
    SharedConcat(c, L, held, Calls(windows, w), windows[w]);
    assert Calls(windows, w + 1) == Calls(windows, w) + windows[w];
  }

  /** One call of mem_free or mem_trim, unless the block is not the caller's. */
  method Other(h: Heap, op: Op, mine: Option<nat>) returns (did: bool)
    requires h.Valid() && h.held == Mine(mine)
    modifies h`lfree, h`memFreeCount, h`used, h`illegal, h`layout, h.ram
    ensures h.Valid()
    ensures did == Makes(h.c, old(h.layout), h.held, op)
    ensures if did then
              && h.layout == Effect(h.c, old(h.layout), op)
              && h.lfree == EffectLow(h.c, old(h.layout), op, old(h.lfree))
              && h.memFreeCount == (if Disturbs(h.c, old(h.layout), op) then 1 else old(h.memFreeCount))
            else h.layout == old(h.layout) && h.lfree == old(h.lfree) && h.memFreeCount == old(h.memFreeCount)
  {
    var used := InUse(h, op.s);
    did := used && Some(op.s) != mine && (op.Trim? ==> op.size < h.c.wrap) && op.s + h.c.header < h.c.memSize;
    if did {
      Make(h, op, mine);
    }
  }

  method Make(h: Heap, op: Op, mine: Option<nat>)
    requires h.Valid() && h.held == Mine(mine) && Makes(h.c, h.layout, h.held, op)
    modifies h`lfree, h`memFreeCount, h`used, h`illegal, h`layout, h.ram
    ensures h.Valid() && h.layout == Effect(h.c, old(h.layout), op)
    ensures h.lfree == EffectLow(h.c, old(h.layout), op, old(h.lfree))
    ensures h.memFreeCount == if Disturbs(h.c, old(h.layout), op) then 1 else old(h.memFreeCount)
  {
    EffectWellFormed(h.c, h.layout, h.held, op);
    match op
    case Free(s) => MakeFree(h, s);
    case Trim(s, size) => MakeTrim(h, s, size);
  }

  method MakeFree(h: Heap, s: nat)
    requires h.Valid() && s in h.layout.used && s !in h.held && s + h.c.header < h.c.memSize
    modifies h`lfree, h`memFreeCount, h`used, h`illegal, h`layout, h.ram
    ensures h.Valid() && h.layout == Release(h.c, old(h.layout), s)
    ensures h.lfree == ReleaseLow(s, old(h.lfree)) && h.memFreeCount == 1
  {
    h.Free(Some(s + h.c.header));
  }

  method MakeTrim(h: Heap, s: nat, size: nat)
    requires h.Valid() && s in h.layout.used && s !in h.held && s + h.c.header < h.c.memSize && size < h.c.wrap
    modifies h`lfree, h`memFreeCount, h`used, h`illegal, h`layout, h.ram
    ensures var n, e := h.c.Rounded(size), End(h.c, old(h.layout), s);
            && h.Valid() && h.layout == Shrink(h.c, old(h.layout), s, n)
            && h.lfree == ShrinkLow(h.c, old(h.layout), s, n, old(h.lfree))
            && h.memFreeCount == if s + h.c.header + n < e then 1 else old(h.memFreeCount)
  {
    var r := h.Trim(Some(s + h.c.header), size);
  }

  /** A window: the other context makes the calls `ops`, as far as it may. */
  method Window(h: Heap, ops: seq<Op>, mine: Option<nat>)
    requires h.Valid() && h.held == Mine(mine)
    modifies h`lfree, h`memFreeCount, h`used, h`illegal, h`layout, h.ram
    ensures h.Valid() && h.layout == Shared(h.c, old(h.layout), Mine(mine), ops)
    ensures mine.Some? ==> mine.value in h.layout.used
    ensures h.memFreeCount == 0 ==> h.layout == old(h.layout) && h.lfree == old(h.lfree)
    ensures ops == [] ==> h.memFreeCount == 0
  {
    h.memFreeCount := 0;
    for i := 0 to |ops|
      invariant h.Valid() && h.layout == Shared(h.c, old(h.layout), Mine(mine), ops[..i])
      invariant h.memFreeCount == 0 ==> h.layout == old(h.layout) && h.lfree == old(h.lfree)
      invariant ops == [] ==> h.memFreeCount == 0
    {
      ghost var L := h.layout;
      SharedMore(h.c, old(h.layout), Mine(mine), ops[..i], ops[i]);
      assert ops[..i] + [ops[i]] == ops[..i + 1];
      var did := Other(h, ops[i], mine);
      if did {
        EffectWellFormed(h.c, L, h.held, ops[i]);
      }
    }
    assert ops[..|ops|] == ops;
  }

  /** The next window; the heap was `was` before all of them. */
  method Pause(h: Heap, windows: seq<seq<Op>>, w: nat, mine: Option<nat>, ghost was: Layout) returns (w': nat)
    requires h.Valid() && h.held == Mine(mine) && w <= |windows|
    requires h.layout == Meanwhile(h.c, was, Mine(mine), windows, w)
    modifies h`lfree, h`memFreeCount, h`used, h`illegal, h`layout, h.ram
    ensures h.Valid() && w <= w' <= |windows| && h.layout == Meanwhile(h.c, was, Mine(mine), windows, w')
    ensures mine.Some? ==> mine.value in h.layout.used
    ensures h.memFreeCount == 0 ==> h.layout == old(h.layout) && h.lfree == old(h.lfree)
    ensures w < |windows| ==> w' == w + 1
    ensures w == |windows| ==> h.memFreeCount == 0
  {
    w' := w;
    if w < |windows| {
      NextWindow(h.c, was, Mine(mine), windows, w);
      Window(h, windows[w], mine);
      w' := w + 1;
    } else {
      Window(h, [], mine);
    }
  }

  /** The scan of mem_malloc, from `lfree` on: it starts again when a window has changed the heap. The
    * `w`-th window sees `windows[w]`, and nothing happens when those are used up. */
  method Scan(h: Heap, size: nat, windows: seq<seq<Op>>) returns (r: Option<nat>, w: nat)
    requires h.Valid() && h.held == {} && size <= h.c.memSize
    modifies h`lfree, h`memFreeCount, h`used, h`illegal, h`layout, h.ram
    ensures h.Valid() && w <= |windows| && h.layout == Meanwhile(h.c, old(h.layout), {}, windows, w)
    ensures match r
            case Some(s) => IsFirstFit(h.c, h.layout, s, size)
            case None => NothingFits(h.c, h.layout, size)
  {
    ghost var was := h.layout;
    var ptr := h.lfree;
    w := 0;
    while ptr < h.c.memSize - size
      invariant h.Valid() && w <= |windows| && h.layout == Meanwhile(h.c, was, {}, windows, w)
      invariant ptr in h.layout.cuts && ptr <= h.c.memSize
      invariant forall t: nat | t < ptr :: !Fits(h.c, h.layout, t, size)
      decreases |windows| - w, h.c.memSize - ptr
    {
      w := Pause(h, windows, w, None, was);
      if h.memFreeCount != 0 {
        ptr := h.lfree;
      } else {
        assert LinkAt(h.c.memSize, h.ram[..], h.layout, ptr);
        assert h.ram[ptr].next == End(h.c, h.layout, ptr);
        if !h.ram[ptr].used && h.ram[ptr].next - (ptr + h.c.header) >= size {
          return Some(ptr), w;
        }
        ScanStep(h.c, h.layout, ptr, size);
        ptr := h.ram[ptr].next;
      }
    }
    ScanEnd(h.c, h.layout, ptr, size);
    return None, w;
  }

  /** The end of mem_malloc, which looks for the next free block, and starts again when a window has
    * changed the heap. */
  method Adjust(h: Heap, mem: nat, windows: seq<seq<Op>>) returns (w: nat)
    requires h.Valid() && h.held == {mem}
    modifies h`lfree, h`memFreeCount, h`used, h`illegal, h`layout, h`held, h.ram
    ensures h.Valid() && h.held == {} && mem in h.layout.used
    ensures w <= |windows| && h.layout == Meanwhile(h.c, old(h.layout), {mem}, windows, w)
  {
    ghost var was := h.layout;
    var cur := h.lfree;
    w := 0;
    while mem == h.lfree && h.ram[cur].used && cur != h.c.memSize
      invariant w <= |windows| && h.Valid() && h.held == {mem}
      invariant mem in h.layout.used && h.layout == Meanwhile(h.c, was, {mem}, windows, w)
      invariant mem == h.lfree ==> cur in h.layout.cuts && cur <= h.c.memSize
      invariant mem == h.lfree ==> forall t | t in h.layout.cuts && t < cur :: t in h.layout.used
      decreases |windows| - w, h.c.memSize - cur
    {
      assert LinkAt(h.c.memSize, h.ram[..], h.layout, cur);
      assert cur in h.layout.used;
      w := Pause(h, windows, w, Some(mem), was);
      if h.memFreeCount != 0 {
        cur := h.lfree;
      } else {
        assert LinkAt(h.c.memSize, h.ram[..], h.layout, cur);
        cur := h.ram[cur].next;
      }
    }
    if mem == h.lfree {
      assert LinkAt(h.c.memSize, h.ram[..], h.layout, cur);
      h.lfree := cur;
    }
    h.held := {};
  }

  /** mem_malloc, from the block that fits on. */
  method TakeBlock(h: Heap, mem: nat, size: nat, windows: seq<seq<Op>>) returns (w: nat)
    requires h.Valid() && h.held == {} && Fits(h.c, h.layout, mem, size)
    requires h.c.Aligned(size) && h.c.minData <= size
    modifies h`lfree, h`memFreeCount, h`used, h`illegal, h`layout, h`held, h.ram
    ensures h.Valid() && h.held == {} && mem in h.layout.used && w <= |windows|
    ensures h.layout == Meanwhile(h.c, Carve(h.c, old(h.layout), mem, size), {mem}, windows, w)
  {
    h.TakeLive(mem, size);
    w := Adjust(h, mem, windows);
  }

  /** mem_malloc. On return the headers are linked, `lfree` is exact and the statistic is right (Valid).
    * A block that is returned was the lowest free one that fitted when it was taken, and the heap is
    * as if the whole call had happened after the first `w` windows of the scan and before the first `x`
    * windows behind it, with `taken` right after it; NULL is returned only for a bad size or if nothing fits
    * at that instant. */
  method Malloc(h: Heap, size: nat, scanning: seq<seq<Op>>, adjusting: seq<seq<Op>>)
      returns (r: Option<nat>, w: nat, x: nat, ghost taken: Layout)
    requires h.Valid() && h.held == {} && size < h.c.wrap
    modifies h`lfree, h`memFreeCount, h`used, h`illegal, h`err, h`layout, h`held, h.ram
    ensures h.Valid() && h.held == {} && w <= |scanning| && x <= |adjusting|
    ensures var n, L := h.c.Rounded(size), Meanwhile(h.c, old(h.layout), {}, scanning, w);
            match r
            case Some(p) =>
              && 0 < size && h.c.header <= p && IsFirstFit(h.c, L, p - h.c.header, n)
              && LowestEnough(h.c, L, p - h.c.header, n)
              && Taken(h.c, L, taken, p - h.c.header, n) && taken == Carve(h.c, L, p - h.c.header, n)
              && h.layout == Meanwhile(h.c, taken, {p - h.c.header}, adjusting, x)
              && p - h.c.header in h.layout.used && h.err == old(h.err)
            case None =>
              && h.layout == L
              && (size == 0 || n > h.c.memSize || (NothingFits(h.c, L, n) && NoneEnough(h.c, L, n)))
              && h.err == old(h.err) + if size == 0 || n > h.c.memSize then 0 else 1
  {
    if size == 0 {
      return None, 0, 0, h.layout;
    }
    RoundedMeaning(h.c, size);
    var n := h.c.Rounded(size);
    if n > h.c.memSize {
      return None, 0, 0, h.layout;
    }
    var found;
    found, w := Scan(h, n, scanning);
    if found.None? {
      NothingFitsExact(h.c, h.layout, n);
      h.err := h.err + 1;
      return None, w, 0, h.layout;
    }
    taken := Carve(h.c, h.layout, found.value, n);
    FirstFitExact(h.c, h.layout, found.value, n);
    CarveExact(h.c, h.layout, found.value, n);
    x := TakeBlock(h, found.value, n, adjusting);
    return Some(found.value + h.c.header), w, x, taken;
  }
}
