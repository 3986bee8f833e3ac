/** mem_malloc of lwip/src/core/mem.c built with LWIP_ALLOW_MEM_FREE_FROM_OTHER_CONTEXT: an
  * interrupt may free or trim blocks whenever the scan lifts its protection. One step of the
  * machine is one protected section of mem_malloc, or one call of the other context. */
module MemShared {
  import opened MemLayout

  /** Where mem_malloc stands. `Test` and `Adjust` are the tops of its two loops, the windows
    * are the places at which it lifts the protection. */
  datatype Pc =
    | Test(ptr: nat)
    | Window(ptr: nat)
    | Adjust(mem: nat)
    | Skip(mem: nat, cur: nat)
    | SkipWindow(mem: nat, cur: nat)
    | Done(found: bool, mem: nat)

  /** The heap, mem_malloc's position, and the history of the call: the calls of the other
    * context `before` and `after` mem_malloc took its block. */
  datatype State = State(
    layout: Layout, low: nat, disturbed: bool, pc: Pc,
    before: seq<Op>, after: seq<Op>)

  /** A call for `size` bytes, already rounded, on the heap `L0`. */
  datatype Call = Call(c: Config, L0: Layout, size: nat) {
    ghost predicate Ok() {
      WellFormed(c, L0) && c.Aligned(size) && c.minData <= size <= c.memSize
    }
  }

  ghost predicate Init(k: Call, s: State) {
    && s.layout == k.L0
    && LowestFree(k.c, k.L0, s.low, {})
    && s.pc == Test(s.low)
    && s.before == [] && s.after == []
  }

  function InHand(pc: Pc): set<nat> {
    if pc.Adjust? || pc.Skip? || pc.SkipWindow? then {pc.mem} else {}
  }

  /** One protected section of mem_malloc. */
  ghost predicate MallocStep(k: Call, s: State, s': State) {
    var c := k.c;
    match s.pc
    case Test(ptr) =>
      if ptr < c.memSize - k.size
      then s' == s.(disturbed := false, pc := Window(ptr))
      else s' == s.(pc := Done(false, 0))
    case Window(ptr) =>
      if s.disturbed then s' == s.(pc := Test(s.low))
      else if Fits(c, s.layout, ptr, k.size)
      then s' == s.(layout := Carve(c, s.layout, ptr, k.size), pc := Adjust(ptr))
      else ptr < c.memSize && s' == s.(pc := Test(End(c, s.layout, ptr)))
    case Adjust(mem) =>
      if mem == s.low then s' == s.(pc := Skip(mem, s.low)) else s' == s.(pc := Done(true, mem))
    case Skip(mem, cur) =>
      if cur in s.layout.used && cur < c.memSize
      then s' == s.(disturbed := false, pc := SkipWindow(mem, cur))
      else s' == s.(low := cur, pc := Done(true, mem))
    case SkipWindow(mem, cur) =>
      if s.disturbed then s' == s.(pc := Adjust(mem))
      else cur < c.memSize && s' == s.(pc := Skip(mem, End(c, s.layout, cur)))
    case Done(_, _) => false
  }

  /** The other context frees or trims a block it owns. */
  ghost predicate OtherStep(k: Call, s: State, s': State, op: Op)
    requires k.c.Ok()
  {
    && (s.pc.Window? || s.pc.SkipWindow?)
    && Allowed(k.c, s.layout, InHand(s.pc), op)
    && s' == s.(
         layout := Effect(k.c, s.layout, op),
         low := EffectLow(k.c, s.layout, op, s.low),
         disturbed := s.disturbed || Disturbs(k.c, s.layout, op),
         before := if s.pc.Window? then s.before + [op] else s.before,
         after := if s.pc.Window? then s.after else s.after + [op])
  }

  ghost predicate Next(k: Call, s: State, s': State)
    requires k.c.Ok()
  {
    MallocStep(k, s, s') || exists op :: OtherStep(k, s, s', op)
  }

  /** A run: any number of steps, in any interleaving. */
  ghost predicate Run(k: Call, run: seq<State>)
    requires k.c.Ok()
  {
    && 0 < |run| && Init(k, run[0])
    && forall i | 0 <= i < |run| - 1 :: Next(k, run[i], run[i + 1])
  }

  // ---------------------------------------------------------------- the invariant

  /** The heap at the moment mem_malloc took its block. */
  ghost function AtTake(k: Call, s: State): Layout
    requires k.c.Ok()
  {
    Replay(k.c, k.L0, s.before)
  }

  /** The call acts as if it had happened at one point between the calls of the other context. */
  ghost predicate Linear(k: Call, s: State, mem: nat)
    requires k.c.Ok()
  {
    && Tiles(k.c, AtTake(k, s)) && IsFirstFit(k.c, AtTake(k, s), mem, k.size)
    && s.layout == Replay(k.c, Carve(k.c, AtTake(k, s), mem, k.size), s.after)
    && mem in s.layout.used
  }

  ghost predicate Passed(k: Call, s: State, ptr: nat) {
    && ptr in s.layout.cuts
    && forall t: nat | t < ptr :: !Fits(k.c, s.layout, t, k.size)
  }

  ghost predicate Skipped(s: State, cur: nat) {
    && cur in s.layout.cuts
    && forall t | t in s.layout.cuts && t < cur :: t in s.layout.used
  }

  ghost predicate Inv(k: Call, s: State) {
    && k.Ok()
    && WellFormed(k.c, s.layout)
    && LowestFree(k.c, s.layout, s.low, InHand(s.pc))
    && (s.pc.Test? || s.pc.Window? ==> s.layout == AtTake(k, s) && s.after == [])
    && match s.pc
       case Test(ptr) => Passed(k, s, ptr)
       case Window(ptr) => ptr < k.c.memSize - k.size && (s.disturbed || Passed(k, s, ptr))
       case Adjust(mem) => Linear(k, s, mem)
       case Skip(mem, cur) => Linear(k, s, mem) && Skipped(s, cur) && s.low == mem
       case SkipWindow(mem, cur) =>
         && Linear(k, s, mem) && cur < k.c.memSize
         && (s.disturbed || (Skipped(s, cur) && cur in s.layout.used && s.low == mem))
       case Done(found, mem) =>
         if found then Linear(k, s, mem) else NothingFits(k.c, s.layout, k.size) && s.layout == AtTake(k, s)
  }

  lemma InitInv(k: Call, s: State)
    requires k.Ok() && Init(k, s)
    ensures Inv(k, s)
  {
  }

  lemma TestInv(k: Call, s: State, s': State)
    requires Inv(k, s) && s.pc.Test? && MallocStep(k, s, s')
    ensures Inv(k, s')
  {
    if s'.pc.Done? {
      ScanEnd(k.c, s.layout, s.pc.ptr, k.size);
    }
  }

  lemma WindowInv(k: Call, s: State, s': State)
    requires Inv(k, s) && s.pc.Window? && MallocStep(k, s, s')
    ensures Inv(k, s')
  {
    var c, ptr := k.c, s.pc.ptr;
    if s.disturbed {
    } else if Fits(c, s.layout, ptr, k.size) {
      CarveWellFormed(c, s.layout, ptr, k.size);
    } else {
      ScanStep(c, s.layout, ptr, k.size);
    }
  }

  lemma AdjustInv(k: Call, s: State, s': State)
    requires Inv(k, s) && (s.pc.Adjust? || s.pc.Skip? || s.pc.SkipWindow?) && MallocStep(k, s, s')
    ensures Inv(k, s')
  {
    assert s'.layout == s.layout && s'.before == s.before && s'.after == s.after;
  }

  /** The other context turns the heap into `L`; unless `quiet` holds, it raises the flag. */
  lemma OtherInWindow(k: Call, s: State, s': State, L: Layout, low: nat, quiet: bool)
    requires Inv(k, s) && s.pc.Window?
    requires s' == s.(layout := L, low := low, disturbed := s.disturbed || !quiet, before := s'.before)
    requires WellFormed(k.c, L) && LowestFree(k.c, L, low, {}) && L == AtTake(k, s')
    requires quiet ==> L == s.layout && low == s.low
    ensures Inv(k, s')
  {
  }

  lemma OtherInSkipWindow(k: Call, s: State, s': State, L: Layout, low: nat, quiet: bool)
    requires Inv(k, s) && s.pc.SkipWindow?
    requires s' == s.(layout := L, low := low, disturbed := s.disturbed || !quiet, after := s'.after)
    requires WellFormed(k.c, L) && LowestFree(k.c, L, low, {s.pc.mem}) && s.pc.mem in L.used
    requires L == Replay(k.c, Carve(k.c, AtTake(k, s), s.pc.mem, k.size), s'.after)
    requires quiet ==> L == s.layout && low == s.low
    ensures Inv(k, s')
  {
    assert AtTake(k, s') == AtTake(k, s);
    assert Linear(k, s', s.pc.mem);
  }

  lemma OtherInv(k: Call, s: State, s': State, op: Op)
    requires Inv(k, s) && OtherStep(k, s, s', op)
    ensures Inv(k, s')
  {
    EffectWellFormed(k.c, s.layout, InHand(s.pc), op);
    var L, low := Effect(k.c, s.layout, op), EffectLow(k.c, s.layout, op, s.low);
    if s.pc.Window? {
      ReplayMore(k.c, k.L0, s.before, op);
      OtherInWindow(k, s, s', L, low, !Disturbs(k.c, s.layout, op));
    } else {
      ReplayMore(k.c, Carve(k.c, AtTake(k, s), s.pc.mem, k.size), s.after, op);
      OtherInSkipWindow(k, s, s', L, low, !Disturbs(k.c, s.layout, op));
    }
  }

  lemma NextInv(k: Call, s: State, s': State)
    requires Inv(k, s) && Next(k, s, s')
    ensures Inv(k, s')
  {
    if MallocStep(k, s, s') {
      match s.pc
      case Test(_) => TestInv(k, s, s');
      case Window(_) => WindowInv(k, s, s');
      case Adjust(_) => AdjustInv(k, s, s');
      case Skip(_, _) => AdjustInv(k, s, s');
      case SkipWindow(_, _) => AdjustInv(k, s, s');
    } else {
      var op :| OtherStep(k, s, s', op);
      OtherInv(k, s, s', op);
    }
  }

  lemma {:induction false} RunInv(k: Call, run: seq<State>, i: nat)
    requires k.Ok() && Run(k, run) && i < |run|
    ensures Inv(k, run[i])
  {
    if i == 0 {
      InitInv(k, run[0]);
    } else {
      RunInv(k, run, i - 1);
      NextInv(k, run[i - 1], run[i]);
    }
  }

  /** Whatever the other context does in the windows: at every step the heap is a valid tiling
    * and no free block lies below lfree; when the call returns lfree is exact; a block it returns
    * was the lowest free one that fitted when it was taken, and the heap is as if the whole call
    * had happened at that point; and it returns NULL only if nothing fits at that instant. */
  lemma Interference(k: Call, run: seq<State>)
    requires k.Ok() && Run(k, run)
    ensures forall i | 0 <= i < |run| ::
              && WellFormed(k.c, run[i].layout)
              && (forall t | t in run[i].layout.cuts && t < run[i].low :: t in run[i].layout.used)
    ensures var s := run[|run| - 1];
            s.pc.Done? ==>
              && LowestFree(k.c, s.layout, s.low, {})
              && (if s.pc.found then
                    var R := Replay(k.c, k.L0, s.before);
                    var taken := Carve(k.c, R, s.pc.mem, k.size);
                    && IsFirstFit(k.c, R, s.pc.mem, k.size) && LowestEnough(k.c, R, s.pc.mem, k.size)
                    && Taken(k.c, R, taken, s.pc.mem, k.size) && s.layout == Replay(k.c, taken, s.after)
                    && s.pc.mem in s.layout.used
                  else s.layout == Replay(k.c, k.L0, s.before)
                       && NothingFits(k.c, s.layout, k.size) && NoneEnough(k.c, s.layout, k.size))
  {
    forall i | 0 <= i < |run|
      ensures Inv(k, run[i])
    {
      RunInv(k, run, i);
    }
    var s := run[|run| - 1];
    assert Inv(k, s);
    if s.pc.Done? && s.pc.found {
      FirstFitExact(k.c, AtTake(k, s), s.pc.mem, k.size);
      CarveExact(k.c, Replay(k.c, k.L0, s.before), s.pc.mem, k.size);
    } else if s.pc.Done? {
      NothingFitsExact(k.c, s.layout, k.size);
    }
  }

  // ---------------------------------------------------------------- progress

  ghost function Rank(k: Call, s: State): int {
    var m := 2 * k.c.memSize + 4;
    match s.pc
    case Test(ptr) => 2 * m + 2 * (k.c.memSize - ptr) + 1
    case Window(ptr) => 2 * m + 2 * (k.c.memSize - ptr)
    case Adjust(_) => m + 1
    case Skip(_, cur) => 2 * (k.c.memSize - cur) + 2
    case SkipWindow(_, cur) => 2 * (k.c.memSize - cur) + 1
    case Done(_, _) => 0
  }

  /** mem_malloc is never stuck, and every step of its own brings it closer to returning unless
    * the other context disturbed the window just passed. */
  lemma Progress(k: Call, s: State) returns (s': State)
    requires Inv(k, s) && !s.pc.Done?
    ensures MallocStep(k, s, s')
    ensures !((s.pc.Window? || s.pc.SkipWindow?) && s.disturbed) ==> 0 <= Rank(k, s') < Rank(k, s)
  {
    var c := k.c;
    match s.pc
    case Test(ptr) =>
      s' := if ptr < c.memSize - k.size then s.(disturbed := false, pc := Window(ptr)) else s.(pc := Done(false, 0));
    case Window(ptr) =>
      s' := if s.disturbed then s.(pc := Test(s.low))
            else if Fits(c, s.layout, ptr, k.size) then s.(layout := Carve(c, s.layout, ptr, k.size), pc := Adjust(ptr))
            else s.(pc := Test(End(c, s.layout, ptr)));
    case Adjust(mem) =>
      s' := if mem == s.low then s.(pc := Skip(mem, s.low)) else s.(pc := Done(true, mem));
    case Skip(mem, cur) =>
      s' := if cur in s.layout.used && cur < c.memSize then s.(disturbed := false, pc := SkipWindow(mem, cur))
            else s.(low := cur, pc := Done(true, mem));
    case SkipWindow(mem, cur) =>
      s' := if s.disturbed then s.(pc := Adjust(mem)) else s.(pc := Skip(mem, End(c, s.layout, cur)));
  }
}
