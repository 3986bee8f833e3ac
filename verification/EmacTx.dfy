/** The transmit side of lwip/src/arch/lpc18xx_43xx_emac.c: a ring of descriptors that the
  * driver fills and reclaims while the DMA engine, between any two writes, takes slots. */
module EmacTx {
  import opened Basics
  import opened Ring

  /** One pbuf of a chain: its payload address and length. */
  datatype Frag = Frag(payload: nat, len: nat)

  /** A chain of pbufs handed to the driver; `id` is the address of its first pbuf. */
  datatype Chain = Chain(id: nat, frags: seq<Frag>)

  /** A transmit descriptor: buffer, TDES_OWN, _FS, _LS, _IC, _CIC(3) and _TER. */
  datatype Desc = Desc(frag: Frag, own: bool, fs: bool, ls: bool, ic: bool, cic: bool, ter: bool)

  /** What one slot carries for its frame, and the chain whose pbufs it frees when reclaimed. */
  datatype Rec = Rec(frag: Frag, fs: bool, ls: bool, saved: Option<Chain>)

  // ---------------------------------------------------------------- frames as slot contents

  /** The slots of one frame: FS on the first only, LS on the last only. */
  function Records(c: Chain): (r: seq<Rec>)
    ensures |r| == |c.frags|
  {
    seq(|c.frags|, i requires 0 <= i < |c.frags| =>
      Rec(c.frags[i], i == 0, i == |c.frags| - 1, if i == |c.frags| - 1 then Some(c) else None))
  }

  function Flatten(frames: seq<Chain>): seq<Rec> {
    if frames == [] then [] else Flatten(frames[..|frames| - 1]) + Records(frames[|frames| - 1])
  }

  /** The chains freed when the slots `rs` are reclaimed. */
  function Saved(rs: seq<Rec>): seq<Chain> {
    if rs == [] then []
    else Saved(rs[..|rs| - 1]) + match rs[|rs| - 1].saved case Some(c) => [c] case None => []
  }

  ghost predicate NonEmpty(frames: seq<Chain>) {
    forall i | 0 <= i < |frames| :: frames[i].frags != []
  }

  lemma FlattenSnoc(frames: seq<Chain>, c: Chain)
    ensures Flatten(frames + [c]) == Flatten(frames) + Records(c)
  {
    assert (frames + [c])[..|frames|] == frames;
  }

  lemma {:induction false} FlattenPrefix(frames: seq<Chain>, m: nat)
    requires m <= |frames|
    ensures Flatten(frames[..m]) <= Flatten(frames)
  {
    if m < |frames| {
      assert frames[..|frames| - 1][..m] == frames[..m];
      FlattenPrefix(frames[..|frames| - 1], m);
    } else {
      assert frames[..m] == frames;
    }
  }

  lemma SavedSnoc(rs: seq<Rec>, r: Rec)
    ensures Saved(rs + [r]) == Saved(rs) + match r.saved case Some(c) => [c] case None => []
  {
    assert (rs + [r])[..|rs|] == rs;
  }

  lemma SavedNext(rs: seq<Rec>, k: nat)
    requires k < |rs|
    ensures Saved(rs[..k + 1]) == Saved(rs[..k]) + match rs[k].saved case Some(c) => [c] case None => []
  {
    assert rs[..k + 1] == rs[..k] + [rs[k]];
    SavedSnoc(rs[..k], rs[k]);
  }

  /** Part of a frame's slots free nothing, all of them free its chain. */
  lemma {:induction false} SavedFrame(rs: seq<Rec>, c: Chain, j: nat)
    requires j <= |c.frags|
    ensures Saved(rs + Records(c)[..j]) == if 0 < j == |c.frags| then Saved(rs) + [c] else Saved(rs)
  {
    if j == 0 {
      assert rs + Records(c)[..0] == rs;
    } else {
      SavedFrame(rs, c, j - 1);
      assert rs + Records(c)[..j] == (rs + Records(c)[..j - 1]) + [Records(c)[j - 1]];
      SavedSnoc(rs + Records(c)[..j - 1], Records(c)[j - 1]);
    }
  }

  /** Chains are freed in the order they were sent, each once, and the m-th only after every
    * slot of the first m frames was reclaimed: reclaiming `r` slots frees exactly the frames
    * that lie in them completely. */
  lemma {:induction false} FreedFrames(frames: seq<Chain>, r: nat) returns (m: nat)
    requires NonEmpty(frames)
    requires r <= |Flatten(frames)|
    ensures m <= |frames| && Saved(Flatten(frames)[..r]) == frames[..m]
    ensures |Flatten(frames[..m])| <= r
    ensures m < |frames| ==> r < |Flatten(frames[..m + 1])|
  {
    if frames == [] {
      m := 0;
    } else {
      var k := |frames| - 1;
      var front := frames[..k];
      assert Flatten(frames) == Flatten(front) + Records(frames[k]);
      if r < |Flatten(front)| {
        m := FreedFrames(front, r);
        assert Flatten(frames)[..r] == Flatten(front)[..r];
        assert front[..m] == frames[..m] && front[..m + 1] == frames[..m + 1];
      } else {
        FreedLast(frames, r);
        assert frames[..k + 1] == frames;
        m := if r == |Flatten(frames)| then k + 1 else k;
      }
    }
  }

  lemma FreedLast(frames: seq<Chain>, r: nat)
    requires frames != [] && NonEmpty(frames)
    requires |Flatten(frames[..|frames| - 1])| <= r <= |Flatten(frames)|
    ensures Saved(Flatten(frames)[..r]) == if r == |Flatten(frames)| then frames else frames[..|frames| - 1]
  {
    var front, c := frames[..|frames| - 1], frames[|frames| - 1];
    var base, recs, j := Flatten(front), Records(c), r - |Flatten(front)|;
    assert frames == front + [c];
    FlattenSnoc(front, c);
    TakeFront(base, recs, r);
    SavedFrame(base, c, j);
    SavedAll(front);
  }

  lemma TakeFront(base: seq<Rec>, recs: seq<Rec>, r: nat)
    requires |base| <= r <= |base| + |recs|
    ensures (base + recs)[..r] == base + recs[..r - |base|]
  {
  }

  lemma SavedOneMore(front: seq<Chain>, c: Chain)
    requires Saved(Flatten(front)) == front && c.frags != []
    ensures Saved(Flatten(front + [c])) == front + [c]
  {
    FlattenSnoc(front, c);
    SavedFrame(Flatten(front), c, |c.frags|);
    assert Records(c)[..|c.frags|] == Records(c);
  }

  lemma NonEmptyFront(frames: seq<Chain>)
    requires frames != [] && NonEmpty(frames)
    ensures var k := |frames| - 1;
            NonEmpty(frames[..k]) && frames[k].frags != [] && frames == frames[..k] + [frames[k]]
  {
  }

  lemma {:induction false} SavedAll(frames: seq<Chain>)
    requires NonEmpty(frames)
    ensures Saved(Flatten(frames)) == frames
  {
    if frames != [] {
      var k := |frames| - 1;
      NonEmptyFront(frames);
      SavedAll(frames[..k]);
      SavedOneMore(frames[..k], frames[k]);
    }
  }

  // ---------------------------------------------------------------- the ring

  /** The descriptor at position `k` when it carries `r`. */
  function DescOf(n: nat, r: Rec, k: nat, own: bool): Desc
    requires 0 < n
  {
    Desc(r.frag, own, r.fs, r.ls, r.ls, true, Slot(k, n) == n - 1)
  }

  ghost predicate Holds(n: nat, ds: seq<Desc>, ts: seq<Option<Chain>>, k: nat, r: Rec, own: bool)
    requires 0 < n == |ds| == |ts|
  {
    ds[Slot(k, n)] == DescOf(n, r, k, own) && ts[Slot(k, n)] == r.saved
  }

  ghost predicate Clean(n: nat, ds: seq<Desc>, k: nat)
    requires 0 < n == |ds|
  {
    var d := ds[Slot(k, n)];
    !d.own && !d.fs && !d.ls && !d.ic && (d.ter <==> Slot(k, n) == n - 1)
  }

  /** The ring at one moment: descriptors and saved chains; what all slots ever filled carried; how
    * many of them were reclaimed, and how many the DMA engine has taken. It does not own `hole`, the
    * first slot of a frame that is still being filled; the next slot may be half filled while `open`. */
  datatype RingState = RingState(n: nat, ds: seq<Desc>, ts: seq<Option<Chain>>, stream: seq<Rec>,
                                 reclaimed: nat, taken: nat, hole: nat, open: bool)

  /** Positions from `reclaimed` on are in the ring; the DMA engine owns those from `taken` on, except
    * `hole`. The remaining slots are clean, except the next one while `open`. */
  ghost predicate RingInv(s: RingState) {
    && 0 < s.n == |s.ds| == |s.ts|
    && s.reclaimed <= s.taken <= s.hole <= |s.stream| <= s.reclaimed + s.n
    && (forall k {:trigger s.stream[k]} | s.reclaimed <= k < |s.stream| ::
          Holds(s.n, s.ds, s.ts, k, s.stream[k], s.taken <= k && k != s.hole))
    && (forall k {:trigger Clean(s.n, s.ds, k)} | |s.stream| < k < s.reclaimed + s.n :: Clean(s.n, s.ds, k))
    && (|s.stream| < s.reclaimed + s.n ==>
          var d := s.ds[Slot(|s.stream|, s.n)];
          if s.open then (d.ter <==> Slot(|s.stream|, s.n) == s.n - 1) && (s.hole == |s.stream| ==> !d.own)
          else Clean(s.n, s.ds, |s.stream|))
  }

  /** The DMA engine has taken its current slot. */
  function Taken(s: RingState): RingState
    requires 0 < s.n == |s.ds|
  {
    var i := Slot(s.taken, s.n);
    s.(ds := s.ds[i := s.ds[i].(own := false)], taken := s.taken + 1)
  }

  lemma TakeOwned(s: RingState)
    requires RingInv(s) && s.taken < s.hole && s.taken < s.reclaimed + s.n
    ensures RingInv(Taken(s))
  {
    var t, i := Taken(s), Slot(s.taken, s.n);
    assert Holds(s.n, s.ds, s.ts, s.taken, s.stream[s.taken], true);
    SlotsDistinct(s.reclaimed, s.n);
    forall k | s.reclaimed <= k < |s.stream|
      ensures Holds(s.n, t.ds, s.ts, k, s.stream[k], t.taken <= k && k != s.hole)
    {
      assert Holds(s.n, s.ds, s.ts, k, s.stream[k], s.taken <= k && k != s.hole);
      assert k != s.taken ==> Slot(k, s.n) != i;
    }
    assert |s.stream| < s.reclaimed + s.n ==> Slot(|s.stream|, s.n) != i;
    forall k | |s.stream| < k < s.reclaimed + s.n
      ensures Clean(s.n, t.ds, k)
    {
      assert Clean(s.n, s.ds, k) && Slot(k, s.n) != i;
    }
  }

  lemma FullRing(s: RingState)
    requires RingInv(s) && s.taken == s.reclaimed + s.n
    ensures !s.ds[Slot(s.taken, s.n)].own && s.hole == s.taken
  {
    SlotRound(s.reclaimed, s.n);
    assert Holds(s.n, s.ds, s.ts, s.reclaimed, s.stream[s.reclaimed], false);
  }

  lemma FilledSlot(s: RingState)
    requires RingInv(s) && s.taken < |s.stream|
    ensures s.ds[Slot(s.taken, s.n)] == DescOf(s.n, s.stream[s.taken], s.taken, s.taken != s.hole)
  {
    var r := s.stream[s.taken];
    assert Holds(s.n, s.ds, s.ts, s.taken, r, s.taken != s.hole);
  }

  lemma NextSlot(s: RingState)
    requires RingInv(s) && s.taken == |s.stream| < s.reclaimed + s.n
    ensures !s.ds[Slot(s.taken, s.n)].own && s.hole == s.taken
  {
  }

  /** The DMA engine owns its current slot exactly if there is something to take. */
  lemma CurrentSlot(s: RingState)
    requires RingInv(s)
    ensures var d := s.ds[Slot(s.taken, s.n)];
            && (d.own <==> s.taken < s.hole && s.taken < s.reclaimed + s.n)
            && (d.own ==> d == DescOf(s.n, s.stream[s.taken], s.taken, true))
    ensures s.taken == s.reclaimed + s.n ==> s.taken == s.hole
  {
    if s.taken == s.reclaimed + s.n {
      FullRing(s);
    } else if s.taken < |s.stream| {
      FilledSlot(s);
    } else {
      NextSlot(s);
    }
  }

  /** One step of the DMA engine: it takes its current slot if it owns it. */
  lemma TakeKeeps(s: RingState)
    requires RingInv(s)
    ensures var d := s.ds[Slot(s.taken, s.n)];
            if d.own then
              s.taken < s.hole && d == DescOf(s.n, s.stream[s.taken], s.taken, true) && RingInv(Taken(s))
            else s.taken == s.hole
  {
    CurrentSlot(s);
    if s.taken < s.hole {
      TakeOwned(s);
    }
  }

  /** The slot that is filled next has been written to. */
  function Written(s: RingState, d: Desc, t: Option<Chain>): RingState
    requires 0 < s.n == |s.ds| == |s.ts|
  {
    var i := Slot(|s.stream|, s.n);
    s.(ds := s.ds[i := d], ts := s.ts[i := t], open := true)
  }

  /** Writing to that slot, short of handing it to the DMA engine too early. */
  lemma WriteKeeps(s: RingState, d: Desc, t: Option<Chain>)
    requires RingInv(s) && |s.stream| < s.reclaimed + s.n
    requires d.ter == s.ds[Slot(|s.stream|, s.n)].ter && (s.hole == |s.stream| ==> !d.own)
    ensures RingInv(Written(s, d, t))
  {
    var s', i := Written(s, d, t), Slot(|s.stream|, s.n);
    SlotsDistinct(s.reclaimed, s.n);
    forall k | s.reclaimed <= k < |s.stream|
      ensures Holds(s.n, s'.ds, s'.ts, k, s.stream[k], s.taken <= k && k != s.hole)
    {
      assert Holds(s.n, s.ds, s.ts, k, s.stream[k], s.taken <= k && k != s.hole);
      assert Slot(k, s.n) != i;
    }
    forall k | |s.stream| < k < s.reclaimed + s.n
      ensures Clean(s.n, s'.ds, k)
    {
      assert Clean(s.n, s.ds, k) && Slot(k, s.n) != i;
    }
  }

  /** The slot is complete and joins the ring. */
  lemma CloseKeeps(s: RingState, r: Rec)
    requires RingInv(s) && s.open && |s.stream| < s.reclaimed + s.n
    requires Holds(s.n, s.ds, s.ts, |s.stream|, r, |s.stream| != s.hole)
    ensures RingInv(s.(stream := s.stream + [r], open := false))
  {
    var stream := s.stream + [r];
    forall k | s.reclaimed <= k < |stream|
      ensures Holds(s.n, s.ds, s.ts, k, stream[k], s.taken <= k && k != s.hole)
    {
      if k < |s.stream| {
        assert stream[k] == s.stream[k];
        assert Holds(s.n, s.ds, s.ts, k, s.stream[k], s.taken <= k && k != s.hole);
      }
    }
    assert |stream| < s.reclaimed + s.n ==> Clean(s.n, s.ds, |stream|);
  }

  /** OWN of the first slot of the frame has been set. */
  function Released(s: RingState): RingState
    requires 0 < s.n == |s.ds|
  {
    var i := Slot(s.hole, s.n);
    s.(ds := s.ds[i := s.ds[i].(own := true)], hole := |s.stream|)
  }

  /** Setting OWN on the first slot gives the whole frame to the DMA engine. */
  lemma ReleaseKeeps(s: RingState)
    requires RingInv(s) && !s.open && s.hole < |s.stream|
    ensures RingInv(Released(s))
  {
    var t, i := Released(s), Slot(s.hole, s.n);
    SlotsDistinct(s.reclaimed, s.n);
    forall k | s.reclaimed <= k < |s.stream|
      ensures Holds(s.n, t.ds, s.ts, k, s.stream[k], s.taken <= k)
    {
      assert Holds(s.n, s.ds, s.ts, k, s.stream[k], s.taken <= k && k != s.hole);
      assert k != s.hole ==> Slot(k, s.n) != i;
    }
    forall k | |s.stream| <= k < s.reclaimed + s.n
      ensures Clean(s.n, t.ds, k)
    {
      assert Clean(s.n, s.ds, k) && Slot(k, s.n) != i;
    }
  }

  /** The oldest slot has been reset and leaves the ring. */
  function Reclaimed(s: RingState, d: Desc): RingState
    requires 0 < s.n == |s.ds|
  {
    s.(ds := s.ds[Slot(s.reclaimed, s.n) := d], reclaimed := s.reclaimed + 1)
  }

  lemma ReclaimClean(s: RingState, d: Desc)
    requires RingInv(s) && !s.open && s.reclaimed < |s.stream|
    requires !d.own && !d.fs && !d.ls && !d.ic && (d.ter <==> Slot(s.reclaimed, s.n) == s.n - 1)
    ensures var ds := Reclaimed(s, d).ds;
            forall k {:trigger Clean(s.n, ds, k)} | |s.stream| <= k <= s.reclaimed + s.n :: Clean(s.n, ds, k)
  {
    var ds, i := Reclaimed(s, d).ds, Slot(s.reclaimed, s.n);
    SlotsDistinct(s.reclaimed, s.n);
    SlotRound(s.reclaimed, s.n);
    forall k | |s.stream| <= k <= s.reclaimed + s.n
      ensures Clean(s.n, ds, k)
    {
      if k < s.reclaimed + s.n {
        assert Clean(s.n, s.ds, k) && Slot(k, s.n) != i;
      }
    }
  }

  lemma ReclaimHolds(s: RingState, d: Desc, k: nat)
    requires RingInv(s) && s.hole == |s.stream| && s.reclaimed < k < |s.stream|
    ensures Holds(s.n, Reclaimed(s, d).ds, s.ts, k, s.stream[k], s.taken <= k && k != s.hole)
  {
    assert Holds(s.n, s.ds, s.ts, k, s.stream[k], s.taken <= k && k != s.hole);
    SlotDistinct(s.reclaimed, k, s.n);
  }

  /** A slot the DMA engine has taken is reset and leaves the ring. */
  lemma ReclaimKeeps(s: RingState, d: Desc)
    requires RingInv(s) && !s.open && s.hole == |s.stream| && s.reclaimed < s.taken
    requires !d.own && !d.fs && !d.ls && !d.ic && (d.ter <==> Slot(s.reclaimed, s.n) == s.n - 1)
    ensures RingInv(Reclaimed(s, d))
  {
    ReclaimClean(s, d);
    forall k | s.reclaimed + 1 <= k < |s.stream|
      ensures Holds(s.n, Reclaimed(s, d).ds, s.ts, k, s.stream[k], s.taken <= k && k != s.hole)
    {
      ReclaimHolds(s, d, k);
    }
    assert Clean(s.n, Reclaimed(s, d).ds, |s.stream|);
  }

  /** The oldest slot in use is still owned exactly when the DMA engine has taken none. */
  lemma OwnMeaning(s: RingState)
    requires RingInv(s) && s.hole == |s.stream|
    ensures s.reclaimed < |s.stream| ==> (s.ds[Slot(s.reclaimed, s.n)].own <==> s.taken == s.reclaimed)
  {
    assert s.reclaimed < |s.stream| ==>
        Holds(s.n, s.ds, s.ts, s.reclaimed, s.stream[s.reclaimed], s.taken <= s.reclaimed && s.reclaimed != s.hole);
  }

  /** What the DMA engine has taken is the start of what the slots carried. */
  ghost predicate OnWire(n: nat, wire: seq<Desc>, stream: seq<Rec>) {
    0 < n && |wire| <= |stream| && forall k | 0 <= k < |wire| :: wire[k] == DescOf(n, stream[k], k, true)
  }

  lemma WireMore(n: nat, wire: seq<Desc>, stream: seq<Rec>, d: Desc)
    requires OnWire(n, wire, stream) && |wire| < |stream| && d == DescOf(n, stream[|wire|], |wire|, true)
    ensures OnWire(n, wire + [d], stream)
  {
  }

  /** The DMA engine does not touch the slot that is filled next. */
  lemma TakeApart(s: RingState)
    requires RingInv(s) && s.taken < s.hole
    ensures |s.stream| < s.reclaimed + s.n ==> Taken(s).ds[Slot(|s.stream|, s.n)] == s.ds[Slot(|s.stream|, s.n)]
  {
    if |s.stream| < s.reclaimed + s.n {
      SlotDistinct(s.taken, |s.stream|, s.n);
    }
  }

  // ---------------------------------------------------------------- the driver as a machine

  /** The frames accepted so far, and how many of their slots the DMA engine has taken and the driver has
    * reclaimed. */
  datatype View = View(frames: seq<Chain>, taken: nat, reclaimed: nat)

  /** The slots filled so far. */
  function Filled(v: View): nat {
    |Flatten(v.frames)|
  }

  /** The free descriptors of a ring of `n`. */
  function Free(n: nat, v: View): int {
    n - (Filled(v) - v.reclaimed)
  }

  /** The steps that the DMA engine tries while slot `j` of a frame of `dn` is filled. */
  function SlotSteps(dma: seq<seq<nat>>, dn: nat, j: nat): nat {
    var d := At(dma, j, []);
    At(d, 0, 0) + At(d, 1, 0) + At(d, 2, 0) + At(d, 3, 0) + (if j == dn - 1 then At(d, 4, 0) else 0) + At(d, 5, 0)
  }

  /** And while the first `j` slots are. */
  function FrameSteps(dma: seq<seq<nat>>, dn: nat, j: nat): nat {
    if j == 0 then 0 else FrameSteps(dma, dn, j - 1) + SlotSteps(dma, dn, j - 1)
  }

  lemma FrameStep(dma: seq<seq<nat>>, dn: nat, j: nat, taken: nat, hole: nat)
    ensures Min(Min(taken + FrameSteps(dma, dn, j), hole) + SlotSteps(dma, dn, j), hole)
         == Min(taken + FrameSteps(dma, dn, j + 1), hole)
  {
  }

  /** How many slots are out when lpc_tx_reclaim has caught up, with `At(dma, j, 0)` steps after its j-th slot. */
  function Drained(reclaimed: nat, taken: nat, filled: nat, dma: seq<nat>, j: nat): nat
    decreases filled - reclaimed
  {
    if reclaimed >= taken || reclaimed >= filled then taken
    else Drained(reclaimed + 1, Min(taken + At(dma, j, 0), filled), filled, dma, j + 1)
  }

  lemma DrainStep(reclaimed: nat, taken: nat, filled: nat, dma: seq<nat>, j: nat)
    requires reclaimed < taken <= filled
    ensures Drained(reclaimed, taken, filled, dma, j)
         == Drained(reclaimed + 1, Min(taken + At(dma, j, 0), filled), filled, dma, j + 1)
  {
  }

  function Tidied(v: View, dma: seq<nat>): View {
    var t := Drained(v.reclaimed, v.taken, Filled(v), dma, 0);
    v.(taken := t, reclaimed := t)
  }

  /** Waiting for `dn` free descriptors, from round `k` on. */
  function Waited(n: nat, v: View, dn: nat, waiting: seq<seq<nat>>, k: nat): View
    decreases |waiting| - k
  {
    if dn <= Free(n, v) || k >= |waiting| then v else Waited(n, Tidied(v, waiting[k]), dn, waiting, k + 1)
  }

  /** How many slots are out when the first slot of a new frame is given to the DMA engine: it cannot pass
    * the frames before. */
  function AtRelease(v: View, sendp: Chain, dma: seq<seq<nat>>): nat {
    Min(v.taken + FrameSteps(dma, |sendp.frags|, |sendp.frags|), Filled(v))
  }

  function Queued(v: View, sendp: Chain, dma: seq<seq<nat>>): View {
    var after := At(At(dma, |sendp.frags|, []), 0, 0);
    View(v.frames + [sendp], Min(AtRelease(v, sendp, dma) + after, Filled(v) + |sendp.frags|), v.reclaimed)
  }

  /** What happens to the transmit side: the DMA engine works, a frame is sent, or slots are reclaimed. */
  datatype Event =
    | Work(steps: nat)
    | Transmit(sendp: Chain, waiting: seq<seq<nat>>, dma: seq<seq<nat>>)
    | Tidy(taking: seq<nat>)

  function Next(n: nat, v: View, e: Event): View {
    match e
    case Work(steps) => v.(taken := Min(v.taken + steps, Filled(v)))
    case Transmit(sendp, waiting, dma) =>
      var w := Waited(n, v, |sendp.frags|, waiting, 0);
      if |sendp.frags| <= Free(n, w) then Queued(w, sendp, dma) else w
    case Tidy(taking) => Tidied(v, taking)
  }

  function After(n: nat, events: seq<Event>, k: nat): View
    requires k <= |events|
  {
    if k == 0 then View([], 0, 0) else Next(n, After(n, events, k - 1), events[k - 1])
  }

  // ---------------------------------------------------------------- the driver

  class Driver {
    const n: nat
    const ptdesc: array<Desc>
    const txpbufs: array<Option<Chain>>
    var txFreeDescs: nat
    var txFillIdx: nat
    var txReclaimIdx: nat

    /** The DMA engine: its current descriptor, and the descriptors it has taken. */
    var dmaIdx: nat
    var wire: seq<Desc>

    /** The calls of pbuf_ref and pbuf_free. */
    var refd: seq<Chain>
    var freed: seq<Chain>

    /** The frames accepted, what all slots filled so far carried, and how many were reclaimed. */
    ghost var frames: seq<Chain>
    ghost var stream: seq<Rec>
    ghost var reclaimed: nat

    ghost function Ring(hole: nat, open: bool): RingState
      reads `stream, `reclaimed, `wire, ptdesc, txpbufs
    {
      RingState(n, ptdesc[..], txpbufs[..], stream, reclaimed, |wire|, hole, open)
    }

    ghost function Look(): View
      reads `frames, `wire, `reclaimed
    {
      View(frames, |wire|, reclaimed)
    }

    /** The state between any two writes of the driver. */
    ghost predicate Running(hole: nat, open: bool)
      reads `stream, `reclaimed, `wire, `dmaIdx, ptdesc, txpbufs
    {
      && RingInv(Ring(hole, open))
      && ptdesc.Length == txpbufs.Length == n
      && dmaIdx == Slot(|wire|, n)
      && OnWire(n, wire, stream)
    }

    /** The state between calls of the driver. */
    ghost predicate Valid()
      reads this, ptdesc, txpbufs
    {
      && Running(|stream|, false)
      && stream == Flatten(frames)
      && NonEmpty(frames)
      && txFreeDescs == n - (|stream| - reclaimed)
      && txFillIdx == Slot(|stream|, n)
      && txReclaimIdx == Slot(reclaimed, n)
      && refd == frames
      && freed == Saved(stream[..reclaimed])
    }

    /** lpc_tx_setup, with the DMA engine at the start of the list. */
    constructor (n: nat)
      requires 2 <= n
      ensures Valid() && fresh(ptdesc) && fresh(txpbufs) && this.n == n
      ensures frames == [] && wire == [] && txFreeDescs == n
    {
      this.n := n;
      ptdesc := new Desc[n](i => Desc(Frag(0, 0), false, false, false, false, true, i == n - 1));
      txpbufs := new Option<Chain>[n](_ => None);
      txFreeDescs, txFillIdx, txReclaimIdx, dmaIdx := n, 0, 0, 0;
      wire, refd, freed := [], [], [];
      frames, stream, reclaimed := [], [], 0;
      new;
      assert stream[..0] == [];
    }

    /** The DMA engine takes its current slot, which it owns: it clears OWN and goes on to the
      * next slot, at the end-of-ring mark to the first. */
    method TakeSlot(ghost hole: nat, ghost open: bool)
      requires Running(hole, open) && ptdesc[dmaIdx].own
      modifies this`dmaIdx, this`wire, ptdesc
      ensures Running(hole, open) && |wire| <= hole
      ensures wire == old(wire) + [old(ptdesc[dmaIdx])]
      ensures |stream| < reclaimed + n ==> ptdesc[Slot(|stream|, n)] == old(ptdesc[Slot(|stream|, n)])
    {
      ghost var was := Ring(hole, open);
      TakeKeeps(was);
      SlotStep(|wire|, n);
      TakeApart(was);
      var d := ptdesc[dmaIdx];
      WireMore(n, wire, stream, d);
      ptdesc[dmaIdx] := d.(own := false);
      wire := wire + [d];
      dmaIdx := if d.ter then 0 else dmaIdx + 1;
      assert Ring(hole, open) == Taken(was);
    }

    /** The DMA engine runs for up to `steps` slots, as long as it owns the next one. It never
      * gets past `hole` and never touches the slot that is being filled. */
    method RunDma(steps: nat, ghost hole: nat, ghost open: bool)
      requires Running(hole, open)
      modifies this`dmaIdx, this`wire, ptdesc
      ensures Running(hole, open)
      ensures old(wire) <= wire && |wire| == Min(|old(wire)| + steps, hole)
      ensures |stream| < reclaimed + n ==> ptdesc[Slot(|stream|, n)] == old(ptdesc[Slot(|stream|, n)])
    {
      var left := steps;
      while left > 0 && ptdesc[dmaIdx].own
        invariant 0 <= left <= steps && Running(hole, open) && old(wire) <= wire && |wire| == |old(wire)| + steps - left
        invariant |stream| < reclaimed + n ==> ptdesc[Slot(|stream|, n)] == old(ptdesc[Slot(|stream|, n)])
      {
        TakeSlot(hole, open);
        left := left - 1;
      }
      CurrentSlot(Ring(hole, open));
    }

    /** One write to the descriptor that is filled next, after which the DMA engine may run. */
    method SetDesc(idx: nat, d: Desc, steps: nat, ghost hole: nat, ghost open: bool)
      requires Running(hole, open) && |stream| < reclaimed + n && idx == Slot(|stream|, n)
      requires d.ter == ptdesc[idx].ter && (hole == |stream| ==> !d.own)
      modifies this`dmaIdx, this`wire, ptdesc
      ensures Running(hole, true) && ptdesc[idx] == d
      ensures old(wire) <= wire && |wire| == Min(|old(wire)| + steps, hole)
    {
      ghost var was := Ring(hole, open);
      WriteKeeps(was, d, txpbufs[idx]);
      ptdesc[idx] := d;
      assert Ring(hole, true) == Written(was, d, txpbufs[idx]);
      RunDma(steps, hole, true);
    }

    /** The write to the saved chains. */
    method SetSaved(idx: nat, t: Option<Chain>, steps: nat, ghost hole: nat)
      requires Running(hole, true) && |stream| < reclaimed + n && idx == Slot(|stream|, n)
      modifies this`dmaIdx, this`wire, ptdesc, txpbufs
      ensures Running(hole, true) && ptdesc[idx] == old(ptdesc[idx]) && txpbufs[idx] == t
      ensures old(wire) <= wire && |wire| == Min(|old(wire)| + steps, hole)
    {
      ghost var was := Ring(hole, true);
      WriteKeeps(was, ptdesc[idx], t);
      txpbufs[idx] := t;
      assert Ring(hole, true) == Written(was, ptdesc[idx], t);
      RunDma(steps, hole, true);
    }

    /** The slot that was being filled is complete. */
    ghost method CloseSlot(r: Rec, hole: nat)
      requires Running(hole, true) && |stream| < reclaimed + n
      requires var i := Slot(|stream|, n);
               ptdesc[i] == DescOf(n, r, |stream|, |stream| != hole) && txpbufs[i] == r.saved
      modifies this`stream
      ensures Running(hole, false) && stream == old(stream) + [r]
    {
      CloseKeeps(Ring(hole, true), r);
      stream := stream + [r];
    }

    /** The body of the fill loop of lpc_low_level_output, write by write: the buffer ... */
    method SetBuffer(p: Frag, idx: nat, dma: seq<nat>, ghost hole: nat)
      requires Running(hole, false) && |stream| < reclaimed + n && idx == Slot(|stream|, n)
      modifies this`dmaIdx, this`wire, ptdesc
      ensures Running(hole, true) && old(wire) <= wire
      ensures |wire| == Min(|old(wire)| + At(dma, 0, 0) + At(dma, 1, 0), hole)
      ensures ptdesc[idx] == Desc(p, false, false, false, false, ptdesc[idx].cic, idx == n - 1)
    {
      assert Clean(n, ptdesc[..], |stream|);
      SetDesc(idx, ptdesc[idx].(frag := Frag(p.payload, ptdesc[idx].frag.len)), At(dma, 0, 0), hole, false);
      SetDesc(idx, ptdesc[idx].(frag := p), At(dma, 1, 0), hole, true);
    }

    /** ... FS or OWN ... */
    method BeginSlot(p: Frag, sendp: Chain, idx: nat, fidx: nat, dma: seq<nat>, ghost hole: nat)
      requires Running(hole, false) && |stream| < reclaimed + n
      requires idx == Slot(|stream|, n) && 0 < txFreeDescs
      requires idx == fidx <==> hole == |stream|
      modifies this`txFreeDescs, this`refd, this`dmaIdx, this`wire, ptdesc
      ensures Running(hole, true)
      ensures ptdesc[idx] == Desc(p, idx != fidx, idx == fidx, false, false, ptdesc[idx].cic, idx == n - 1)
      ensures refd == if idx == fidx then old(refd) + [sendp] else old(refd)
      ensures txFreeDescs == old(txFreeDescs) - 1
      ensures old(wire) <= wire && |wire| == Min(|old(wire)| + At(dma, 0, 0) + At(dma, 1, 0) + At(dma, 2, 0), hole)
    {
      SetBuffer(p, idx, dma, hole);
      txFreeDescs := txFreeDescs - 1;
      if idx == fidx {
        SetDesc(idx, ptdesc[idx].(fs := true), At(dma, 2, 0), hole, true);
        refd := refd + [sendp];
      } else {
        SetDesc(idx, ptdesc[idx].(own := true), At(dma, 2, 0), hole, true);
      }
    }

    /** ... and from saving the chain to the end. */
    method EndSlot(p: Frag, sendp: Chain, idx: nat, fidx: nat, last: bool, dma: seq<nat>, ghost hole: nat)
      requires Running(hole, true) && |stream| < reclaimed + n && idx == Slot(|stream|, n)
      requires idx == fidx <==> hole == |stream|
      requires ptdesc[idx] == Desc(p, idx != fidx, idx == fidx, false, false, ptdesc[idx].cic, idx == n - 1)
      modifies this`stream, this`dmaIdx, this`wire, ptdesc, txpbufs
      ensures Running(hole, false)
      ensures stream == old(stream) + [Rec(p, idx == fidx, last, if last then Some(sendp) else None)]
      ensures old(wire) <= wire
      ensures |wire| == Min(|old(wire)| + At(dma, 3, 0) + (if last then At(dma, 4, 0) else 0) + At(dma, 5, 0), hole)
    {
      var t := if last then Some(sendp) else None;
      SetSaved(idx, t, At(dma, 3, 0), hole);
      if last {
        SetDesc(idx, ptdesc[idx].(ls := true, ic := true), At(dma, 4, 0), hole, true);
      }
      SetDesc(idx, ptdesc[idx].(cic := true), At(dma, 5, 0), hole, true);
      CloseSlot(Rec(p, idx == fidx, last, t), hole);
    }

    method FillSlot(sendp: Chain, j: nat, last: bool, idx: nat, fidx: nat, dma: seq<nat>, ghost hole: nat)
      requires Running(hole, false) && |stream| < reclaimed + n && j < |sendp.frags| && 0 < txFreeDescs
      requires idx == Slot(|stream|, n) && (idx == fidx <==> hole == |stream|) && (idx == fidx <==> j == 0)
      requires last <==> j == |sendp.frags| - 1
      modifies this`txFreeDescs, this`refd, this`stream, this`dmaIdx, this`wire, ptdesc, txpbufs
      ensures Running(hole, false) && stream == old(stream) + [Records(sendp)[j]]
      ensures refd == if j == 0 then old(refd) + [sendp] else old(refd)
      ensures txFreeDescs == old(txFreeDescs) - 1
      ensures old(wire) <= wire
      ensures var first := At(dma, 0, 0) + At(dma, 1, 0) + At(dma, 2, 0);
              |wire| == Min(|old(wire)| + first + At(dma, 3, 0) + (if last then At(dma, 4, 0) else 0) + At(dma, 5, 0),
                            hole)
    {
      BeginSlot(sendp.frags[j], sendp, idx, fidx, dma, hole);
      EndSlot(sendp.frags[j], sendp, idx, fidx, last, dma, hole);
    }

    /** One round of the fill loop: a slot, and the step of the index. */
    method FillNext(sendp: Chain, j: nat, idx: nat, fidx: nat, dma: seq<seq<nat>>, ghost hole: nat)
        returns (next: nat)
      requires Running(hole, false) && |stream| < reclaimed + n && j < |sendp.frags| && 0 < txFreeDescs
      requires idx == Slot(|stream|, n) && fidx == Slot(hole, n) && reclaimed <= hole && |stream| == hole + j
      modifies this`txFreeDescs, this`refd, this`stream, this`dmaIdx, this`wire, ptdesc, txpbufs
      ensures Running(hole, false) && stream == old(stream) + [Records(sendp)[j]] && next == Slot(|stream|, n)
      ensures refd == if j == 0 then old(refd) + [sendp] else old(refd)
      ensures txFreeDescs == old(txFreeDescs) - 1
      ensures old(wire) <= wire && |wire| == Min(|old(wire)| + SlotSteps(dma, |sendp.frags|, j), hole)
    {
      if j > 0 {
        SlotDistinct(hole, |stream|, n);
      }
      SlotStep(|stream|, n);
      FillSlot(sendp, j, j == |sendp.frags| - 1, idx, fidx, At(dma, j, []), hole);
      next := if idx + 1 >= n then 0 else idx + 1;
    }

    /** The first `j` slots of a frame are filled, behind `hole` slots of earlier frames, and the DMA engine
      * has gone on from `taken`. */
    ghost predicate Partly(recs: seq<Rec>, was: seq<Rec>, taken: nat, dma: seq<seq<nat>>, j: nat)
      reads `stream, `reclaimed, `wire, `dmaIdx, ptdesc, txpbufs
    {
      && j <= |recs| && Running(|was|, false) && stream == was + recs[..j]
      && |wire| == Min(taken + FrameSteps(dma, |recs|, j), |was|)
    }

    method FillRound(sendp: Chain, j: nat, idx: nat, fidx: nat, dma: seq<seq<nat>>,
                     ghost was: seq<Rec>, ghost taken: nat) returns (next: nat)
      requires Partly(Records(sendp), was, taken, dma, j) && j < |sendp.frags|
      requires |stream| < reclaimed + n && 0 < txFreeDescs
      requires idx == Slot(|stream|, n) && fidx == Slot(|was|, n) && reclaimed <= |was|
      modifies this`txFreeDescs, this`refd, this`stream, this`dmaIdx, this`wire, ptdesc, txpbufs
      ensures Partly(Records(sendp), was, taken, dma, j + 1) && next == Slot(|stream|, n) && old(wire) <= wire
      ensures refd == if j == 0 then old(refd) + [sendp] else old(refd)
      ensures txFreeDescs == old(txFreeDescs) - 1
    {
      ghost var recs := Records(sendp);
      assert was + recs[..j] + [recs[j]] == was + recs[..j + 1];
      FrameStep(dma, |recs|, j, taken, |was|);
      next := FillNext(sendp, j, idx, fidx, dma, |was|);
    }

    /** The fill loop of lpc_low_level_output: all slots of the frame but without OWN on the first. */
    method FillFrame(sendp: Chain, dma: seq<seq<nat>>) returns (idx: nat)
      requires Running(|stream|, false) && sendp.frags != []
      requires |sendp.frags| <= txFreeDescs <= n && txFreeDescs == n - (|stream| - reclaimed)
      requires txFillIdx == Slot(|stream|, n)
      modifies this`txFreeDescs, this`refd, this`stream, this`dmaIdx, this`wire, ptdesc, txpbufs
      ensures Running(old(|stream|), false)
      ensures stream == old(stream) + Records(sendp)
      ensures txFreeDescs == old(txFreeDescs) - |sendp.frags|
      ensures idx == Slot(|stream|, n) && refd == old(refd) + [sendp]
      ensures old(wire) <= wire
      ensures |wire| == Min(|old(wire)| + FrameSteps(dma, |sendp.frags|, |sendp.frags|), |old(stream)|)
    {
      var dn, j := |sendp.frags|, 0;
      var fidx := txFillIdx;
      idx := fidx;
      ghost var was, taken, recs := stream, |wire|, Records(sendp);
      while dn > 0
        invariant 0 <= j && 0 <= dn && j + dn == |recs| && Partly(recs, was, taken, dma, j)
        invariant txFreeDescs == old(txFreeDescs) - j
        invariant idx == Slot(|stream|, n)
        invariant refd == if j == 0 then old(refd) else old(refd) + [sendp]
        invariant old(wire) <= wire
      {
        idx := FillRound(sendp, j, idx, fidx, dma, was, taken);
        dn, j := dn - 1, j + 1;
      }
      assert recs[..j] == recs;
    }

    /** lpc_low_level_output, with the DMA engine running after every write. While there are too few
      * free descriptors it waits for the task that reclaims them, each time through one entry of
      * `waiting`; `sent` is false if it is still waiting when those are used up. Up to the last write,
      * the one that gives the first slot to the DMA engine, this has only taken `atRelease` slots, all
      * of earlier frames. */
    method Output(sendp: Chain, waiting: seq<seq<nat>>, dma: seq<seq<nat>>)
        returns (sent: bool, ghost atRelease: nat)
      requires Valid() && sendp.frags != []
      modifies this, ptdesc, txpbufs
      ensures Valid()
      ensures frames == if sent then old(frames) + [sendp] else old(frames)
      ensures old(wire) <= wire && old(freed) <= freed
      ensures !sent ==> |sendp.frags| > txFreeDescs && (waiting != [] ==> reclaimed == |wire|)
      ensures |sendp.frags| <= old(txFreeDescs) ==> sent && reclaimed == old(reclaimed) && freed == old(freed)
      ensures sent ==> old(|wire|) <= atRelease <= |wire| && atRelease <= old(|stream|)
      ensures Look() == Next(n, old(Look()), Transmit(sendp, waiting, dma))
    {
      sent := AwaitDescs(|sendp.frags|, waiting);
      atRelease := |wire|;
      if sent {
        atRelease := AcceptFrame(sendp, dma);
      }
    }

    /** lpc_low_level_output, once there are enough descriptors. */
    method Accept(sendp: Chain, dma: seq<seq<nat>>) returns (ghost atRelease: nat)
      requires Valid() && sendp.frags != [] && |sendp.frags| <= txFreeDescs
      modifies this`txFreeDescs, this`txFillIdx, this`refd, this`stream, this`frames, this`dmaIdx, this`wire,
               ptdesc, txpbufs
      ensures Valid() && frames == old(frames) + [sendp]
      ensures old(wire) <= wire && old(|wire|) <= atRelease <= |wire| && atRelease <= old(|stream|)
      ensures reclaimed == old(reclaimed) && |wire| == Min(atRelease + At(At(dma, |sendp.frags|, []), 0, 0), |stream|)
      ensures atRelease == Min(|old(wire)| + FrameSteps(dma, |sendp.frags|, |sendp.frags|), |old(stream)|)
    {
      ghost var was := stream;
      FlattenSnoc(frames, sendp);
      atRelease := Send(sendp, dma);
      frames := frames + [sendp];
      assert stream[..reclaimed] == was[..reclaimed];
    }

    /** And what that is for the machine. */
    method AcceptFrame(sendp: Chain, dma: seq<seq<nat>>) returns (ghost atRelease: nat)
      requires Valid() && sendp.frags != [] && |sendp.frags| <= txFreeDescs
      modifies this`txFreeDescs, this`txFillIdx, this`refd, this`stream, this`frames, this`dmaIdx, this`wire,
               ptdesc, txpbufs
      ensures Valid() && frames == old(frames) + [sendp]
      ensures old(wire) <= wire && old(|wire|) <= atRelease <= |wire| && atRelease <= old(|stream|)
      ensures Look() == Queued(old(Look()), sendp, dma) && atRelease == AtRelease(old(Look()), sendp, dma)
    {
      FlattenSnoc(frames, sendp);
      atRelease := Accept(sendp, dma);
    }

    /** One round of the wait loop. */
    method AwaitRound(dn: nat, waiting: seq<seq<nat>>, k: nat)
      requires Valid() && txFreeDescs < dn && k < |waiting|
      modifies this, ptdesc
      ensures Valid() && frames == old(frames) && stream == old(stream) && old(wire) <= wire && old(freed) <= freed
      ensures reclaimed == |wire|
      ensures Waited(n, Look(), dn, waiting, k + 1) == Waited(n, old(Look()), dn, waiting, k)
    {
      Reclaim(waiting[k]);
    }

    /** The wait loop of lpc_low_level_output. */
    method AwaitDescs(dn: nat, waiting: seq<seq<nat>>) returns (ready: bool)
      requires Valid()
      modifies this, ptdesc
      ensures Valid() && frames == old(frames) && stream == old(stream) && old(wire) <= wire && old(freed) <= freed
      ensures ready <==> dn <= txFreeDescs
      ensures !ready && waiting != [] ==> reclaimed == |wire|
      ensures Look() == Waited(n, old(Look()), dn, waiting, 0)
    {
      var k := 0;
      while dn > txFreeDescs && k < |waiting|
        invariant 0 <= k && Waited(n, Look(), dn, waiting, k) == Waited(n, old(Look()), dn, waiting, 0)
        invariant Valid() && frames == old(frames) && stream == old(stream)
        invariant old(wire) <= wire && old(freed) <= freed
        invariant k > 0 ==> reclaimed == |wire|
      {
        AwaitRound(dn, waiting, k);
        k := k + 1;
      }
      ready := dn <= txFreeDescs;
    }

    /** Between calls of the driver, the DMA engine takes slots. */
    method Idle(steps: nat)
      requires Valid()
      modifies this`dmaIdx, this`wire, ptdesc
      ensures Valid() && old(wire) <= wire && Look() == Next(n, old(Look()), Work(steps))
    {
      RunDma(steps, |stream|, false);
    }

    method Send(sendp: Chain, dma: seq<seq<nat>>) returns (ghost atRelease: nat)
      requires Running(|stream|, false) && sendp.frags != []
      requires |sendp.frags| <= txFreeDescs <= n && txFreeDescs == n - (|stream| - reclaimed)
      requires txFillIdx == Slot(|stream|, n)
      modifies this`txFreeDescs, this`txFillIdx, this`refd, this`stream, this`dmaIdx, this`wire, ptdesc, txpbufs
      ensures Running(|stream|, false)
      ensures stream == old(stream) + Records(sendp)
      ensures txFreeDescs == old(txFreeDescs) - |sendp.frags|
      ensures txFillIdx == Slot(|stream|, n) && refd == old(refd) + [sendp]
      ensures old(wire) <= wire && old(|wire|) <= atRelease <= |wire| && atRelease <= old(|stream|)
      ensures atRelease == Min(|old(wire)| + FrameSteps(dma, |sendp.frags|, |sendp.frags|), |old(stream)|)
      ensures |wire| == Min(atRelease + At(At(dma, |sendp.frags|, []), 0, 0), |stream|)
    {
      var fidx := txFillIdx;
      ghost var hole := |stream|;
      var idx := FillFrame(sendp, dma);
      txFillIdx := idx;
      atRelease := |wire|;
      GiveFrame(fidx, hole);
      RunDma(At(At(dma, |sendp.frags|, []), 0, 0), |stream|, false);
    }

    /** The last write of lpc_low_level_output. */
    method GiveFrame(fidx: nat, ghost hole: nat)
      requires Running(hole, false) && hole < |stream| && fidx == Slot(hole, n)
      modifies ptdesc
      ensures Running(|stream|, false)
    {
      ghost var was := Ring(hole, false);
      ReleaseKeeps(was);
      ptdesc[fidx] := ptdesc[fidx].(own := true);
      assert Ring(|stream|, false) == Released(was);
    }

    /** The body of the loop of lpc_tx_reclaim. */
    method ReclaimSlot(ridx: nat)
      requires Running(|stream|, false) && ridx == Slot(reclaimed, n)
      requires reclaimed < |stream| && !ptdesc[ridx].own && freed == Saved(stream[..reclaimed])
      modifies this`txFreeDescs, this`freed, this`reclaimed, ptdesc
      ensures Running(|stream|, false) && reclaimed == old(reclaimed) + 1
      ensures txFreeDescs == old(txFreeDescs) + 1
      ensures old(freed) <= freed == Saved(stream[..reclaimed])
    {
      SavedNext(stream, reclaimed);
      assert Holds(n, ptdesc[..], txpbufs[..], reclaimed, stream[reclaimed], |wire| <= reclaimed);
      var d := if ridx == n - 1 then Desc(ptdesc[ridx].frag, false, false, false, false, false, true)
               else Desc(ptdesc[ridx].frag, false, false, false, false, false, false);
      ghost var was := Ring(|stream|, false);
      ReclaimKeeps(was, d);
      ptdesc[ridx] := d;
      if txpbufs[ridx].Some? {
        freed := freed + [txpbufs[ridx].value];
      }
      txFreeDescs := txFreeDescs + 1;
      reclaimed := reclaimed + 1;
      assert Ring(|stream|, false) == Reclaimed(was, d);
    }

    /** lpc_tx_reclaim, with the DMA engine running after every slot: all slots it has released
      * are free again, and the chains that end in them are freed. */
    method Reclaim(dma: seq<nat>)
      requires Valid()
      modifies this, ptdesc
      ensures Valid() && frames == old(frames)
      ensures old(wire) <= wire && reclaimed == |wire| && old(reclaimed) <= reclaimed
      ensures old(freed) <= freed && stream == old(stream)
      ensures Look() == Tidied(old(Look()), dma)
    {
      txReclaimIdx := ReclaimSlots(dma);
    }

    /** One round of that loop: a slot, the step of the index, and the DMA engine. */
    method ReclaimNext(ridx: nat, steps: nat) returns (next: nat)
      requires Running(|stream|, false) && ridx == Slot(reclaimed, n)
      requires reclaimed < |stream| && !ptdesc[ridx].own && freed == Saved(stream[..reclaimed])
      modifies this`txFreeDescs, this`freed, this`reclaimed, this`dmaIdx, this`wire, ptdesc
      ensures Running(|stream|, false) && reclaimed == old(reclaimed) + 1 && next == Slot(reclaimed, n)
      ensures txFreeDescs == old(txFreeDescs) + 1 && old(wire) <= wire
      ensures |wire| == Min(|old(wire)| + steps, |stream|)
      ensures old(freed) <= freed == Saved(stream[..reclaimed])
    {
      SlotStep(reclaimed, n);
      ReclaimSlot(ridx);
      next := if ridx + 1 >= n then 0 else ridx + 1;
      RunDma(steps, |stream|, false);
    }

    /** Which leaves as much to reclaim as before. */
    method ReclaimRound(ridx: nat, dma: seq<nat>, j: nat) returns (next: nat)
      requires Running(|stream|, false) && ridx == Slot(reclaimed, n)
      requires reclaimed < |stream| && !ptdesc[ridx].own && freed == Saved(stream[..reclaimed])
      modifies this`txFreeDescs, this`freed, this`reclaimed, this`dmaIdx, this`wire, ptdesc
      ensures Running(|stream|, false) && reclaimed == old(reclaimed) + 1 && next == Slot(reclaimed, n)
      ensures txFreeDescs == old(txFreeDescs) + 1 && old(wire) <= wire
      ensures Drained(reclaimed, |wire|, |stream|, dma, j + 1) == Drained(old(reclaimed), |old(wire)|, |stream|, dma, j)
      ensures old(freed) <= freed == Saved(stream[..reclaimed])
    {
      OwnMeaning(Ring(|stream|, false));
      DrainStep(reclaimed, |wire|, |stream|, dma, j);
      next := ReclaimNext(ridx, At(dma, j, 0));
    }

    method ReclaimSlots(dma: seq<nat>) returns (ridx: nat)
      requires Running(|stream|, false) && txFreeDescs == n - (|stream| - reclaimed)
      requires txReclaimIdx == Slot(reclaimed, n) && freed == Saved(stream[..reclaimed])
      modifies this`txFreeDescs, this`freed, this`reclaimed, this`dmaIdx, this`wire, ptdesc
      ensures Running(|stream|, false) && txFreeDescs == n - (|stream| - reclaimed)
      ensures ridx == Slot(reclaimed, n) && freed == Saved(stream[..reclaimed])
      ensures old(wire) <= wire && reclaimed == |wire| && old(reclaimed) <= reclaimed
      ensures old(freed) <= freed && |wire| == Drained(old(reclaimed), |old(wire)|, |stream|, dma, 0)
    {
      ridx := txReclaimIdx;
      var j := 0;
      while txFreeDescs < n && !ptdesc[ridx].own
        invariant Running(|stream|, false) && txFreeDescs == n - (|stream| - reclaimed)
        invariant ridx == Slot(reclaimed, n) && old(reclaimed) <= reclaimed
        invariant freed == Saved(stream[..reclaimed])
        invariant old(wire) <= wire && old(freed) <= freed
        invariant Drained(reclaimed, |wire|, |stream|, dma, j)
               == Drained(old(reclaimed), |old(wire)|, |stream|, dma, 0)
        decreases n - txFreeDescs
      {
        ridx := ReclaimRound(ridx, dma, j);
        j := j + 1;
      }
      OwnMeaning(Ring(|stream|, false));
    }

    /** What the invariant means for the pbufs: of the chains sent, each referenced once, a prefix
      * has been freed, each once, and only chains whose last slot the DMA engine has released. */
    lemma Freed() returns (m: nat)
      requires Valid()
      ensures refd == frames && m <= |frames| && freed == frames[..m]
      ensures |Flatten(frames[..m])| <= |wire|
      ensures m < |frames| ==> reclaimed < |Flatten(frames[..m + 1])|
    {
      m := FreedFrames(frames, reclaimed);
    }

    /** And for the wire: the DMA engine has taken the frames' slots in send order, with FS and LS exactly
      * on the first and the last slot of each, an interrupt when the last is done, and checksums inserted. */
    lemma Sent(m: nat, j: nat)
      requires Valid() && m < |frames| && j < |frames[m].frags|
      ensures var k := |Flatten(frames[..m])| + j;
              k < |wire| ==>
                && wire[k].own && wire[k].frag == frames[m].frags[j]
                && (wire[k].fs <==> j == 0) && (wire[k].ls <==> j == |frames[m].frags| - 1)
                && (wire[k].ic <==> j == |frames[m].frags| - 1) && wire[k].cic
    {
      assert frames[..m + 1] == frames[..m] + [frames[m]];
      FlattenSnoc(frames[..m], frames[m]);
      FlattenPrefix(frames, m + 1);
    }
  }

  method Handle(d: Driver, e: Event)
    requires d.Valid() && (e.Transmit? ==> e.sendp.frags != [])
    modifies d, d.ptdesc, d.txpbufs
    ensures d.Valid() && d.Look() == Next(d.n, old(d.Look()), e)
  {
    match e
    case Work(steps) => d.Idle(steps);
    case Transmit(sendp, waiting, dma) => var sent, atRelease := d.Output(sendp, waiting, dma);
    case Tidy(taking) => d.Reclaim(taking);
  }

  /** Any run from lpc_tx_setup on: the driver is as the events make it. Every chain sent is referenced
    * once; a prefix of them, in order, is freed, each once; and what the DMA engine has taken are the
    * slots of the frames in send order. */
  method Run(n: nat, events: seq<Event>) returns (d: Driver, ghost m: nat)
    requires 2 <= n
    requires forall k | 0 <= k < |events| && events[k].Transmit? :: events[k].sendp.frags != []
    ensures d.Valid() && d.n == n && d.Look() == After(n, events, |events|)
    ensures m <= |d.frames| && |Flatten(d.frames[..m])| <= |d.wire|
    ensures d.refd == d.frames && d.freed == d.frames[..m]
    ensures |d.wire| <= |Flatten(d.frames)|
    ensures forall k | 0 <= k < |d.wire| :: d.wire[k] == DescOf(n, Flatten(d.frames)[k], k, true)
  {
    d := new Driver(n);
    for k := 0 to |events|
      invariant fresh(d) && fresh(d.ptdesc) && fresh(d.txpbufs) && d.Valid() && d.n == n
      invariant d.Look() == After(n, events, k)
    {
      Handle(d, events[k]);
    }
    m := d.Freed();
  }
}
