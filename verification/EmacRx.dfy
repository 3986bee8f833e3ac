/** The receive side of lwip/src/arch/lpc18xx_43xx_emac.c: pbufs are queued in a ring of
  * descriptors, the DMA engine fills them in ring order, and the driver hands them up or
  * queues them again. */
module EmacRx {
  import opened Basics
  import opened Ring

  /** What the DMA engine reports in a descriptor: RDES_ES, any bit of `intMask`, the error bits
    * with their qualifiers, and the frame length. */
  datatype Status = Status(es: bool, masked: bool, le: bool, ft: bool, ce: bool, ls: bool, de: bool, len: nat)

  /** A receive descriptor: RDES_OWN and the rest of the status word, the buffer, RER. */
  datatype Desc = Desc(own: bool, status: Status, buf: nat, rer: bool)

  /** A pbuf with the length of the frame received into it. */
  datatype Frame = Frame(pbuf: nat, len: nat)

  const NO_STATUS := Status(false, false, false, false, false, false, false, 0)

  const ETHTYPE_IP := 0x0800
  const ETHTYPE_ARP := 0x0806
  const ETHTYPES_PPPOE := {0x8863, 0x8864}

  /** The types of frames that lpc_enetif_input passes on. */
  predicate Known(ethType: nat, pppoe: bool) {
    ethType == ETHTYPE_IP || ethType == ETHTYPE_ARP || (pppoe && ethType in ETHTYPES_PPPOE)
  }

  /** The error tests of lpc_low_level_input; `fullDuplex` is MAC_CFG_DM. */
  function RxError(s: Status, fullDuplex: bool): bool {
    s.es && (
      || s.masked
      || (s.le && !s.ft)
      || (s.ce && s.ls)
      || (s.de && (s.ls || !fullDuplex)))
  }

  /** The error tests of lpc_low_level_input. A frame without RDES_ES is good. One with it is dropped for an
    * error in `intMask`; a length error, unless the frame type bit qualifies it; a checksum error in the last
    * descriptor; or a descriptor or dribble bit error in the last descriptor, or in half duplex mode. */
  method CheckStatus(s: Status, fullDuplex: bool) returns (rxerr: bool)
    ensures !s.es ==> !rxerr
    ensures s.es ==> (rxerr <==> s.masked || (s.le && !s.ft) || (s.ce && s.ls) || (s.de && (s.ls || !fullDuplex)))
    ensures rxerr == RxError(s, fullDuplex)
  {
    rxerr := false;
    if s.es {
      if s.masked {
        rxerr := true;
      } else if s.le && !s.ft {
        rxerr := true;
      } else if s.ce && s.ls {
        rxerr := true;
      }
      if s.de && s.ls {
        rxerr := true;
      } else if s.de && !fullDuplex {
        rxerr := true;
      }
    }
  }

  /** The frames handed up when the first `k` positions are processed: those without error. */
  function Good(stream: seq<nat>, done: seq<Status>, k: nat, fullDuplex: bool): seq<Frame>
    requires k <= |done| <= |stream|
  {
    if k == 0 then []
    else Good(stream, done, k - 1, fullDuplex)
         + if RxError(done[k - 1], fullDuplex) then [] else [Frame(stream[k - 1], done[k - 1].len)]
  }

  lemma {:induction false} GoodStable(stream: seq<nat>, done: seq<Status>, more: seq<nat>, moreDone: seq<Status>,
                                      k: nat, fullDuplex: bool)
    requires k <= |done| <= |stream| && |done + moreDone| <= |stream + more|
    ensures Good(stream + more, done + moreDone, k, fullDuplex) == Good(stream, done, k, fullDuplex)
  {
    if k > 0 {
      GoodStable(stream, done, more, moreDone, k - 1, fullDuplex);
    }
  }

  lemma GoodGrown(stream: seq<nat>, done: seq<Status>, stream': seq<nat>, done': seq<Status>, k: nat, fullDuplex: bool)
    requires k <= |done| <= |stream| && |done'| <= |stream'| && stream <= stream' && done <= done'
    ensures Good(stream', done', k, fullDuplex) == Good(stream, done, k, fullDuplex)
  {
    assert stream' == stream + stream'[|stream|..] && done' == done + done'[|done|..];
    GoodStable(stream, done, stream'[|stream|..], done'[|done|..], k, fullDuplex);
  }

  function Occurs(s: seq<nat>, p: nat): nat {
    if s == [] then 0 else Occurs(s[..|s| - 1], p) + if s[|s| - 1] == p then 1 else 0
  }

  lemma OccursSnoc(s: seq<nat>, x: nat, p: nat)
    ensures Occurs(s + [x], p) == Occurs(s, p) + if x == p then 1 else 0
  {
    assert (s + [x])[..|s|] == s;
  }

  lemma {:induction false} OccursHead(x: nat, s: seq<nat>, p: nat)
    ensures Occurs([x] + s, p) == Occurs(s, p) + if x == p then 1 else 0
  {
    if s == [] {
      OccursSnoc([], x, p);
      assert [] + [x] == [x] + s;
    } else {
      var k := |s| - 1;
      OccursHead(x, s[..k], p);
      OccursSnoc([x] + s[..k], s[k], p);
      assert ([x] + s[..k]) + [s[k]] == [x] + s;
    }
  }

  lemma {:induction false} OccursMeaning(s: seq<nat>, p: nat)
    ensures Occurs(s, p) == multiset(s)[p]
  {
    if s != [] {
      OccursMeaning(s[..|s| - 1], p);
      assert s == s[..|s| - 1] + [s[|s| - 1]];
    }
  }

  /** Taking the oldest pbuf out of the ring. */
  lemma Moved(stream: seq<nat>, got: nat, p: nat)
    requires got < |stream|
    ensures Occurs(stream[got..], p) == Occurs(stream[got + 1..], p) + if stream[got] == p then 1 else 0
  {
    assert stream[got..] == [stream[got]] + stream[got + 1..];
    OccursHead(stream[got], stream[got + 1..], p);
  }

  function Pbufs(frames: seq<Frame>): seq<nat> {
    if frames == [] then [] else Pbufs(frames[..|frames| - 1]) + [frames[|frames| - 1].pbuf]
  }

  lemma PbufsSnoc(frames: seq<Frame>, f: Frame)
    ensures Pbufs(frames + [f]) == Pbufs(frames) + [f.pbuf]
  {
    assert (frames + [f])[..|frames|] == frames;
  }

  // ---------------------------------------------------------------- the ring

  /** Position `k` still in the ring: its pbuf, and its status once the DMA engine is done. */
  ghost predicate Queued(n: nat, ds: seq<Desc>, ps: seq<nat>, k: nat, p: nat, own: bool, st: Option<Status>)
    requires 0 < n == |ds| == |ps|
  {
    var d := ds[Slot(k, n)];
    && ps[Slot(k, n)] == p && d.buf == p && (d.own <==> own) && (d.rer <==> Slot(k, n) == n - 1)
    && (st.Some? ==> d.status == st.value)
  }

  ghost predicate Empty(n: nat, ds: seq<Desc>, k: nat)
    requires 0 < n == |ds|
  {
    !ds[Slot(k, n)].own && (ds[Slot(k, n)].rer <==> Slot(k, n) == n - 1)
  }

  function StatusAt(done: seq<Status>, k: nat): Option<Status> {
    if k < |done| then Some(done[k]) else None
  }

  /** The ring at one moment: descriptors and pbufs; the pbufs of all positions ever queued, the status
    * the DMA engine gave them, and how many have left the ring. The next position may be half queued
    * while `open`. */
  datatype RingState = RingState(n: nat, ds: seq<Desc>, ps: seq<nat>, stream: seq<nat>, done: seq<Status>,
                                 got: nat, open: bool)

  /** Positions from `got` on are in the ring; the DMA engine owns those it is not done with. */
  ghost predicate RingInv(s: RingState) {
    && 0 < s.n == |s.ds| == |s.ps|
    && s.got <= |s.done| <= |s.stream| <= s.got + s.n
    && (forall k {:trigger s.stream[k]} | s.got <= k < |s.stream| ::
          Queued(s.n, s.ds, s.ps, k, s.stream[k], |s.done| <= k, StatusAt(s.done, k)))
    && (forall k {:trigger Empty(s.n, s.ds, k)} | |s.stream| < k < s.got + s.n :: Empty(s.n, s.ds, k))
    && (|s.stream| < s.got + s.n ==>
          if s.open then !s.ds[Slot(|s.stream|, s.n)].own else Empty(s.n, s.ds, |s.stream|))
  }

  /** The DMA engine has filled its current slot. */
  function Filled(s: RingState, st: Status): RingState
    requires 0 < s.n == |s.ds|
  {
    var i := Slot(|s.done|, s.n);
    s.(ds := s.ds[i := s.ds[i].(own := false, status := st)], done := s.done + [st])
  }

  lemma FillOwned(s: RingState, st: Status)
    requires RingInv(s) && |s.done| < |s.stream|
    ensures RingInv(Filled(s, st))
  {
    var t, i := Filled(s, st), Slot(|s.done|, s.n);
    assert Queued(s.n, s.ds, s.ps, |s.done|, s.stream[|s.done|], true, None);
    SlotsDistinct(s.got, s.n);
    forall k | s.got <= k < |s.stream|
      ensures Queued(s.n, t.ds, s.ps, k, s.stream[k], |t.done| <= k, StatusAt(t.done, k))
    {
      assert Queued(s.n, s.ds, s.ps, k, s.stream[k], |s.done| <= k, StatusAt(s.done, k));
      assert k != |s.done| ==> Slot(k, s.n) != i;
    }
    assert |s.stream| < s.got + s.n ==> Slot(|s.stream|, s.n) != i;
    forall k | |s.stream| < k < s.got + s.n
      ensures Empty(s.n, t.ds, k)
    {
      assert Empty(s.n, s.ds, k) && Slot(k, s.n) != i;
    }
  }

  /** The DMA engine owns its current slot exactly if a pbuf waits there. */
  lemma CurrentSlot(s: RingState)
    requires RingInv(s)
    ensures s.ds[Slot(|s.done|, s.n)].own <==> |s.done| < |s.stream|
    ensures |s.done| < |s.stream| ==> (s.ds[Slot(|s.done|, s.n)].rer <==> Slot(|s.done|, s.n) == s.n - 1)
  {
    if |s.done| == s.got + s.n {
      SlotRound(s.got, s.n);
      assert Queued(s.n, s.ds, s.ps, s.got, s.stream[s.got], false, StatusAt(s.done, s.got));
    } else if |s.done| < |s.stream| {
      assert Queued(s.n, s.ds, s.ps, |s.done|, s.stream[|s.done|], true, None);
    }
  }

  /** One step of the DMA engine: it fills the pbuf of its current slot if it owns it. */
  lemma FillKeeps(s: RingState, st: Status)
    requires RingInv(s)
    ensures if s.ds[Slot(|s.done|, s.n)].own then |s.done| < |s.stream| && RingInv(Filled(s, st))
            else |s.done| == |s.stream|
  {
    CurrentSlot(s);
    if |s.done| < |s.stream| {
      FillOwned(s, st);
    }
  }

  /** It does not touch the slot that is queued next. */
  lemma FillApart(s: RingState, st: Status)
    requires RingInv(s) && |s.done| < |s.stream| < s.got + s.n
    ensures Filled(s, st).ds[Slot(|s.stream|, s.n)] == s.ds[Slot(|s.stream|, s.n)]
  {
    SlotDistinct(|s.done|, |s.stream|, s.n);
  }

  /** The slot that is queued next has been written to. */
  function Written(s: RingState, d: Desc, p: nat): RingState
    requires 0 < s.n == |s.ds| == |s.ps|
  {
    var i := Slot(|s.stream|, s.n);
    s.(ds := s.ds[i := d], ps := s.ps[i := p], open := true)
  }

  /** Writing to that slot, short of setting OWN. */
  lemma WriteKeeps(s: RingState, d: Desc, p: nat)
    requires RingInv(s) && |s.stream| < s.got + s.n && !d.own
    ensures RingInv(Written(s, d, p))
  {
    var t, i := Written(s, d, p), Slot(|s.stream|, s.n);
    SlotsDistinct(s.got, s.n);
    forall k | s.got <= k < |s.stream|
      ensures Queued(s.n, t.ds, t.ps, k, s.stream[k], |s.done| <= k, StatusAt(s.done, k))
    {
      assert Queued(s.n, s.ds, s.ps, k, s.stream[k], |s.done| <= k, StatusAt(s.done, k));
      assert Slot(k, s.n) != i;
    }
    forall k | |s.stream| < k < s.got + s.n
      ensures Empty(s.n, t.ds, k)
    {
      assert Empty(s.n, s.ds, k) && Slot(k, s.n) != i;
    }
  }

  /** OWN of the slot that is queued next has been set. */
  function Given(s: RingState, p: nat, st: Status): RingState
    requires 0 < s.n == |s.ds|
  {
    var i := Slot(|s.stream|, s.n);
    s.(ds := s.ds[i := s.ds[i].(own := true, status := st)], stream := s.stream + [p], open := false)
  }

  /** Setting OWN, last of all, queues the pbuf. */
  lemma QueueKeeps(s: RingState, p: nat, st: Status)
    requires RingInv(s) && s.open && |s.stream| < s.got + s.n
    requires var i := Slot(|s.stream|, s.n); s.ps[i] == p && s.ds[i].buf == p && (s.ds[i].rer <==> i == s.n - 1)
    ensures RingInv(Given(s, p, st))
  {
    var t, i := Given(s, p, st), Slot(|s.stream|, s.n);
    SlotsDistinct(s.got, s.n);
    forall k | s.got <= k < |t.stream|
      ensures Queued(s.n, t.ds, s.ps, k, t.stream[k], |s.done| <= k, StatusAt(s.done, k))
    {
      if k < |s.stream| {
        assert t.stream[k] == s.stream[k];
        assert Queued(s.n, s.ds, s.ps, k, s.stream[k], |s.done| <= k, StatusAt(s.done, k));
        assert Slot(k, s.n) != i;
      }
    }
    forall k | |t.stream| <= k < s.got + s.n
      ensures Empty(s.n, t.ds, k)
    {
      assert Empty(s.n, s.ds, k) && Slot(k, s.n) != i;
    }
  }

  /** The oldest position leaves the ring. */
  lemma GetKeeps(s: RingState)
    requires RingInv(s) && !s.open && s.got < |s.stream|
    ensures s.ds[Slot(s.got, s.n)].own <==> s.got == |s.done|
    ensures s.got < |s.done| ==>
              && s.ps[Slot(s.got, s.n)] == s.stream[s.got] && s.ds[Slot(s.got, s.n)].status == s.done[s.got]
              && RingInv(s.(got := s.got + 1))
  {
    assert Queued(s.n, s.ds, s.ps, s.got, s.stream[s.got], |s.done| <= s.got, StatusAt(s.done, s.got));
    SlotRound(s.got, s.n);
    assert Slot(s.got + s.n, s.n) == Slot(s.got, s.n);
    if s.got < |s.done| {
      assert Empty(s.n, s.ds, s.got + s.n);
      forall k | s.got + 1 <= k < |s.stream|
        ensures Queued(s.n, s.ds, s.ps, k, s.stream[k], |s.done| <= k, StatusAt(s.done, k))
      {
        assert Queued(s.n, s.ds, s.ps, k, s.stream[k], |s.done| <= k, StatusAt(s.done, k));
      }
    }
  }

  // ---------------------------------------------------------------- where the pbufs are

  /** What has happened to the pbufs: those queued, what the DMA engine reported, how many were taken out
    * of the ring, the frames handed up, and the number of pbufs allocated. */
  datatype Account = Account(stream: seq<nat>, done: seq<Status>, got: nat, handed: seq<Frame>, count: nat,
                             fullDuplex: bool)

  /** Pbuf `p`, if it has been allocated, is in one slot of the ring or was handed up once. */
  ghost predicate Placed(stream: seq<nat>, got: nat, handed: seq<Frame>, count: nat, p: nat)
    requires got <= |stream|
  {
    Occurs(stream[got..], p) + Occurs(Pbufs(handed), p) == if p < count then 1 else 0
  }

  /** That goes for every pbuf, and handed up were the pbufs with good frames, in ring order. */
  ghost predicate Books(a: Account) {
    && a.got <= |a.done| <= |a.stream|
    && (forall p {:trigger Placed(a.stream, a.got, a.handed, a.count, p)} ::
          Placed(a.stream, a.got, a.handed, a.count, p))
    && a.handed == Good(a.stream, a.done, a.got, a.fullDuplex)
  }

  lemma PlacedAllocate(stream: seq<nat>, got: nat, handed: seq<Frame>, count: nat, p: nat)
    requires got <= |stream| && Placed(stream, got, handed, count, p)
    ensures Placed(stream + [count], got, handed, count + 1, p)
  {
    assert (stream + [count])[got..] == stream[got..] + [count];
    OccursSnoc(stream[got..], count, p);
  }

  lemma BooksAllocate(a: Account, done': seq<Status>)
    requires Books(a) && a.done <= done' && |done'| <= |a.stream| + 1
    ensures Books(a.(stream := a.stream + [a.count], done := done', count := a.count + 1))
  {
    var stream', count' := a.stream + [a.count], a.count + 1;
    forall p ensures Placed(stream', a.got, a.handed, count', p) {
      assert Placed(a.stream, a.got, a.handed, a.count, p);
      PlacedAllocate(a.stream, a.got, a.handed, a.count, p);
    }
    GoodGrown(a.stream, a.done, stream', done', a.got, a.fullDuplex);
  }

  lemma PlacedRequeue(stream: seq<nat>, got: nat, handed: seq<Frame>, count: nat, p: nat)
    requires got < |stream| && Placed(stream, got, handed, count, p)
    ensures Placed(stream + [stream[got]], got + 1, handed, count, p)
  {
    assert (stream + [stream[got]])[got + 1..] == stream[got + 1..] + [stream[got]];
    Moved(stream, got, p);
    OccursSnoc(stream[got + 1..], stream[got], p);
  }

  lemma BooksRequeue(a: Account, done': seq<Status>)
    requires Books(a) && a.got < |a.done| && RxError(a.done[a.got], a.fullDuplex)
    requires a.done <= done' && |done'| <= |a.stream| + 1
    ensures Books(a.(stream := a.stream + [a.stream[a.got]], done := done', got := a.got + 1))
  {
    var stream', next := a.stream + [a.stream[a.got]], a.got + 1;
    forall p ensures Placed(stream', next, a.handed, a.count, p) {
      assert Placed(a.stream, a.got, a.handed, a.count, p);
      PlacedRequeue(a.stream, a.got, a.handed, a.count, p);
    }
    GoodGrown(a.stream, a.done, stream', done', next, a.fullDuplex);
    assert Good(a.stream, a.done, next, a.fullDuplex) == a.handed;
  }

  lemma PlacedHandUp(stream: seq<nat>, got: nat, handed: seq<Frame>, count: nat, f: Frame, p: nat)
    requires got < |stream| && Placed(stream, got, handed, count, p) && f.pbuf == stream[got]
    ensures Placed(stream, got + 1, handed + [f], count, p)
  {
    PbufsSnoc(handed, f);
    Moved(stream, got, p);
    OccursSnoc(Pbufs(handed), f.pbuf, p);
  }

  lemma BooksHandUp(a: Account)
    requires Books(a) && a.got < |a.done| && !RxError(a.done[a.got], a.fullDuplex)
    ensures Books(a.(got := a.got + 1, handed := a.handed + [Frame(a.stream[a.got], a.done[a.got].len)]))
  {
    var f, next := Frame(a.stream[a.got], a.done[a.got].len), a.got + 1;
    forall p ensures Placed(a.stream, next, a.handed + [f], a.count, p) {
      assert Placed(a.stream, a.got, a.handed, a.count, p);
      PlacedHandUp(a.stream, a.got, a.handed, a.count, f, p);
    }
    assert Good(a.stream, a.done, next, a.fullDuplex) == a.handed + [f];
  }

  lemma BooksReceive(a: Account, done': seq<Status>)
    requires Books(a) && a.done <= done' && |done'| <= |a.stream|
    ensures Books(a.(done := done'))
  {
    GoodGrown(a.stream, a.done, a.stream, done', a.got, a.fullDuplex);
  }

  /** So each pbuf is in exactly one place: in one slot of the ring, or handed up once. */
  lemma OnePlace(a: Account, p: nat)
    requires Books(a)
    ensures multiset(a.stream[a.got..])[p] + multiset(Pbufs(a.handed))[p] == if p < a.count then 1 else 0
  {
    assert Placed(a.stream, a.got, a.handed, a.count, p);
    OccursMeaning(a.stream[a.got..], p);
    OccursMeaning(Pbufs(a.handed), p);
  }

  /** Pbuf `p` was accepted or freed as often as it was handed up. */
  ghost predicate Ended(accepted: seq<nat>, freed: seq<nat>, handed: seq<Frame>, p: nat) {
    Occurs(accepted, p) + Occurs(freed, p) == Occurs(Pbufs(handed), p)
  }

  lemma OneMoreEnded(accepted: seq<nat>, freed: seq<nat>, handed: seq<Frame>, f: Frame)
    requires forall p {:trigger Ended(accepted, freed, handed, p)} :: Ended(accepted, freed, handed, p)
    ensures forall p :: Ended(accepted + [f.pbuf], freed, handed + [f], p)
    ensures forall p :: Ended(accepted, freed + [f.pbuf], handed + [f], p)
  {
    PbufsSnoc(handed, f);
    var a, d, h := accepted + [f.pbuf], freed + [f.pbuf], handed + [f];
    forall p ensures Ended(a, freed, h, p) && Ended(accepted, d, h, p) {
      assert Ended(accepted, freed, handed, p);
      OccursSnoc(accepted, f.pbuf, p);
      OccursSnoc(freed, f.pbuf, p);
      OccursSnoc(Pbufs(handed), f.pbuf, p);
    }
  }

  // ---------------------------------------------------------------- the driver as a machine

  /** All pbufs ever queued, what the DMA engine reported, how many were taken out of the ring; the number of
    * pbufs allocated, and of those handed up, the ones that netif->input took and the ones that were freed. */
  datatype View = View(stream: seq<nat>, done: seq<Status>, got: nat, count: nat, accepted: seq<nat>, freed: seq<nat>)

  /** The DMA engine fills pbufs with frames, as long as one of the first `filled` is waiting. */
  function Arrived(done: seq<Status>, filled: nat, frames: seq<Status>): seq<Status>
    decreases |frames|
  {
    if frames == [] || |done| >= filled then done else Arrived(done + [frames[0]], filled, frames[1..])
  }

  lemma {:induction false} ArrivedMeaning(done: seq<Status>, filled: nat, frames: seq<Status>)
    requires |done| <= filled
    ensures Arrived(done, filled, frames) == done + frames[..Min(|frames|, filled - |done|)]
    decreases |frames|
  {
    if frames != [] && |done| < filled {
      var m := Min(|frames|, filled - |done|);
      ArrivedMeaning(done + [frames[0]], filled, frames[1..]);
      assert [frames[0]] + frames[1..][..m - 1] == frames[..m];
    }
  }

  lemma {:induction false} ArrivedTwice(done: seq<Status>, filled: nat, frames: seq<Status>, more: seq<Status>)
    ensures Arrived(Arrived(done, filled, frames), filled, more) == Arrived(done, filled, frames + more)
    decreases |frames|
  {
    if frames == [] {
      assert frames + more == more;
    } else if |done| < filled {
      assert (frames + more)[0] == frames[0] && (frames + more)[1..] == frames[1..] + more;
      ArrivedTwice(done + [frames[0]], filled, frames[1..], more);
    }
  }

  /** What may arrive while a slot is prepared; the last slot of the ring takes one write more. */
  function Offers(last: bool, dma: seq<seq<Status>>): seq<Status> {
    At(dma, 0, []) + At(dma, 1, []) + (if last then At(dma, 2, []) else []) + At(dma, 3, [])
  }

  /** A pbuf goes into the ring. */
  function Queued1(n: nat, v: View, p: nat, dma: seq<seq<Status>>): View
    requires 0 < n
  {
    v.(stream := v.stream + [p],
       done := Arrived(Arrived(v.done, |v.stream|, Offers(Slot(|v.stream|, n) == n - 1, dma)), |v.stream| + 1,
                       At(dma, 4, [])))
  }

  /** `m` new pbufs go into the ring. */
  function QueuedNew(n: nat, v: View, dma: seq<seq<seq<Status>>>, m: nat): View
    requires 0 < n
  {
    if m == 0 then v
    else
      var w := QueuedNew(n, v, dma, m - 1);
      Queued1(n, w, w.count, At(dma, m - 1, [])).(count := w.count + 1)
  }

  /** How many allocations succeed, from the `k`-th on, until one fails or there are `limit`. */
  function Granted(pool: seq<bool>, limit: int, k: nat): nat
    decreases limit - k
  {
    if k >= limit || !At(pool, k, false) then k else Granted(pool, limit, k + 1)
  }

  /** Pbufs are allocated and go into the ring, until it is full or an allocation fails. */
  function QueuedAll(n: nat, v: View, pool: seq<bool>, dma: seq<seq<seq<Status>>>): View
    requires 0 < n
  {
    QueuedNew(n, v, dma, Granted(pool, n - (|v.stream| - v.got), 0))
  }

  lemma {:induction false} ArrivedGrows(done: seq<Status>, filled: nat, frames: seq<Status>)
    ensures done <= Arrived(done, filled, frames)
    decreases |frames|
  {
    if frames != [] && |done| < filled {
      ArrivedGrows(done + [frames[0]], filled, frames[1..]);
    }
  }

  lemma {:induction false} QueuedNewMeaning(n: nat, v: View, dma: seq<seq<seq<Status>>>, m: nat)
    requires 0 < n
    ensures var w := QueuedNew(n, v, dma, m);
            && v.stream <= w.stream && |w.stream| == |v.stream| + m && w.count == v.count + m
            && v.done <= w.done && w.got == v.got && w.accepted == v.accepted && w.freed == v.freed
  {
    if m > 0 {
      QueuedNewMeaning(n, v, dma, m - 1);
      var w := QueuedNew(n, v, dma, m - 1);
      var first := Arrived(w.done, |w.stream|, Offers(Slot(|w.stream|, n) == n - 1, At(dma, m - 1, [])));
      ArrivedGrows(w.done, |w.stream|, Offers(Slot(|w.stream|, n) == n - 1, At(dma, m - 1, [])));
      ArrivedGrows(first, |w.stream| + 1, At(At(dma, m - 1, []), 4, []));
    }
  }

  lemma AllQueued(n: nat, v: View, pool: seq<bool>, dma: seq<seq<seq<Status>>>, m: nat)
    requires 0 < n
    requires var limit := n - (|v.stream| - v.got);
             (m >= limit || !At(pool, m, false)) && Granted(pool, limit, m) == Granted(pool, limit, 0)
    ensures QueuedAll(n, v, pool, dma) == QueuedNew(n, v, dma, m)
  {
  }

  /** Whether a frame waits for the driver, and whether it will be handed up. */
  predicate Waiting(v: View) {
    v.got < |v.done| <= |v.stream|
  }

  predicate HandsUp(v: View, fullDuplex: bool) {
    Waiting(v) && !RxError(v.done[v.got], fullDuplex)
  }

  function Looked(n: nat, fullDuplex: bool, v: View, pool: seq<bool>, dma: seq<seq<seq<Status>>>): View
    requires 0 < n
  {
    if |v.stream| == v.got then QueuedAll(n, v, pool, dma)
    else if !Waiting(v) then v
    else
      var w := v.(got := v.got + 1);
      if HandsUp(v, fullDuplex) then QueuedAll(n, w, pool, dma)
      else Queued1(n, w, v.stream[v.got], At(dma, 0, []))
  }

  lemma LookedWaiting(n: nat, fullDuplex: bool, v: View, pool: seq<bool>, dma: seq<seq<seq<Status>>>)
    requires 0 < n && Waiting(v)
    ensures var w := v.(got := v.got + 1);
            Looked(n, fullDuplex, v, pool, dma)
            == if RxError(v.done[v.got], fullDuplex) then Queued1(n, w, v.stream[v.got], At(dma, 0, []))
               else QueuedAll(n, w, pool, dma)
  {
  }

  /** A pbuf that is handed up is accepted or freed. */
  function Delivered(v: View, p: nat, wanted: bool): View {
    if wanted then v.(accepted := v.accepted + [p]) else v.(freed := v.freed + [p])
  }

  /** What happens to the receive side: frames arrive, the driver queues pbufs, or it looks for a frame. */
  datatype Event =
    | Arrive(frames: seq<Status>)
    | Queue(pool: seq<bool>, dma: seq<seq<seq<Status>>>)
    | Input(pool: seq<bool>, dma: seq<seq<seq<Status>>>, ethType: nat, input: bool, pppoe: bool)

  function Next(n: nat, fullDuplex: bool, v: View, e: Event): View
    requires 0 < n
  {
    match e
    case Arrive(frames) => v.(done := Arrived(v.done, |v.stream|, frames))
    case Queue(pool, dma) => QueuedAll(n, v, pool, dma)
    case Input(pool, dma, ethType, input, pppoe) =>
      var w := Looked(n, fullDuplex, v, pool, dma);
      if HandsUp(v, fullDuplex) then Delivered(w, v.stream[v.got], input && Known(ethType, pppoe)) else w
  }

  function After(n: nat, fullDuplex: bool, events: seq<Event>, k: nat): View
    requires 0 < n && k <= |events|
  {
    if k == 0 then View([], [], 0, 0, [], [])
    else Next(n, fullDuplex, After(n, fullDuplex, events, k - 1), events[k - 1])
  }

  // ---------------------------------------------------------------- the driver

  class Driver {
    const n: nat
    const fullDuplex: bool
    const prdesc: array<Desc>
    const rxpbufs: array<nat>
    var rxFreeDescs: nat
    var rxGetIdx: nat
    var rxNextIdx: nat

    /** The DMA engine's current descriptor. */
    var dmaIdx: nat
    /** pbuf_alloc gives each pbuf a new number. */
    var pbufCount: nat
    /** Handed-up pbufs that netif->input took, and those that were freed. */
    var accepted: seq<nat>
    var freed: seq<nat>

    /** Every pbuf ever queued, every status the DMA engine gave, and how many were processed. */
    ghost var stream: seq<nat>
    ghost var done: seq<Status>
    ghost var got: nat
    /** The frames handed up so far. */
    ghost var handed: seq<Frame>

    ghost function Ring(open: bool): RingState
      reads this`stream, this`done, this`got, prdesc, rxpbufs
    {
      RingState(n, prdesc[..], rxpbufs[..], stream, done, got, open)
    }

    ghost function Look(): View
      reads this`stream, this`done, this`got, this`pbufCount, this`accepted, this`freed
    {
      View(stream, done, got, pbufCount, accepted, freed)
    }

    ghost function Accounts(): Account
      reads this`stream, this`done, this`got, this`handed, this`pbufCount
    {
      Account(stream, done, got, handed, pbufCount, fullDuplex)
    }

    ghost predicate Running(open: bool)
      reads this`dmaIdx, this`stream, this`done, this`got, prdesc, rxpbufs
    {
      && RingInv(Ring(open))
      && prdesc.Length == rxpbufs.Length == n
      && dmaIdx == Slot(|done|, n)
    }

    ghost predicate Indices()
      reads this`rxFreeDescs, this`rxGetIdx, this`rxNextIdx, this`stream, this`got
    {
      && 0 < n && got <= |stream| <= got + n
      && rxFreeDescs == n - (|stream| - got)
      && rxGetIdx == Slot(got, n)
      && rxNextIdx == Slot(|stream|, n)
    }

    ghost predicate Valid()
      reads this`dmaIdx, this`stream, this`done, this`got, this`rxFreeDescs, this`rxGetIdx, this`rxNextIdx, this`handed,
            this`pbufCount, prdesc, rxpbufs
    {
      && Running(false) && Indices()
      && Books(Accounts())
    }

    /** Every pbuf handed up was accepted or freed. */
    ghost predicate Settled()
      reads this`accepted, this`freed, this`handed
    {
      forall p {:trigger Ended(accepted, freed, handed, p)} :: Ended(accepted, freed, handed, p)
    }

    /** lpc_rx_setup, up to the first lpc_rx_queue. */
    constructor (n: nat, fullDuplex: bool)
      requires 3 <= n
      ensures Valid() && Settled() && fresh(prdesc) && fresh(rxpbufs)
      ensures this.n == n && this.fullDuplex == fullDuplex
      ensures Look() == View([], [], 0, 0, [], []) && handed == [] && rxFreeDescs == n
    {
      this.n, this.fullDuplex := n, fullDuplex;
      prdesc := new Desc[n](i => Desc(false, NO_STATUS, 0, i == n - 1));
      rxpbufs := new nat[n](_ => 0);
      rxFreeDescs, rxGetIdx, rxNextIdx, dmaIdx := n, 0, 0, 0;
      pbufCount, accepted, freed := 0, [], [];
      stream, done, got, handed := [], [], 0, [];
      new;
      assert stream[0..] == [];
      assert forall p :: Placed(stream, 0, handed, 0, p) && Ended(accepted, freed, handed, p);
    }

    /** The DMA engine receives frames, as long as it owns its next slot. */
    method RunDma(frames: seq<Status>, ghost open: bool)
      requires Running(open)
      modifies this`dmaIdx, this`done, prdesc
      ensures Running(open) && old(done) <= done && done == Arrived(old(done), |stream|, frames)
      ensures |stream| < got + n && open ==> prdesc[Slot(|stream|, n)] == old(prdesc[Slot(|stream|, n)])
    {
      var j := 0;
      while j < |frames| && prdesc[dmaIdx].own
        invariant 0 <= j <= |frames| && Running(open) && old(done) <= done
        invariant Arrived(done, |stream|, frames[j..]) == Arrived(old(done), |stream|, frames)
        invariant |stream| < got + n && open ==> prdesc[Slot(|stream|, n)] == old(prdesc[Slot(|stream|, n)])
      {
        ReceiveFrame(frames[j], open);
        j := j + 1;
      }
      CurrentSlot(Ring(open));
    }

    /** Between calls of the driver, the DMA engine receives frames. */
    method Idle(frames: seq<Status>)
      requires Valid()
      modifies this`dmaIdx, this`done, prdesc
      ensures Valid() && old(done) <= done && Look() == Next(n, fullDuplex, old(Look()), Arrive(frames))
    {
      ghost var was := Accounts();
      RunDma(frames, false);
      BooksReceive(was, done);
    }

    method ReceiveFrame(st: Status, ghost open: bool)
      requires Running(open) && prdesc[dmaIdx].own
      modifies this`dmaIdx, this`done, prdesc
      ensures Running(open) && done == old(done) + [st]
      ensures |stream| < got + n && open ==> prdesc[Slot(|stream|, n)] == old(prdesc[Slot(|stream|, n)])
    {
      ghost var was := Ring(open);
      FillKeeps(was, st);
      CurrentSlot(was);
      SlotStep(|done|, n);
      if |stream| < got + n {
        FillApart(was, st);
      }
      var d := prdesc[dmaIdx].(own := false, status := st);
      prdesc[dmaIdx] := d;
      done := done + [st];
      dmaIdx := if d.rer then 0 else dmaIdx + 1;
      assert Ring(open) == Filled(was, st);
    }

    /** One write to the descriptor that is queued next, after which the DMA engine may run. */
    method SetDesc(idx: nat, d: Desc, p: nat, frames: seq<Status>, ghost open: bool)
      requires Running(open) && |stream| < got + n && idx == Slot(|stream|, n) && !d.own
      modifies this`dmaIdx, this`done, prdesc, rxpbufs
      ensures Running(true) && prdesc[idx] == d && rxpbufs[idx] == p
      ensures old(done) <= done && done == Arrived(old(done), |stream|, frames)
    {
      ghost var was := Ring(open);
      WriteKeeps(was, d, p);
      prdesc[idx] := d;
      rxpbufs[idx] := p;
      assert Ring(true) == Written(was, d, p);
      RunDma(frames, true);
    }

    /** lpc_rxqueue_pbuf, up to the write to STATUS. */
    method PrepareSlot(idx: nat, p: nat, dma: seq<seq<Status>>)
      requires Running(false) && |stream| < got + n && idx == Slot(|stream|, n)
      modifies this`dmaIdx, this`done, prdesc, rxpbufs
      ensures Running(true) && old(done) <= done && done == Arrived(old(done), |stream|, Offers(idx == n - 1, dma))
      ensures rxpbufs[idx] == p && prdesc[idx].buf == p && (prdesc[idx].rer <==> idx == n - 1)
    {
      ghost var was, filled, two := done, |stream|, At(dma, 0, []) + At(dma, 1, []);
      ArrivedTwice(was, filled, At(dma, 0, []), At(dma, 1, []));
      ArrivedTwice(was, filled, two, At(dma, 2, []));
      ArrivedTwice(was, filled, two + if idx == n - 1 then At(dma, 2, []) else [], At(dma, 3, []));
      assert two + [] == two;
      SetDesc(idx, prdesc[idx], p, At(dma, 0, []), false);
      SetDesc(idx, prdesc[idx].(rer := false), p, At(dma, 1, []), true);
      if idx == n - 1 {
        SetDesc(idx, prdesc[idx].(rer := true), p, At(dma, 2, []), true);
      }
      SetDesc(idx, prdesc[idx].(buf := p), p, At(dma, 3, []), true);
    }

    /** lpc_rxqueue_pbuf, with the DMA engine running after every write. */
    method QueuePbuf(p: nat, dma: seq<seq<Status>>)
      requires Running(false) && Indices() && 0 < rxFreeDescs
      modifies this`rxFreeDescs, this`rxNextIdx, this`dmaIdx, this`stream, this`done, prdesc, rxpbufs
      ensures Running(false) && Indices()
      ensures Look() == Queued1(n, old(Look()), p, dma) && old(done) <= done && rxFreeDescs == old(rxFreeDescs) - 1
    {
      var idx := rxNextIdx;
      QueueSlot(idx, p, dma);
      SlotStep(|old(stream)|, n);
      rxFreeDescs := rxFreeDescs - 1;
      rxNextIdx := if idx + 1 >= n then 0 else idx + 1;
    }

    /** The writes of lpc_rxqueue_pbuf to the ring. */
    method QueueSlot(idx: nat, p: nat, dma: seq<seq<Status>>)
      requires Running(false) && |stream| < got + n && idx == Slot(|stream|, n)
      modifies this`dmaIdx, this`stream, this`done, prdesc, rxpbufs
      ensures Running(false) && old(done) <= done && Look() == Queued1(n, old(Look()), p, dma)
    {
      PrepareSlot(idx, p, dma);
      GiveSlot(idx, p, At(dma, 4, []));
    }

    /** The write that gives the descriptor to the DMA engine. */
    method GiveSlot(idx: nat, p: nat, frames: seq<Status>)
      requires Running(true) && |stream| < got + n && idx == Slot(|stream|, n)
      requires rxpbufs[idx] == p && prdesc[idx].buf == p && (prdesc[idx].rer <==> idx == n - 1)
      modifies this`dmaIdx, this`stream, this`done, prdesc
      ensures Running(false) && stream == old(stream) + [p]
      ensures old(done) <= done && done == Arrived(old(done), |stream|, frames)
    {
      ghost var was := Ring(true);
      QueueKeeps(was, p, NO_STATUS);
      prdesc[idx] := prdesc[idx].(own := true, status := NO_STATUS);
      stream := stream + [p];
      assert Ring(false) == Given(was, p, NO_STATUS);
      RunDma(frames, false);
    }

    /** lpc_rx_queue: pbufs are allocated and queued until none is free or pbuf_alloc fails;
      * `pool(j)` says whether the j-th allocation succeeds. */
    method RxQueue(pool: seq<bool>, dma: seq<seq<seq<Status>>>) returns (queued: nat)
      requires Valid()
      modifies this`rxFreeDescs, this`rxNextIdx, this`dmaIdx, this`pbufCount, this`stream, this`done, prdesc, rxpbufs
      ensures Valid()
      ensures old(done) <= done && queued <= old(rxFreeDescs) && rxFreeDescs == old(rxFreeDescs) - queued
      ensures pbufCount == old(pbufCount) + queued && |stream| == |old(stream)| + queued && old(stream) <= stream
      ensures rxFreeDescs == 0 || !At(pool, queued, false)
      ensures Look() == QueuedAll(n, old(Look()), pool, dma)
    {
      ghost var v := Look();
      queued := Refill(pool, dma);
      AllQueued(n, v, pool, dma, queued);
      QueuedNewMeaning(n, v, dma, queued);
    }

    /** Its loop. */
    method Refill(pool: seq<bool>, dma: seq<seq<seq<Status>>>) returns (queued: nat)
      requires Valid()
      modifies this`rxFreeDescs, this`rxNextIdx, this`dmaIdx, this`pbufCount, this`stream, this`done, prdesc, rxpbufs
      ensures Valid() && rxFreeDescs == old(rxFreeDescs) - queued
      ensures rxFreeDescs == 0 || !At(pool, queued, false)
      ensures Look() == QueuedNew(n, old(Look()), dma, queued)
      ensures Granted(pool, old(rxFreeDescs), queued) == Granted(pool, old(rxFreeDescs), 0)
    {
      queued := 0;
      ghost var v := Look();
      while rxFreeDescs > 0
        invariant Look() == QueuedNew(n, v, dma, queued)
        invariant Granted(pool, old(rxFreeDescs), queued) == Granted(pool, old(rxFreeDescs), 0)
        invariant Valid() && rxFreeDescs == old(rxFreeDescs) - queued
      {
        if !At(pool, queued, false) {
          break;
        }
        QueueNext(dma, queued, v);
        queued := queued + 1;
      }
    }

    /** A round of that loop. */
    method QueueNext(dma: seq<seq<seq<Status>>>, m: nat, ghost v: View)
      requires Valid() && 0 < rxFreeDescs && Look() == QueuedNew(n, v, dma, m)
      modifies this`rxFreeDescs, this`rxNextIdx, this`dmaIdx, this`pbufCount, this`stream, this`done, prdesc, rxpbufs
      ensures Valid() && Look() == QueuedNew(n, v, dma, m + 1) && rxFreeDescs == old(rxFreeDescs) - 1
    {
      QueueNew(At(dma, m, []));
    }

    /** A newly allocated pbuf is queued. */
    method QueueNew(dma: seq<seq<Status>>)
      requires Valid() && 0 < rxFreeDescs
      modifies this`rxFreeDescs, this`rxNextIdx, this`dmaIdx, this`pbufCount, this`stream, this`done, prdesc, rxpbufs
      ensures Valid() && old(done) <= done && rxFreeDescs == old(rxFreeDescs) - 1
      ensures stream == old(stream) + [old(pbufCount)] && pbufCount == old(pbufCount) + 1
      ensures Look() == Queued1(n, old(Look()), old(pbufCount), dma).(count := pbufCount)
    {
      ghost var was := Accounts();
      QueuePbuf(pbufCount, dma);
      BooksAllocate(was, done);
      pbufCount := pbufCount + 1;
      assert Accounts() == was.(stream := stream, done := done, count := pbufCount);
    }

    /** The oldest slot becomes free. */
    method TakeOldest()
      requires Running(false) && Indices() && got < |done|
      modifies this`rxFreeDescs, this`rxGetIdx, this`got
      ensures Running(false) && Indices() && got == old(got) + 1 && 0 < rxFreeDescs
    {
      ghost var was := Ring(false);
      GetKeeps(was);
      SlotStep(got, n);
      rxFreeDescs := rxFreeDescs + 1;
      rxGetIdx := if rxGetIdx + 1 >= n then 0 else rxGetIdx + 1;
      got := got + 1;
      assert Ring(false) == was.(got := got);
    }

    /** The oldest slot becomes free and is queued again. */
    method Rotate(buf: nat, dma: seq<seq<Status>>)
      requires Running(false) && Indices() && got < |done|
      modifies this`rxFreeDescs, this`rxGetIdx, this`rxNextIdx, this`dmaIdx, this`stream, this`done, this`got,
               prdesc, rxpbufs
      ensures Running(false) && Indices() && old(done) <= done
      ensures Look() == Queued1(n, old(Look()).(got := old(got) + 1), buf, dma)
    {
      TakeOldest();
      QueuePbuf(buf, dma);
    }

    /** A pbuf whose frame has an error goes back into the ring. */
    method Requeue(buf: nat, dma: seq<seq<Status>>)
      requires Valid() && got < |done| && buf == stream[got] && RxError(done[got], fullDuplex)
      modifies this`rxFreeDescs, this`rxGetIdx, this`rxNextIdx, this`dmaIdx, this`stream, this`done, this`got,
               prdesc, rxpbufs
      ensures Valid() && old(done) <= done && old(stream) <= stream && got == old(got) + 1
      ensures Look() == Queued1(n, old(Look()).(got := got), buf, dma)
    {
      ghost var was := Accounts();
      Rotate(buf, dma);
      BooksRequeue(was, done);
      assert Accounts() == was.(stream := stream, done := done, got := got);
    }

    /** A pbuf with a good frame leaves the ring. */
    method HandUp(f: Frame)
      requires Valid() && got < |done| && f == Frame(stream[got], done[got].len) && !RxError(done[got], fullDuplex)
      modifies this`rxFreeDescs, this`rxGetIdx, this`got, this`handed
      ensures Valid() && Look() == old(Look()).(got := old(got) + 1) && handed == old(handed) + [f]
    {
      ghost var was := Accounts();
      ghost var now := was.(got := got + 1, handed := handed + [f]);
      BooksHandUp(was);
      assert Books(now);
      TakeOldest();
      handed := handed + [f];
      assert Accounts() == now;
    }

    /** The two ends of lpc_low_level_input: a bad frame, and a good one. */
    method Reject(buf: nat, ghost pool: seq<bool>, dma: seq<seq<seq<Status>>>)
      requires Valid() && got < |done| && buf == stream[got] && RxError(done[got], fullDuplex)
      modifies this`rxFreeDescs, this`rxGetIdx, this`rxNextIdx, this`dmaIdx, this`stream, this`done, this`got,
               prdesc, rxpbufs
      ensures Valid() && old(done) <= done && old(stream) <= stream && got == old(got) + 1
      ensures Look() == Looked(n, fullDuplex, old(Look()), pool, dma)
    {
      LookedWaiting(n, fullDuplex, Look(), pool, dma);
      Requeue(buf, At(dma, 0, []));
    }

    method HandUpAndRefill(f: Frame, pool: seq<bool>, dma: seq<seq<seq<Status>>>)
      requires Valid() && got < |done| && f == Frame(stream[got], done[got].len) && !RxError(done[got], fullDuplex)
      modifies this`rxFreeDescs, this`rxGetIdx, this`rxNextIdx, this`dmaIdx, this`pbufCount, this`stream, this`done,
               this`got, this`handed, prdesc, rxpbufs
      ensures Valid() && old(done) <= done && old(stream) <= stream && got == old(got) + 1
      ensures handed == old(handed) + [f] && Look() == Looked(n, fullDuplex, old(Look()), pool, dma)
    {
      LookedWaiting(n, fullDuplex, Look(), pool, dma);
      HandUp(f);
      var _ := RxQueue(pool, dma);
    }

    /** lpc_low_level_input: the pbuf of the oldest slot, with the length of the frame in it. */
    method LowLevelInput(pool: seq<bool>, dma: seq<seq<seq<Status>>>) returns (p: Option<Frame>)
      requires Valid()
      modifies this`rxFreeDescs, this`rxGetIdx, this`rxNextIdx, this`dmaIdx, this`pbufCount, this`stream, this`done,
               this`got, this`handed, prdesc, rxpbufs
      ensures Valid() && old(done) <= done && old(stream) <= stream
      ensures got == old(got) + if old(got) < |old(done)| then 1 else 0
      ensures p.Some? <==>
                && old(got) < |old(done)|
                && var st := old(done)[old(got)];
                   !st.es || !(st.masked || (st.le && !st.ft) || (st.ce && st.ls) || (st.de && (st.ls || !fullDuplex)))
      ensures p.Some? ==> p.value == Frame(old(stream)[old(got)], old(done)[old(got)].len)
      ensures handed == if p.Some? then old(handed) + [p.value] else old(handed)
      ensures Look() == Looked(n, fullDuplex, old(Look()), pool, dma)
    {
      if rxFreeDescs == n {
        var _ := RxQueue(pool, dma);
        return None;
      }
      var ridx := rxGetIdx;
      GetKeeps(Ring(false));
      if prdesc[ridx].own {
        return None;
      }
      p := InputAt(ridx, pool, dma);
    }

    /** lpc_low_level_input, for a slot the DMA engine has released. */
    method InputAt(ridx: nat, pool: seq<bool>, dma: seq<seq<seq<Status>>>) returns (p: Option<Frame>)
      requires Valid() && got < |done| && ridx == Slot(got, n)
      modifies this`rxFreeDescs, this`rxGetIdx, this`rxNextIdx, this`dmaIdx, this`pbufCount, this`stream, this`done,
               this`got, this`handed, prdesc, rxpbufs
      ensures Valid() && old(done) <= done && old(stream) <= stream && got == old(got) + 1
      ensures p == if RxError(old(done)[old(got)], fullDuplex) then None
                   else Some(Frame(old(stream)[old(got)], old(done)[old(got)].len))
      ensures handed == if p.Some? then old(handed) + [p.value] else old(handed)
      ensures Look() == Looked(n, fullDuplex, old(Look()), pool, dma)
    {
      GetKeeps(Ring(false));
      var buf, status := rxpbufs[ridx], prdesc[ridx].status;
      var rxerr := CheckStatus(status, fullDuplex);
      if rxerr {
        Reject(buf, pool, dma);
        p := None;
      } else {
        p := Some(Frame(buf, status.len));
        HandUpAndRefill(p.value, pool, dma);
      }
    }

    /** lpc_enetif_input: `ethType` is the type field of the frame, `input` what netif->input
      * answers. A pbuf that is handed up is accepted or freed, and only once. */
    method EnetifInput(pool: seq<bool>, dma: seq<seq<seq<Status>>>, ethType: nat, input: bool, pppoe: bool)
      requires Valid() && Settled()
      modifies this`rxFreeDescs, this`rxGetIdx, this`rxNextIdx, this`dmaIdx, this`pbufCount, this`stream, this`done,
               this`got, this`handed, this`accepted, this`freed, prdesc, rxpbufs
      ensures Valid() && Settled() && old(done) <= done && old(stream) <= stream
      ensures var taken := && old(got) < |old(done)|
                           && var st := old(done)[old(got)];
                              !st.es || !(st.masked || (st.le && !st.ft) || (st.ce && st.ls)
                                          || (st.de && (st.ls || !fullDuplex)));
              var wanted := && input
                            && (ethType == 0x0800 || ethType == 0x0806
                                || (pppoe && (ethType == 0x8863 || ethType == 0x8864)));
              && accepted == (if taken && wanted then old(accepted) + [old(stream)[old(got)]] else old(accepted))
              && freed == (if taken && !wanted then old(freed) + [old(stream)[old(got)]] else old(freed))
      ensures Look() == Next(n, fullDuplex, old(Look()), Input(pool, dma, ethType, input, pppoe))
    {
      var p := LowLevelInput(pool, dma);
      if p.None? {
        return;
      }
      OneMoreEnded(accepted, freed, old(handed), p.value);
      Deliver(p.value.pbuf, ethType, input, pppoe);
    }

    /** lpc_enetif_input, for a pbuf it got. */
    method Deliver(p: nat, ethType: nat, input: bool, pppoe: bool)
      modifies this`accepted, this`freed
      ensures var wanted := input && Known(ethType, pppoe);
              && accepted == (if wanted then old(accepted) + [p] else old(accepted))
              && freed == (if wanted then old(freed) else old(freed) + [p])
    {
      if Known(ethType, pppoe) {
        if !input {
          freed := freed + [p];
        } else {
          accepted := accepted + [p];
        }
      } else {
        freed := freed + [p];
      }
    }
  }

  method Handle(d: Driver, e: Event)
    requires d.Valid() && d.Settled()
    modifies d, d.prdesc, d.rxpbufs
    ensures d.Valid() && d.Settled() && d.Look() == Next(d.n, d.fullDuplex, old(d.Look()), e)
  {
    match e
    case Arrive(frames) => d.Idle(frames);
    case Queue(pool, dma) => var _ := d.RxQueue(pool, dma);
    case Input(pool, dma, ethType, input, pppoe) => d.EnetifInput(pool, dma, ethType, input, pppoe);
  }

  /** Position `j` in the stream of pbufs: it was handed up with the length that the DMA engine gave it, in
    * its turn, or it was dropped, by the bits of its status. */
  lemma HandedUp(d: Driver, j: nat)
    requires d.Valid() && j < d.got
    ensures d.handed == Good(d.stream, d.done, d.got, d.fullDuplex)
    ensures var st, i := d.done[j], |Good(d.stream, d.done, j, d.fullDuplex)|;
            if st.es && (st.masked || (st.le && !st.ft) || (st.ce && st.ls) || (st.de && (st.ls || !d.fullDuplex)))
            then |Good(d.stream, d.done, j + 1, d.fullDuplex)| == i
            else i < |d.handed| && d.handed[i] == Frame(d.stream[j], st.len)
                 && |Good(d.stream, d.done, j + 1, d.fullDuplex)| == i + 1
  {
    GoodPrefix(d.stream, d.done, j + 1, d.got, d.fullDuplex);
  }

  lemma {:induction false} GoodPrefix(stream: seq<nat>, done: seq<Status>, j: nat, k: nat, fullDuplex: bool)
    requires j <= k <= |done| <= |stream|
    ensures Good(stream, done, j, fullDuplex) <= Good(stream, done, k, fullDuplex)
    decreases k
  {
    if j < k {
      GoodPrefix(stream, done, j, k - 1, fullDuplex);
    }
  }

  /** What the books mean for each pbuf. */
  lemma Whereabouts(d: Driver)
    requires d.Valid() && d.Settled()
    ensures forall p: nat ::
              multiset(d.stream[d.got..])[p] + multiset(Pbufs(d.handed))[p] == if p < d.pbufCount then 1 else 0
    ensures forall p: nat :: multiset(d.accepted)[p] + multiset(d.freed)[p] == multiset(Pbufs(d.handed))[p]
  {
    forall p: nat
      ensures multiset(d.stream[d.got..])[p] + multiset(Pbufs(d.handed))[p] == if p < d.pbufCount then 1 else 0
      ensures multiset(d.accepted)[p] + multiset(d.freed)[p] == multiset(Pbufs(d.handed))[p]
    {
      OnePlace(d.Accounts(), p);
      assert Ended(d.accepted, d.freed, d.handed, p);
      OccursMeaning(d.accepted, p);
      OccursMeaning(d.freed, p);
      OccursMeaning(Pbufs(d.handed), p);
    }
  }

  method Step(d: Driver, events: seq<Event>, k: nat)
    requires k < |events| && d.Valid() && d.Settled() && d.Look() == After(d.n, d.fullDuplex, events, k)
    modifies d, d.prdesc, d.rxpbufs
    ensures d.Valid() && d.Settled() && d.Look() == After(d.n, d.fullDuplex, events, k + 1)
  {
    ghost var next := k + 1;
    assert After(d.n, d.fullDuplex, events, next) == Next(d.n, d.fullDuplex, d.Look(), events[k]);
    Handle(d, events[k]);
  }

  /** Any run from lpc_rx_setup on: the driver is as the events make it. Each pbuf allocated is in one slot
    * of the ring or was handed up once; handed up were the pbufs with good frames, in ring order; and each
    * of those was accepted by netif->input or freed, and that once. */
  method Run(n: nat, fullDuplex: bool, events: seq<Event>) returns (d: Driver)
    requires 3 <= n
    ensures d.Valid() && d.n == n && d.fullDuplex == fullDuplex
    ensures d.Look() == After(n, fullDuplex, events, |events|)
    ensures d.handed == Good(d.stream, d.done, d.got, fullDuplex)
    ensures forall p: nat ::
              multiset(d.stream[d.got..])[p] + multiset(Pbufs(d.handed))[p] == if p < d.pbufCount then 1 else 0
    ensures forall p: nat :: multiset(d.accepted)[p] + multiset(d.freed)[p] == multiset(Pbufs(d.handed))[p]
  {
    d := new Driver(n, fullDuplex);
    for k := 0 to |events|
      invariant fresh(d) && fresh(d.prdesc) && fresh(d.rxpbufs)
      invariant d.Valid() && d.Settled() && d.n == n && d.fullDuplex == fullDuplex
      invariant d.Look() == After(n, fullDuplex, events, k)
    {
      Step(d, events, k);
    }
    Whereabouts(d);
  }
}
