/** The wake-up protocol of lwip/src/api/sockets.c between `lwip_select` and `event_callback`.
  * Any number of threads select and any number of callbacks run at once; each step of the
  * machine is one section that the code runs with SYS_ARCH_PROTECT held. */
module SelectProtocol {
  import opened Basics
  import SelectList

  /** struct lwip_sock, as far as select looks at it; `last` says whether lastdata is set. */
  datatype Sock = Sock(rcv: int, send: bool, err: bool, last: bool, waiting: int)

  /** The sets a thread passed to select, and maxfdp1. */
  datatype Sets = Sets(read: set<nat>, write: set<nat>, except: set<nat>, max: nat)

  /** Where a selecting thread stands: adding itself to select_waiting of each socket, scanning
    * the sockets again, waiting for the semaphore, taking itself out of select_waiting, and
    * taking itself off the list. */
  datatype Pc = Count(i: nat) | Scan(i: nat, found: bool) | Wait | Uncount(i: nat) | Delist

  /** struct lwip_select_cb of a thread that is on the list. */
  datatype Entry = Entry(sets: Sets, pc: Pc, signalled: bool, sem: nat)

  /** A callback between two entries: its socket, `scb`, and last_select_cb_ctr. */
  datatype Callback = Callback(sock: nat, scb: nat, ctr: nat)

  datatype Event = RcvPlus | RcvMinus | SendPlus | SendMinus | Error

  /** The sockets, select_cb_list with the entries of its threads, select_cb_ctr, and the running
    * callbacks. */
  datatype State = State(socks: seq<Sock>, list: seq<nat>, entries: map<nat, Entry>, ctr: nat, cbs: map<nat, Callback>)

  predicate Watches(sets: Sets, s: nat) {
    s < sets.max && (s in sets.read || s in sets.write || s in sets.except)
  }

  /** What event_callback tests. */
  predicate Matches(sock: Sock, sets: Sets, s: nat) {
    || (sock.rcv > 0 && s in sets.read)
    || (sock.send && s in sets.write)
    || (sock.err && s in sets.except)
  }

  /** What lwip_selscan tests: data left over from an earlier receive counts as well. */
  predicate ScanReady(sock: Sock, sets: Sets, s: nat) {
    || ((sock.last || sock.rcv > 0) && s in sets.read)
    || (sock.send && s in sets.write)
    || (sock.err && s in sets.except)
  }

  function Apply(sock: Sock, e: Event): Sock {
    match e
    case RcvPlus => sock.(rcv := sock.rcv + 1)
    case RcvMinus => sock.(rcv := sock.rcv - 1)
    case SendPlus => sock.(send := true)
    case SendMinus => sock.(send := false)
    case Error => sock.(err := true)
  }

  // ---------------------------------------------------------------- steps of a selecting thread

  /** lwip_select puts the thread's entry on top of the list. */
  ghost predicate Enlist(s: State, s': State, t: nat, sets: Sets) {
    && t !in s.entries && sets.max <= |s.socks|
    && s' == s.(list := [t] + s.list, entries := s.entries[t := Entry(sets, Count(0), false, 0)], ctr := s.ctr + 1)
  }

  function AddWaiting(socks: seq<Sock>, i: nat, d: int): seq<Sock>
    requires i < |socks|
  {
    socks[i := socks[i].(waiting := socks[i].waiting + d)]
  }

  /** One section of the code after that, up to leaving the list. */
  ghost predicate SelectStep(s: State, s': State, t: nat) {
    && t in s.entries
    && var e := s.entries[t];
       match e.pc
       case Count(i) =>
         if i >= e.sets.max then s' == s.(entries := s.entries[t := e.(pc := Scan(0, false))])
         else i < |s.socks| && s' == s.(
           socks := if Watches(e.sets, i) then AddWaiting(s.socks, i, 1) else s.socks,
           entries := s.entries[t := e.(pc := Count(i + 1))])
       case Scan(i, found) =>
         if i >= e.sets.max then s' == s.(entries := s.entries[t := e.(pc := if found then Uncount(0) else Wait)])
         else i < |s.socks| && s' == s.(
           entries := s.entries[t := e.(pc := Scan(i + 1, found || ScanReady(s.socks[i], e.sets, i)))])
       case Wait =>
         || (e.sem > 0 && s' == s.(entries := s.entries[t := e.(pc := Uncount(0), sem := e.sem - 1)]))
         || s' == s.(entries := s.entries[t := e.(pc := Uncount(0))])
       case Uncount(i) =>
         if i >= e.sets.max then s' == s.(entries := s.entries[t := e.(pc := Delist)])
         else i < |s.socks| && s' == s.(
           socks := if Watches(e.sets, i) then AddWaiting(s.socks, i, -1) else s.socks,
           entries := s.entries[t := e.(pc := Uncount(i + 1))])
       case Delist =>
         exists k: nat :: k < |s.list| && s.list[k] == t
           && s' == s.(list := SelectList.RemoveAt(s.list, k), entries := s.entries - {t}, ctr := s.ctr + 1)
  }

  // ---------------------------------------------------------------- steps of a callback

  /** event_callback tests the entry of `t` and signals its semaphore, at most once. */
  function Examine(s: State, t: nat, sock: nat): map<nat, Entry>
    requires t in s.entries && sock < |s.socks|
  {
    var e := s.entries[t];
    if !e.signalled && Matches(s.socks[sock], e.sets, sock)
    then s.entries[t := e.(signalled := true, sem := e.sem + 1)] else s.entries
  }

  /** The label `again`: the callback starts at the head of the list. */
  ghost predicate AtHead(s: State, s': State, c: nat, sock: nat)
    requires sock < |s.socks|
  {
    if s.list == [] then s' == s.(cbs := s.cbs - {c})
    else s.list[0] in s.entries
         && s' == s.(entries := Examine(s, s.list[0], sock), cbs := s.cbs[c := Callback(sock, s.list[0], s.ctr)])
  }

  /** An event: it is noted, and if a thread waits for the socket the list is searched. */
  ghost predicate Begin(s: State, s': State, c: nat, sock: nat, e: Event) {
    && c !in s.cbs && sock < |s.socks|
    && var s1 := s.(socks := s.socks[sock := Apply(s.socks[sock], e)]);
       if s1.socks[sock].waiting == 0 then s' == s1 else AtHead(s1, s', c, sock)
  }

  /** `a` stands right before `b`. */
  ghost predicate Successive(list: seq<nat>, a: nat, b: nat) {
    exists i {:trigger list[i]} :: 0 <= i < |list| - 1 && list[i] == a && list[i + 1] == b
  }

  ghost predicate Last(list: seq<nat>, a: nat) {
    list != [] && list[|list| - 1] == a
  }

  /** Back under protection, the callback goes on to the next entry, or starts again if the list
    * has changed. */
  ghost predicate Continue(s: State, s': State, c: nat) {
    && c in s.cbs
    && var cb := s.cbs[c];
       cb.sock < |s.socks|
       && if cb.ctr != s.ctr then AtHead(s, s', c, cb.sock)
          else
            || (Last(s.list, cb.scb) && s' == s.(cbs := s.cbs - {c}))
            || exists t: nat :: Successive(s.list, cb.scb, t) && t in s.entries
                 && s' == s.(entries := Examine(s, t, cb.sock), cbs := s.cbs[c := cb.(scb := t)])
  }

  /** A receive leaves data over, or takes what was left. */
  ghost predicate Leftover(s: State, s': State, sock: nat, last: bool) {
    sock < |s.socks| && s' == s.(socks := s.socks[sock := s.socks[sock].(last := last)])
  }

  ghost predicate Next(s: State, s': State) {
    || (exists t, sets :: Enlist(s, s', t, sets))
    || (exists t :: SelectStep(s, s', t))
    || (exists c, sock, e :: Begin(s, s', c, sock, e))
    || (exists c :: Continue(s, s', c))
    || (exists sock, last :: Leftover(s, s', sock, last))
  }

  ghost predicate Init(s: State) {
    && s.list == [] && s.entries == map[] && s.cbs == map[]
    && forall i | 0 <= i < |s.socks| :: s.socks[i].waiting == 0
  }

  ghost predicate Run(run: seq<State>) {
    0 < |run| && Init(run[0])
    && forall i {:trigger Next(run[i], run[i + 1])} | 0 <= i < |run| - 1 :: Next(run[i], run[i + 1])
  }

  // ---------------------------------------------------------------- the invariant

  /** The thread is included in select_waiting of the socket `s`. */
  predicate Counted(e: Entry, s: nat) {
    && Watches(e.sets, s)
    && match e.pc
       case Count(i) => s < i
       case Scan(_, _) => true
       case Wait => true
       case Uncount(i) => i <= s
       case Delist => false
  }

  ghost function Waiters(s: State, sock: nat): set<nat> {
    set t | t in s.entries && Counted(s.entries[t], sock)
  }

  /** The list holds the entries, each once. */
  ghost predicate ListOk(s: State) {
    && NoDup(s.list)
    && (forall t {:trigger t in s.entries} {:trigger t in s.list} :: t in s.list <==> t in s.entries)
    && (forall t | t in s.entries :: s.entries[t].sets.max <= |s.socks|)
  }

  ghost predicate WaitingOk(s: State) {
    forall i | 0 <= i < |s.socks| :: s.socks[i].waiting == |Waiters(s, i)|
  }

  /** A callback whose counter is current stands at an entry that is on the list. */
  ghost predicate CallbacksOk(s: State) {
    forall c | c in s.cbs ::
      && s.cbs[c].sock < |s.socks| && s.cbs[c].ctr <= s.ctr
      && (s.cbs[c].ctr == s.ctr ==> s.cbs[c].scb in s.list)
  }

  ghost predicate Before(list: seq<nat>, a: nat, b: nat) {
    exists i, j :: 0 <= i < j < |list| && list[i] == a && list[j] == b
  }

  /** The callback has not tested the entry of `t` in its current round yet, or starts another. */
  ghost predicate WillTest(s: State, cb: Callback, t: nat) {
    cb.ctr != s.ctr || Before(s.list, cb.scb, t)
  }

  /** The thread has seen the socket without an event in its second scan and will go to sleep. */
  predicate Exposed(e: Entry, sock: nat) {
    && Watches(e.sets, sock)
    && (e.pc == Wait || (e.pc.Scan? && !e.pc.found && sock < e.pc.i))
  }

  ghost predicate Covered(s: State, t: nat, sock: nat)
    requires t in s.entries
  {
    s.entries[t].signalled || exists c :: c in s.cbs && s.cbs[c].sock == sock && WillTest(s, s.cbs[c], t)
  }

  /** An event such a thread must not miss is signalled, or a callback is about to do it. */
  ghost predicate NoneLost(s: State) {
    forall t, sock {:trigger Exposed(s.entries[t], sock)} |
      t in s.entries && 0 <= sock < |s.socks| && Exposed(s.entries[t], sock) &&
      Matches(s.socks[sock], s.entries[t].sets, sock) ::
      Covered(s, t, sock)
  }

  /** The semaphore is signalled once at most, and it is there for a waiting thread to take. */
  ghost predicate SemOk(s: State) {
    forall t | t in s.entries ::
      && s.entries[t].sem <= (if s.entries[t].signalled then 1 else 0)
      && (s.entries[t].pc.Count? || s.entries[t].pc.Scan? || s.entries[t].pc.Wait? ==>
            s.entries[t].sem == if s.entries[t].signalled then 1 else 0)
  }

  ghost predicate Inv(s: State) {
    ListOk(s) && WaitingOk(s) && CallbacksOk(s) && NoneLost(s) && SemOk(s)
  }

  // ---------------------------------------------------------------- the list and select_waiting

  /** Only the entry of `t` changes, comes or goes. */
  ghost predicate OnlyEntry(m: map<nat, Entry>, m': map<nat, Entry>, t: nat) {
    forall u | u != t :: (u in m <==> u in m') && (u in m ==> m[u] == m'[u])
  }

  lemma WaitersUpdate(s: State, s': State, t: nat, sock: nat)
    requires OnlyEntry(s.entries, s'.entries, t)
    ensures Waiters(s', sock) ==
              if t in s'.entries && Counted(s'.entries[t], sock) then Waiters(s, sock) + {t} else Waiters(s, sock) - {t}
  {
  }

  /** What a step of a selecting thread leaves alone. */
  lemma SelectFrame(s: State, s': State, t: nat)
    requires SelectStep(s, s', t)
    ensures OnlyEntry(s.entries, s'.entries, t) && s'.cbs == s.cbs && |s'.socks| == |s.socks|
    ensures !s.entries[t].pc.Delist? ==>
              && s'.list == s.list && s'.ctr == s.ctr && t in s'.entries
              && s'.entries[t].sets == s.entries[t].sets && s'.entries[t].signalled == s.entries[t].signalled
    ensures s.entries[t].pc.Delist? ==>
              && s'.ctr == s.ctr + 1 && t !in s'.entries && s'.socks == s.socks
              && exists k: nat :: k < |s.list| && s.list[k] == t && s'.list == SelectList.RemoveAt(s.list, k)
    ensures forall i | 0 <= i < |s.socks| :: s'.socks[i] == s.socks[i].(waiting := s'.socks[i].waiting)
  {
  }

  /** How it changes select_waiting. */
  lemma SelectCount(s: State, s': State, t: nat, i: nat)
    requires SelectStep(s, s', t) && i < |s.socks| && s.entries[t].sets.max <= |s.socks|
    ensures |s'.socks| == |s.socks|
    ensures s'.socks[i].waiting == s.socks[i].waiting
              + (if t in s'.entries && Counted(s'.entries[t], i) then 1 else 0)
              - (if Counted(s.entries[t], i) then 1 else 0)
  {
  }

  lemma SelectListOk(s: State, s': State, t: nat)
    requires ListOk(s) && SelectStep(s, s', t)
    ensures ListOk(s')
  {
    SelectFrame(s, s', t);
    if s.entries[t].pc.Delist? {
      var k: nat :| k < |s.list| && s.list[k] == t && s'.list == SelectList.RemoveAt(s.list, k);
      SelectList.RemoveAtMeaning(s.list, k);
    }
  }

  lemma SelectWaiting(s: State, s': State, t: nat)
    requires ListOk(s) && WaitingOk(s) && SelectStep(s, s', t)
    ensures WaitingOk(s')
  {
    SelectFrame(s, s', t);
    forall i | 0 <= i < |s'.socks|
      ensures s'.socks[i].waiting == |Waiters(s', i)|
    {
      WaitersUpdate(s, s', t, i);
      SelectCount(s, s', t, i);
      assert t in Waiters(s, i) <==> Counted(s.entries[t], i);
    }
  }

  /** The second scan exposes a thread to a socket only if there is nothing to wake it for. */
  lemma SelectExposes(s: State, s': State, t: nat, sock: nat)
    requires SelectStep(s, s', t) && t in s'.entries && sock < |s.socks| && s.entries[t].sets.max <= |s.socks|
    requires Exposed(s'.entries[t], sock)
    ensures |s'.socks| == |s.socks|
    ensures Exposed(s.entries[t], sock) || !Matches(s'.socks[sock], s'.entries[t].sets, sock)
  {
  }

  lemma SelectNoneLost(s: State, s': State, t: nat)
    requires ListOk(s) && CallbacksOk(s) && NoneLost(s) && SelectStep(s, s', t)
    ensures NoneLost(s')
  {
    SelectFrame(s, s', t);
    forall u, sock | u in s'.entries && 0 <= sock < |s'.socks| && Exposed(s'.entries[u], sock)
                     && Matches(s'.socks[sock], s'.entries[u].sets, sock)
      ensures Covered(s', u, sock)
    {
      if u == t {
        SelectExposes(s, s', t, sock);
      }
      assert Exposed(s.entries[u], sock) && Matches(s.socks[sock], s.entries[u].sets, sock);
      assert Covered(s, u, sock);
      if !s.entries[u].signalled {
        var c :| c in s.cbs && s.cbs[c].sock == sock && WillTest(s, s.cbs[c], u);
        assert WillTest(s', s'.cbs[c], u);
      }
    }
  }

  lemma SelectInv(s: State, s': State, t: nat)
    requires Inv(s) && SelectStep(s, s', t)
    ensures Inv(s')
  {
    SelectFrame(s, s', t);
    SelectListOk(s, s', t);
    SelectWaiting(s, s', t);
    SelectNoneLost(s, s', t);
    SelectSem(s, s', t);
  }

  lemma SelectSem(s: State, s': State, t: nat)
    requires SemOk(s) && SelectStep(s, s', t)
    ensures SemOk(s')
  {
  }

  lemma EnlistInv(s: State, s': State, t: nat, sets: Sets)
    requires Inv(s) && Enlist(s, s', t, sets)
    ensures Inv(s')
  {
    assert OnlyEntry(s.entries, s'.entries, t);
    assert ListOk(s') by {
      assert forall u :: u in s'.list <==> u == t || u in s.list;
    }
    forall i | 0 <= i < |s'.socks|
      ensures s'.socks[i].waiting == |Waiters(s', i)|
    {
      WaitersUpdate(s, s', t, i);
      assert t !in Waiters(s, i);
    }
    forall u, sock | u in s'.entries && 0 <= sock < |s'.socks| && Exposed(s'.entries[u], sock)
                     && Matches(s'.socks[sock], s'.entries[u].sets, sock)
      ensures Covered(s', u, sock)
    {
      assert Exposed(s.entries[u], sock);
      assert Covered(s, u, sock);
      if !s.entries[u].signalled {
        var c :| c in s.cbs && s.cbs[c].sock == sock && WillTest(s, s.cbs[c], u);
        assert WillTest(s', s'.cbs[c], u);
      }
    }
  }

  // ---------------------------------------------------------------- callbacks

  /** Signalling changes nothing else. */
  lemma ExamineFrame(s: State, t: nat, sock: nat)
    requires t in s.entries && sock < |s.socks|
    ensures var m := Examine(s, t, sock);
            && m.Keys == s.entries.Keys
            && (forall u | u in m :: m[u].sets == s.entries[u].sets && m[u].pc == s.entries[u].pc
                                     && (s.entries[u].signalled ==> m[u].signalled)
                                     && (u != t ==> m[u] == s.entries[u]))
            && (Matches(s.socks[sock], s.entries[t].sets, sock) ==> m[t].signalled)
    ensures SemOk(s) ==> SemOk(s.(entries := Examine(s, t, sock)))
  {
  }

  /** A callback tests the entry of `t` and stops there; the rest of the list is still to come. */
  ghost predicate Tested(s: State, s': State, c: nat, sock: nat, t: nat) {
    && sock < |s.socks| && t in s.entries && t in s.list
    && s' == s.(entries := Examine(s, t, sock), cbs := s.cbs[c := Callback(sock, t, s.ctr)])
  }

  lemma TestedKeeps(s: State, s': State, c: nat, sock: nat, t: nat)
    requires ListOk(s) && WaitingOk(s) && CallbacksOk(s) && SemOk(s) && Tested(s, s', c, sock, t)
    ensures ListOk(s') && WaitingOk(s') && CallbacksOk(s') && SemOk(s')
  {
    ExamineFrame(s, t, sock);
    forall i | 0 <= i < |s'.socks|
      ensures s'.socks[i].waiting == |Waiters(s', i)|
    {
      assert Waiters(s', i) == Waiters(s, i);
    }
  }

  /** Covered without the help of the callback `c`. */
  ghost predicate CoveredElse(s: State, t: nat, sock: nat, c: nat)
    requires t in s.entries
  {
    s.entries[t].signalled || exists d :: d in s.cbs && d != c && s.cbs[d].sock == sock && WillTest(s, s.cbs[d], t)
  }

  /** What the callback `c` has to see to from the entry `t` on. */
  ghost predicate LeftTo(s: State, c: nat, sock: nat, t: nat) {
    forall u, k {:trigger Exposed(s.entries[u], k)} |
      u in s.entries && 0 <= k < |s.socks| && Exposed(s.entries[u], k) && Matches(s.socks[k], s.entries[u].sets, k) ::
      CoveredElse(s, u, k, c) || (k == sock && (u == t || Before(s.list, t, u)))
  }

  lemma TestedNoneLost(s: State, s': State, c: nat, sock: nat, t: nat)
    requires Tested(s, s', c, sock, t) && LeftTo(s, c, sock, t)
    ensures NoneLost(s')
  {
    ExamineFrame(s, t, sock);
    forall u, k | u in s'.entries && 0 <= k < |s'.socks| && Exposed(s'.entries[u], k)
                  && Matches(s'.socks[k], s'.entries[u].sets, k)
      ensures Covered(s', u, k)
    {
      assert Exposed(s.entries[u], k);
      if CoveredElse(s, u, k, c) {
        if !s.entries[u].signalled {
          var d :| d in s.cbs && d != c && s.cbs[d].sock == k && WillTest(s, s.cbs[d], u);
          assert s'.cbs[d] == s.cbs[d] && WillTest(s', s'.cbs[d], u);
        }
      } else if u != t {
        assert WillTest(s', s'.cbs[c], u);
      }
    }
  }

  lemma HeadFirst(s: State, u: nat)
    requires ListOk(s) && u in s.entries
    ensures s.list != [] && (u == s.list[0] || Before(s.list, s.list[0], u))
  {
    assert u in s.list;
    var j :| 0 <= j < |s.list| && s.list[j] == u;
  }

  lemma AtHeadInv(s: State, s': State, c: nat, sock: nat)
    requires ListOk(s) && WaitingOk(s) && CallbacksOk(s) && SemOk(s) && sock < |s.socks| && AtHead(s, s', c, sock)
    requires forall u, k {:trigger Exposed(s.entries[u], k)} |
               u in s.entries && 0 <= k < |s.socks| && Exposed(s.entries[u], k) &&
               Matches(s.socks[k], s.entries[u].sets, k) ::
               CoveredElse(s, u, k, c) || k == sock
    ensures Inv(s')
  {
    if s.list == [] {
      assert s.entries == map[] by {
        assert forall u :: u in s.entries ==> u in s.list;
      }
      assert WaitingOk(s');
    } else {
      var t := s.list[0];
      assert t in s.list;
      forall u, k | u in s.entries && 0 <= k < |s.socks| && Exposed(s.entries[u], k) &&
                    Matches(s.socks[k], s.entries[u].sets, k)
        ensures CoveredElse(s, u, k, c) || (k == sock && (u == t || Before(s.list, t, u)))
      {
        HeadFirst(s, u);
      }
      TestedKeeps(s, s', c, sock, t);
      TestedNoneLost(s, s', c, sock, t);
    }
  }

  lemma BeginInv(s: State, s': State, c: nat, sock: nat, e: Event)
    requires Inv(s) && Begin(s, s', c, sock, e)
    ensures Inv(s')
  {
    var s1 := s.(socks := s.socks[sock := Apply(s.socks[sock], e)]);
    assert WaitingOk(s1) by {
      forall i | 0 <= i < |s1.socks|
        ensures s1.socks[i].waiting == |Waiters(s1, i)|
      {
        assert Waiters(s1, i) == Waiters(s, i);
      }
    }
    assert ListOk(s1) && CallbacksOk(s1) && SemOk(s1);
    forall u, k | u in s1.entries && 0 <= k < |s1.socks| && Exposed(s1.entries[u], k)
                  && Matches(s1.socks[k], s1.entries[u].sets, k)
      ensures CoveredElse(s1, u, k, c) || (k == sock && s1.socks[sock].waiting != 0)
    {
      if k == sock {
        assert u in Waiters(s1, sock);
      } else {
        assert Exposed(s.entries[u], k) && Covered(s, u, k);
        if !s.entries[u].signalled {
          var d :| d in s.cbs && s.cbs[d].sock == k && WillTest(s, s.cbs[d], u);
          assert d != c && WillTest(s1, s1.cbs[d], u);
        }
      }
    }
    if s1.socks[sock].waiting == 0 {
      forall u, k | u in s'.entries && 0 <= k < |s'.socks| && Exposed(s'.entries[u], k)
                    && Matches(s'.socks[k], s'.entries[u].sets, k)
        ensures Covered(s', u, k)
      {
        assert CoveredElse(s1, u, k, c);
      }
    } else {
      AtHeadInv(s1, s', c, sock);
    }
  }

  /** Of the entries behind `a`, the one right behind it comes first. */
  lemma NextFirst(list: seq<nat>, a: nat, t: nat, u: nat)
    requires NoDup(list) && Successive(list, a, t) && Before(list, a, u)
    ensures u == t || Before(list, t, u)
  {
    var i :| 0 <= i < |list| - 1 && list[i] == a && list[i + 1] == t;
    var x, y :| 0 <= x < y < |list| && list[x] == a && list[y] == u;
    assert x == i;
  }

  lemma NothingLast(list: seq<nat>, a: nat, u: nat)
    requires NoDup(list) && Last(list, a)
    ensures !Before(list, a, u)
  {
  }

  lemma CoveredCases(s: State, c: nat, u: nat, k: nat)
    requires c in s.cbs && u in s.entries && Covered(s, u, k)
    ensures CoveredElse(s, u, k, c) || (k == s.cbs[c].sock && WillTest(s, s.cbs[c], u))
  {
  }

  lemma ContinueInv(s: State, s': State, c: nat)
    requires Inv(s) && Continue(s, s', c)
    ensures Inv(s')
  {
    var cb := s.cbs[c];
    forall u, k | u in s.entries && 0 <= k < |s.socks| && Exposed(s.entries[u], k) &&
                  Matches(s.socks[k], s.entries[u].sets, k)
      ensures CoveredElse(s, u, k, c) || (k == cb.sock && WillTest(s, cb, u))
    {
      CoveredCases(s, c, u, k);
    }
    if cb.ctr != s.ctr {
      AtHeadInv(s, s', c, cb.sock);
    } else if Last(s.list, cb.scb) && s' == s.(cbs := s.cbs - {c}) {
      forall u, k | u in s'.entries && 0 <= k < |s'.socks| && Exposed(s'.entries[u], k)
                    && Matches(s'.socks[k], s'.entries[u].sets, k)
        ensures Covered(s', u, k)
      {
        NothingLast(s.list, cb.scb, u);
        assert CoveredElse(s, u, k, c);
        if !s.entries[u].signalled {
          var d :| d in s.cbs && d != c && s.cbs[d].sock == k && WillTest(s, s.cbs[d], u);
          assert WillTest(s', s'.cbs[d], u);
        }
      }
      FinishKeeps(s, s', c);
    } else {
      var t: nat :| Successive(s.list, cb.scb, t) && t in s.entries
        && s' == s.(entries := Examine(s, t, cb.sock), cbs := s.cbs[c := cb.(scb := t)]);
      forall u, k | u in s.entries && 0 <= k < |s.socks| && Exposed(s.entries[u], k) &&
                    Matches(s.socks[k], s.entries[u].sets, k)
        ensures CoveredElse(s, u, k, c) || (k == cb.sock && (u == t || Before(s.list, t, u)))
      {
        if !CoveredElse(s, u, k, c) {
          NextFirst(s.list, cb.scb, t, u);
        }
      }
      TestedKeeps(s, s', c, cb.sock, t);
      TestedNoneLost(s, s', c, cb.sock, t);
    }
  }

  lemma FinishKeeps(s: State, s': State, c: nat)
    requires ListOk(s) && WaitingOk(s) && CallbacksOk(s) && SemOk(s) && s' == s.(cbs := s.cbs - {c})
    ensures ListOk(s') && WaitingOk(s') && CallbacksOk(s') && SemOk(s')
  {
    forall i | 0 <= i < |s'.socks|
      ensures s'.socks[i].waiting == |Waiters(s', i)|
    {
      assert Waiters(s', i) == Waiters(s, i);
    }
  }

  lemma LeftoverInv(s: State, s': State, sock: nat, last: bool)
    requires Inv(s) && Leftover(s, s', sock, last)
    ensures Inv(s')
  {
    forall i | 0 <= i < |s'.socks|
      ensures s'.socks[i].waiting == |Waiters(s', i)|
    {
      assert Waiters(s', i) == Waiters(s, i);
    }
    forall u, k | u in s'.entries && 0 <= k < |s'.socks| && Exposed(s'.entries[u], k)
                  && Matches(s'.socks[k], s'.entries[u].sets, k)
      ensures Covered(s', u, k)
    {
      assert Exposed(s.entries[u], k) && Matches(s.socks[k], s.entries[u].sets, k) && Covered(s, u, k);
      if !s.entries[u].signalled {
        var d :| d in s.cbs && s.cbs[d].sock == k && WillTest(s, s.cbs[d], u);
        assert WillTest(s', s'.cbs[d], u);
      }
    }
  }

  lemma NextInv(s: State, s': State)
    requires Inv(s) && Next(s, s')
    ensures Inv(s')
  {
    if t, sets :| Enlist(s, s', t, sets) {
      EnlistInv(s, s', t, sets);
    } else if t :| SelectStep(s, s', t) {
      SelectInv(s, s', t);
    } else if c, sock, e :| Begin(s, s', c, sock, e) {
      BeginInv(s, s', c, sock, e);
    } else if c :| Continue(s, s', c) {
      ContinueInv(s, s', c);
    } else {
      var sock, last :| Leftover(s, s', sock, last);
      LeftoverInv(s, s', sock, last);
    }
  }

  lemma InitInv(s: State)
    requires Init(s)
    ensures Inv(s)
  {
    forall i | 0 <= i < |s.socks|
      ensures s.socks[i].waiting == |Waiters(s, i)|
    {
      assert Waiters(s, i) == {};
    }
  }

  lemma {:induction false} RunInv(run: seq<State>, i: nat)
    requires Run(run) && i < |run|
    ensures Inv(run[i])
  {
    if i == 0 {
      InitInv(run[0]);
    } else {
      var k := i - 1;
      RunInv(run, k);
      assert Next(run[k], run[k + 1]);
      NextInv(run[k], run[i]);
    }
  }

  /** No wake-up is lost: in every reachable state in which no callback is running, a thread that
    * waits while a socket it watches has an event finds its semaphore signalled. */
  lemma NoLostWakeup(run: seq<State>, i: nat, t: nat, sock: nat)
    requires Run(run) && i < |run| && run[i].cbs == map[]
    requires t in run[i].entries && run[i].entries[t].pc == Wait
    requires sock < |run[i].socks| && sock < run[i].entries[t].sets.max
    requires var sk, sets := run[i].socks[sock], run[i].entries[t].sets;
             (sk.rcv > 0 && sock in sets.read) || (sk.send && sock in sets.write) || (sk.err && sock in sets.except)
    ensures run[i].entries[t].sem == 1
  {
    RunInv(run, i);
    var s := run[i];
    assert Exposed(s.entries[t], sock) && Covered(s, t, sock);
  }

  /** A callback only ever goes on from an entry that is on the list: an entry that has left it
    * makes the counters differ, and the callback starts again at the head. Nor does it ever
    * signal a semaphore twice. */
  lemma NoStaleEntry(run: seq<State>, i: nat, c: nat)
    requires Run(run) && i < |run| && c in run[i].cbs
    ensures run[i].cbs[c].ctr == run[i].ctr ==> run[i].cbs[c].scb in run[i].list && run[i].cbs[c].scb in run[i].entries
    ensures forall t | t in run[i].entries :: run[i].entries[t].sem <= 1
  {
    RunInv(run, i);
  }

  /** A running callback is never stuck. While the list does not change, each of its sections
    * ends it or brings it to a later entry. */
  lemma CallbackGoesOn(s: State, c: nat) returns (s': State)
    requires Inv(s) && c in s.cbs
    ensures Continue(s, s', c)
    ensures s.cbs[c].ctr == s.ctr ==> s'.list == s.list && (c in s'.cbs ==> Before(s.list, s.cbs[c].scb, s'.cbs[c].scb))
  {
    var cb := s.cbs[c];
    if cb.ctr != s.ctr {
      if s.list == [] {
        s' := s.(cbs := s.cbs - {c});
      } else {
        assert s.list[0] in s.list;
        s' := s.(entries := Examine(s, s.list[0], cb.sock), cbs := s.cbs[c := Callback(cb.sock, s.list[0], s.ctr)]);
      }
    } else {
      var i :| 0 <= i < |s.list| && s.list[i] == cb.scb;
      if i == |s.list| - 1 {
        s' := s.(cbs := s.cbs - {c});
      } else {
        var t := s.list[i + 1];
        assert t in s.list && Successive(s.list, cb.scb, t) && Before(s.list, cb.scb, t);
        s' := s.(entries := Examine(s, t, cb.sock), cbs := s.cbs[c := cb.(scb := t)]);
      }
    }
  }

  // ---------------------------------------------------------------- what events do

  /** What happened in a step: a thread joins the list, or goes on; an event, or its callback goes on; a
    * receive leaves data over. */
  datatype Label =
    | Joins(t: nat, sets: Sets)
    | Proceeds(t: nat)
    | Happens(c: nat, sock: nat, e: Event)
    | GoesOn(c: nat)
    | LeavesOver(sock: nat, last: bool)

  ghost predicate Does(s: State, s': State, l: Label) {
    match l
    case Joins(t, sets) => Enlist(s, s', t, sets)
    case Proceeds(t) => SelectStep(s, s', t)
    case Happens(c, sock, e) => Begin(s, s', c, sock, e)
    case GoesOn(c) => Continue(s, s', c)
    case LeavesOver(sock, last) => Leftover(s, s', sock, last)
  }

  lemma NextDoes(s: State, s': State) returns (l: Label)
    requires Next(s, s')
    ensures Does(s, s', l)
  {
    if t, sets :| Enlist(s, s', t, sets) {
      l := Joins(t, sets);
    } else if t :| SelectStep(s, s', t) {
      l := Proceeds(t);
    } else if c, sock, e :| Begin(s, s', c, sock, e) {
      l := Happens(c, sock, e);
    } else if c :| Continue(s, s', c) {
      l := GoesOn(c);
    } else {
      var sock, last :| Leftover(s, s', sock, last);
      l := LeavesOver(sock, last);
    }
  }

  /** What happened in each step. */
  ghost predicate Steps(run: seq<State>, labels: seq<Label>) {
    |run| == |labels| + 1 && forall i {:trigger labels[i]} | 0 <= i < |labels| :: Does(run[i], run[i + 1], labels[i])
  }

  ghost predicate Labelled(run: seq<State>, labels: seq<Label>) {
    Run(run) && Steps(run, labels)
  }

  /** Every run can be labelled. */
  lemma {:induction false} Labels(run: seq<State>, k: nat) returns (labels: seq<Label>)
    requires Run(run) && k < |run|
    ensures Steps(run[..k + 1], labels)
  {
    labels := [];
    if k > 0 {
      labels := Labels(run, k - 1);
      assert Next(run[k - 1], run[k - 1 + 1]);
      var l := NextDoes(run[k - 1], run[k]);
      OneStepMore(run[..k], labels, run[k], l);
      assert run[..k] + [run[k]] == run[..k + 1];
      labels := labels + [l];
    }
  }

  lemma OneStepMore(run: seq<State>, labels: seq<Label>, s: State, l: Label)
    requires Steps(run, labels) && Does(run[|labels|], s, l)
    ensures Steps(run + [s], labels + [l])
  {
    var run', labels' := run + [s], labels + [l];
    forall i {:trigger labels'[i]} | 0 <= i < |labels'| ensures Does(run'[i], run'[i + 1], labels'[i]) {
      assert i < |labels| ==> labels'[i] == labels[i];
    }
  }

  /** An event does to its socket what the type of the event says, and nothing else to any socket. */
  lemma EventMeaning(s: State, s': State, c: nat, sock: nat, e: Event)
    requires Begin(s, s', c, sock, e)
    ensures |s'.socks| == |s.socks| && sock < |s.socks|
    ensures var was, now := s.socks[sock], s'.socks[sock];
            && now.rcv == was.rcv + (if e == RcvPlus then 1 else if e == RcvMinus then -1 else 0)
            && now.send == (if e == SendPlus then true else if e == SendMinus then false else was.send)
            && now.err == (was.err || e == Error)
            && now.last == was.last && now.waiting == was.waiting
    ensures forall k | 0 <= k < |s.socks| && k != sock :: s'.socks[k] == s.socks[k]
  {
  }

  /** No other step touches rcvevent, sendevent or errevent. */
  lemma StepMeaning(s: State, s': State, l: Label, k: nat)
    requires Does(s, s', l) && k < |s.socks|
    ensures |s'.socks| == |s.socks|
    ensures var was, now, mine := s.socks[k], s'.socks[k], l.Happens? && l.sock == k;
            && now.rcv == was.rcv + (if mine && l.e == RcvPlus then 1 else if mine && l.e == RcvMinus then -1 else 0)
            && now.send == (if mine && l.e == SendPlus then true
                            else if mine && l.e == SendMinus then false else was.send)
            && now.err == (was.err || (mine && l.e == Error))
  {
    match l
    case Proceeds(t) => SelectFrame(s, s', t);
    case Happens(c, sock, e) => EventMeaning(s, s', c, sock, e);
    case _ =>
  }

  /** How often the event happened to the socket in the steps from `i` to `j`. */
  function HowOften(labels: seq<Label>, i: nat, j: nat, sock: nat, e: Event): nat
    requires i <= j <= |labels|
    decreases j
  {
    if i == j then 0
    else
      var l := labels[j - 1];
      HowOften(labels, i, j - 1, sock, e) + if l.Happens? && l.sock == sock && l.e == e then 1 else 0
  }

  /** Over a run, rcvevent is what arrived less what was taken. */
  lemma {:induction false} RcvCounts(run: seq<State>, labels: seq<Label>, i: nat, j: nat, sock: nat)
    requires Steps(run, labels) && i <= j < |run| && sock < |run[i].socks|
    ensures sock < |run[j].socks|
    ensures run[j].socks[sock].rcv
         == run[i].socks[sock].rcv + HowOften(labels, i, j, sock, RcvPlus) - HowOften(labels, i, j, sock, RcvMinus)
    decreases j
  {
    if i < j {
      RcvCounts(run, labels, i, j - 1, sock);
      StepMeaning(run[j - 1], run[j], labels[j - 1], sock);
    }
  }

  /** sendevent stays until it is taken back, and errevent for good. */
  lemma {:induction false} FlagsStay(run: seq<State>, labels: seq<Label>, i: nat, j: nat, sock: nat)
    requires Steps(run, labels) && i <= j < |run| && sock < |run[i].socks|
    ensures sock < |run[j].socks|
    ensures run[i].socks[sock].err ==> run[j].socks[sock].err
    ensures run[i].socks[sock].send && HowOften(labels, i, j, sock, SendMinus) == 0 ==> run[j].socks[sock].send
    decreases j
  {
    if i < j {
      FlagsStay(run, labels, i, j - 1, sock);
      StepMeaning(run[j - 1], run[j], labels[j - 1], sock);
    }
  }

  /** From the event to the semaphore: step `i` was an event of the socket, and no callback runs any more. If
    * the thread watches for such an event and still waits, its semaphore has been signalled; provided, for
    * data, that it was not all taken meanwhile, and for room to send, that there still is some. */
  lemma EventWakes(run: seq<State>, labels: seq<Label>, i: nat, j: nat, t: nat)
    requires Labelled(run, labels) && i < j < |run| && run[j].cbs == map[] && labels[i].Happens?
    requires t in run[j].entries && run[j].entries[t].pc == Wait && labels[i].sock < run[j].entries[t].sets.max
    requires var l, sets := labels[i], run[j].entries[t].sets;
             match l.e
             case RcvPlus =>
               && l.sock in sets.read && l.sock < |run[i].socks|
               && run[i].socks[l.sock].rcv + HowOften(labels, i, j, l.sock, RcvPlus)
                  > HowOften(labels, i, j, l.sock, RcvMinus)
             case SendPlus => l.sock in sets.write && HowOften(labels, i + 1, j, l.sock, SendMinus) == 0
             case Error => l.sock in sets.except
             case _ => false
    ensures run[j].entries[t].sem == 1
  {
    var l, next := labels[i], i + 1;
    assert Does(run[i], run[next], l);
    EventMeaning(run[i], run[next], l.c, l.sock, l.e);
    RcvCounts(run, labels, i, j, l.sock);
    FlagsStay(run, labels, next, j, l.sock);
    NoLostWakeup(run, j, t, l.sock);
  }

  /** So data that makes rcvevent positive wakes its reader, unless somebody takes data meanwhile. */
  lemma {:induction false} ArrivalWakes(run: seq<State>, labels: seq<Label>, i: nat, j: nat, t: nat)
    requires Labelled(run, labels) && i < j < |run| && run[j].cbs == map[]
    requires labels[i].Happens? && labels[i].e == RcvPlus
    requires var sock := labels[i].sock;
             && sock < |run[i + 1].socks| && run[i + 1].socks[sock].rcv > 0
             && HowOften(labels, i, j, sock, RcvMinus) == 0
             && t in run[j].entries && run[j].entries[t].pc == Wait
             && sock in run[j].entries[t].sets.read && sock < run[j].entries[t].sets.max
    ensures run[j].entries[t].sem == 1
  {
    var l, next := labels[i], i + 1;
    assert Does(run[i], run[next], l);
    EventMeaning(run[i], run[next], l.c, l.sock, l.e);
    RcvCounts(run, labels, next, j, l.sock);
    HowOftenLater(labels, next, j, l.sock, RcvMinus, i);
    NoLostWakeup(run, j, t, l.sock);
  }

  lemma {:induction false} HowOftenLater(labels: seq<Label>, i: nat, j: nat, sock: nat, e: Event, before: nat)
    requires before <= i <= j <= |labels|
    ensures HowOften(labels, i, j, sock, e) <= HowOften(labels, before, j, sock, e)
    decreases j
  {
    if i < j {
      HowOftenLater(labels, i, j - 1, sock, e, before);
    }
  }

  /** Nor is anybody woken for nothing: whoever is signalled in a step was signalled by a callback, for a
    * socket with an event that the thread asked for. */
  lemma WokenForReason(s: State, s': State, l: Label, t: nat)
    requires Does(s, s', l) && t in s'.entries && s'.entries[t].signalled
    requires t in s.entries ==> !s.entries[t].signalled
    ensures l.Happens? || (l.GoesOn? && l.c in s.cbs)
    ensures var sock := if l.Happens? then l.sock else s.cbs[l.c].sock;
            && sock < |s'.socks|
            && var sk, sets := s'.socks[sock], s'.entries[t].sets;
               || (sk.rcv > 0 && sock in sets.read)
               || (sk.send && sock in sets.write)
               || (sk.err && sock in sets.except)
  {
  }

  lemma StepsRun(run: seq<State>, labels: seq<Label>)
    requires Steps(run, labels) && Init(run[0])
    ensures Labelled(run, labels)
  {
    forall i {:trigger Next(run[i], run[i + 1])} | 0 <= i < |run| - 1 ensures Next(run[i], run[i + 1]) {
      DoesNext(run[i], run[i + 1], labels[i]);
    }
  }

  lemma DoesNext(s: State, s': State, l: Label)
    requires Does(s, s', l)
    ensures Next(s, s')
  {
  }

  const READER := Sets({0}, {}, {}, 1)
  const NOBODY := Sets({}, {}, {}, 0)
  const WATCHED := Sock(0, false, false, false, 1)

  /** Thread 1 waits to read from socket 0; thread 0 has just come to the list, in front of it. */
  function Queue(rcv: int, cbs: map<nat, Callback>): State {
    State([WATCHED.(rcv := rcv)], [0, 1],
          map[1 := Entry(READER, Wait, false, 0), 0 := Entry(NOBODY, Count(0), false, 0)], 2, cbs)
  }

  lemma QueueReached() returns (run: seq<State>, labels: seq<Label>)
    ensures Steps(run, labels) && Init(run[0]) && |run| == 7 && run[6] == Queue(0, map[])
  {
    var s0 := State([WATCHED.(waiting := 0)], [], map[], 0, map[]);
    var s1 := State(s0.socks, [1], map[1 := Entry(READER, Count(0), false, 0)], 1, map[]);
    var s2 := State([WATCHED], [1], map[1 := Entry(READER, Count(1), false, 0)], 1, map[]);
    var s3 := State([WATCHED], [1], map[1 := Entry(READER, Scan(0, false), false, 0)], 1, map[]);
    var s4 := State([WATCHED], [1], map[1 := Entry(READER, Scan(1, false), false, 0)], 1, map[]);
    var s5 := State([WATCHED], [1], map[1 := Entry(READER, Wait, false, 0)], 1, map[]);
    OneStepMore([s0], [], s1, Joins(1, READER));
    OneStepMore([s0, s1], [Joins(1, READER)], s2, Proceeds(1));
    run, labels := [s0, s1] + [s2], [Joins(1, READER)] + [Proceeds(1)];
    run, labels := Extended(run, labels, s3, Proceeds(1));
    run, labels := Extended(run, labels, s4, Proceeds(1));
    run, labels := Extended(run, labels, s5, Proceeds(1));
    run, labels := Extended(run, labels, Queue(0, map[]), Joins(0, NOBODY));
  }

  lemma Extended(run: seq<State>, labels: seq<Label>, s: State, l: Label)
      returns (run': seq<State>, labels': seq<Label>)
    requires Steps(run, labels) && Does(run[|labels|], s, l)
    ensures Steps(run', labels') && run' == run + [s] && labels' == labels + [l]
  {
    OneStepMore(run, labels, s, l);
    run', labels' := run + [s], labels + [l];
  }

  lemma QueueEvents()
    ensures var at0 := Callback(0, 0, 2);
            && Does(Queue(0, map[]), Queue(1, map[0 := at0]), Happens(0, 0, RcvPlus))
            && Does(Queue(1, map[0 := at0]), Queue(0, map[0 := at0, 1 := at0]), Happens(1, 0, RcvMinus))
  {
  }

  lemma QueueGoesOn()
    ensures var at0, at1 := Callback(0, 0, 2), Callback(0, 1, 2);
            && Does(Queue(0, map[0 := at0, 1 := at0]), Queue(0, map[0 := at1, 1 := at0]), GoesOn(0))
            && Does(Queue(0, map[0 := at1, 1 := at0]), Queue(0, map[0 := at1, 1 := at1]), GoesOn(1))
            && Does(Queue(0, map[0 := at1, 1 := at1]), Queue(0, map[1 := at1]), GoesOn(0))
            && Does(Queue(0, map[1 := at1]), Queue(0, map[]), GoesOn(1))
  {
    assert Queue(0, map[]).list[0] == 0 && Queue(0, map[]).list[1] == 1;
  }

  lemma QueueRead() returns (run: seq<State>, labels: seq<Label>)
    ensures var at0 := Callback(0, 0, 2);
            && Steps(run, labels) && Init(run[0]) && |run| == 9 && labels[6] == Happens(0, 0, RcvPlus)
            && run[6] == Queue(0, map[]) && run[7] == Queue(1, map[0 := at0])
            && run[8] == Queue(0, map[0 := at0, 1 := at0])
  {
    var at0 := Callback(0, 0, 2);
    QueueEvents();
    run, labels := QueueReached();
    run, labels := Extended(run, labels, Queue(1, map[0 := at0]), Happens(0, 0, RcvPlus));
    run, labels := Extended(run, labels, Queue(0, map[0 := at0, 1 := at0]), Happens(1, 0, RcvMinus));
  }

  /** Data that is taken before the callback comes to a thread does not wake it: it arrives, and is received
    * while both callbacks stand at thread 0. */
  lemma TakenFirst() returns (run: seq<State>, labels: seq<Label>)
    ensures Labelled(run, labels) && |run| == 13 && run[12].cbs == map[]
    ensures labels[6] == Happens(0, 0, RcvPlus) && |run[7].socks| == 1 && run[7].socks[0].rcv == 1
    ensures forall k | k == 6 || k == 12 :: 1 in run[k].entries && run[k].entries[1] == Entry(READER, Wait, false, 0)
  {
    var at0, at1 := Callback(0, 0, 2), Callback(0, 1, 2);
    QueueGoesOn();
    run, labels := QueueRead();
    run, labels := Extended(run, labels, Queue(0, map[0 := at1, 1 := at0]), GoesOn(0));
    run, labels := Extended(run, labels, Queue(0, map[0 := at1, 1 := at1]), GoesOn(1));
    run, labels := Extended(run, labels, Queue(0, map[1 := at1]), GoesOn(0));
    run, labels := Extended(run, labels, Queue(0, map[]), GoesOn(1));
    StepsRun(run, labels);
  }
}
