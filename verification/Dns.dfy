/** The resolver table of lwip/src/core/dns.c: queries are repeated, then put to the next server,
  * and in the end their callback is called. */
module Dns {
  const DNS_MAX_RETRIES := 4
  const DNS_MAX_TTL := 604800

  datatype EntryState = Unused | New | Asking | Completed

  /** struct dns_table_entry; `id` stands for the callback's argument, and `found` says whether
    * there is a callback. */
  datatype Entry = Entry(state: EntryState, numdns: nat, tmr: nat, retries: nat, seqno: nat, ttl: nat,
                         found: bool, id: nat)

  /** Which of the DNS_MAX_SERVERS servers are configured. */
  type Servers = s: seq<bool> | s != [] witness [true]

  /** An entry that gives up on its server goes on to the next one. */
  predicate HasNext(e: Entry, servers: Servers) {
    e.numdns + 1 < |servers| && servers[e.numdns + 1]
  }

  predicate Expires(e: Entry, servers: Servers) {
    e.state == Asking && e.tmr == 1 && e.retries + 1 == DNS_MAX_RETRIES && !HasNext(e, servers)
  }

  /** dns_check_entry. The counters tmr and ttl have 8 and 32 bits. */
  function Checked(e: Entry, servers: Servers): Entry {
    match e.state
    case New => e.(state := Asking, numdns := 0, tmr := 1, retries := 0)
    case Asking =>
      if e.tmr != 1 then e.(tmr := if e.tmr == 0 then 0xFF else e.tmr - 1)
      else if e.retries + 1 == DNS_MAX_RETRIES then
        if HasNext(e, servers) then e.(numdns := e.numdns + 1, tmr := 1, retries := 0)
        else e.(state := Unused, tmr := 0, retries := e.retries + 1, found := false)
      else e.(retries := e.retries + 1, tmr := e.retries + 1)
    case Completed =>
      var ttl := if e.ttl == 0 then 0xFFFF_FFFF else e.ttl - 1;
      if ttl == 0 then e.(state := Unused, ttl := 0, found := false) else e.(ttl := ttl)
    case Unused => e
  }

  /** How many servers a query is put to: server 0, and those configured right after it. */
  function Reach(servers: seq<bool>): (r: nat)
    requires servers != []
    ensures 1 <= r <= |servers|
  {
    if |servers| == 1 || !servers[1] then 1 else 1 + Reach(servers[1..])
  }

  lemma {:induction false} ReachMeaning(servers: seq<bool>, n: nat)
    requires servers != [] && n < Reach(servers)
    ensures n + 1 < Reach(servers) <==> n + 1 < |servers| && servers[n + 1]
  {
    if n > 0 {
      ReachMeaning(servers[1..], n - 1);
    } else if |servers| > 1 && servers[1] {
      assert Reach(servers[1..]) >= 1;
    }
  }

  /** The seconds until the entry gives up: on this server, and on those after it. */
  function Left(e: Entry, servers: Servers): int {
    7 * (Reach(servers) - 1 - e.numdns) + e.tmr
    + if e.retries == 0 then 6 else if e.retries == 1 then 5 else if e.retries == 2 then 3 else 0
  }

  predicate Counting(e: Entry, servers: Servers) {
    && e.numdns < Reach(servers) && e.retries < DNS_MAX_RETRIES
    && 1 <= e.tmr <= if e.retries == 0 then 1 else e.retries
  }

  /** Every check brings an asking entry one second closer to its end, whatever else it does, and
    * the check that finds one second left ends it. */
  lemma CheckCounts(e: Entry, servers: Servers)
    requires e.state == Asking && Counting(e, servers)
    ensures Left(e, servers) >= 1
    ensures Expires(e, servers) <==> Left(e, servers) == 1
    ensures !Expires(e, servers) ==> Counting(Checked(e, servers), servers) && Checked(e, servers).state == Asking
    ensures !Expires(e, servers) ==> Left(Checked(e, servers), servers) == Left(e, servers) - 1
    ensures Expires(e, servers) ==> Checked(e, servers).state == Unused
  {
    ReachMeaning(servers, e.numdns);
  }

  function Calls(calls: seq<nat>, id: nat): nat {
    if calls == [] then 0 else Calls(calls[..|calls| - 1], id) + if calls[|calls| - 1] == id then 1 else 0
  }

  lemma CallsGrow(calls: seq<nat>, x: nat, id: nat)
    ensures Calls(calls + [x], id) == Calls(calls, id) + if x == id then 1 else 0
  {
    assert (calls + [x])[..|calls|] == calls;
  }

  /** The queries so far: whether each has a callback, when it came, and where it was entered. */
  datatype Query = Query(found: bool, born: nat, slot: nat)

  /** The entry in slot `i` is what its query has become `now`, or one second later for the slots
    * below `ticked`, which this second's check has reached already. Its callback has not been called,
    * and will be, at the latest, seven seconds per server after the query came. */
  ghost predicate Slot(t: seq<Entry>, qs: seq<Query>, calls: seq<nat>, servers: Servers, now: nat, ticked: nat, i: nat)
    requires i < |t|
  {
    var e := t[i];
    && e.state != New
    && (e.state == Asking ==>
          && e.id < |qs| && qs[e.id].slot == i && qs[e.id].found == e.found && Calls(calls, e.id) == 0
          && Counting(e, servers)
          && (if i < ticked then now + 1 else now) + Left(e, servers) == qs[e.id].born + 7 * Reach(servers))
  }

  /** The callback of query `id` is called once, but not while it is asked for. */
  ghost predicate Called(t: seq<Entry>, qs: seq<Query>, calls: seq<nat>, id: nat) {
    && Calls(calls, id) <= 1
    && (Calls(calls, id) == 1 ==> id < |qs| && qs[id].found)
    && (id < |qs| && qs[id].found && Calls(calls, id) == 0 ==>
          qs[id].slot < |t| && t[qs[id].slot].state == Asking && t[qs[id].slot].id == id)
  }

  ghost predicate Books(t: seq<Entry>, qs: seq<Query>, calls: seq<nat>, servers: Servers, now: nat, ticked: nat) {
    && (forall i {:trigger Slot(t, qs, calls, servers, now, ticked, i)} | 0 <= i < |t| ::
          Slot(t, qs, calls, servers, now, ticked, i))
    && forall id {:trigger Called(t, qs, calls, id)} :: Called(t, qs, calls, id)
  }

  /** What was promised: at most one call, ever; and exactly one, for a query with a callback that
    * came seven seconds per server ago or more. */
  lemma Deadline(t: seq<Entry>, qs: seq<Query>, calls: seq<nat>, servers: Servers, now: nat, id: nat)
    requires Books(t, qs, calls, servers, now, 0)
    ensures Calls(calls, id) <= 1
    ensures id < |qs| && qs[id].found && now >= qs[id].born + 7 * Reach(servers) ==> Calls(calls, id) == 1
  {
    assert Called(t, qs, calls, id);
    if id < |qs| && qs[id].found && Calls(calls, id) == 0 {
      var i := qs[id].slot;
      assert Slot(t, qs, calls, servers, now, 0, i);
      CheckCounts(t[i], servers);
    }
  }

  lemma BooksClose(t: seq<Entry>, qs: seq<Query>, calls: seq<nat>, servers: Servers, now: nat, ticked: nat, i: nat,
                   e: Entry, calls': seq<nat>, ticked': nat)
    requires Books(t, qs, calls, servers, now, ticked) && i < |t| && t[i].state == Asking
    requires e.state != Asking && e.state != New && calls' == if t[i].found then calls + [t[i].id] else calls
    requires ticked' == ticked || (ticked == i && ticked' == i + 1)
    ensures Books(t[i := e], qs, calls', servers, now, ticked')
  {
    var t' := t[i := e];
    assert Slot(t, qs, calls, servers, now, ticked, i);
    forall j | 0 <= j < |t'|
      ensures Slot(t', qs, calls', servers, now, ticked', j)
    {
      CallsGrow(calls, t[i].id, t[j].id);
      assert Slot(t, qs, calls, servers, now, ticked, j);
    }
    forall id: nat ensures Called(t', qs, calls', id) {
      assert Called(t, qs, calls, id);
      CallsGrow(calls, t[i].id, id);
    }
  }

  lemma BooksGoOn(t: seq<Entry>, qs: seq<Query>, calls: seq<nat>, servers: Servers, now: nat, i: nat, e: Entry)
    requires Books(t, qs, calls, servers, now, i) && i < |t|
    requires t[i].state == Asking ==>
               e.state == Asking && e.id == t[i].id && e.found == t[i].found && Counting(e, servers)
               && Left(e, servers) == Left(t[i], servers) - 1
    requires t[i].state != Asking ==> e.state != Asking && e.state != New
    ensures Books(t[i := e], qs, calls, servers, now, i + 1)
  {
    var t' := t[i := e];
    var next := i + 1;
    forall j | 0 <= j < |t'|
      ensures Slot(t', qs, calls, servers, now, next, j)
    {
      assert Slot(t, qs, calls, servers, now, i, j);
    }
    forall id: nat ensures Called(t', qs, calls, id) {
      assert Called(t, qs, calls, id);
    }
  }

  lemma BooksOpen(t: seq<Entry>, qs: seq<Query>, calls: seq<nat>, servers: Servers, now: nat, i: nat, e: Entry)
    requires Books(t, qs, calls, servers, now, 0) && i < |t| && t[i].state != Asking
    requires e.state == Asking && e.id == |qs| && e.numdns == 0 && e.tmr == 1 && e.retries == 0
    ensures Books(t[i := e], qs + [Query(e.found, now, i)], calls, servers, now, 0)
  {
    var t', qs' := t[i := e], qs + [Query(e.found, now, i)];
    assert Called(t, qs, calls, |qs|);
    forall j | 0 <= j < |t'|
      ensures Slot(t', qs', calls, servers, now, 0, j)
    {
      assert Slot(t, qs, calls, servers, now, 0, j);
    }
    forall id: nat ensures Called(t', qs', calls, id) {
      assert Called(t, qs, calls, id);
    }
  }

  /** An answer to the query in some slot, as dns_recv sees it: not worth reading; refusing, for
    * another name or without an address; or good, for so many seconds. */
  datatype Answer = Unread | Bad | Good(ttl: nat)

  /** What the answer makes of an entry that waits for it. */
  function Heard(e: Entry, answer: Answer): Entry {
    match answer
    case Unread => e
    case Bad => e.(state := Unused, found := false)
    case Good(ttl) => e.(state := Completed, ttl := if ttl > DNS_MAX_TTL then DNS_MAX_TTL else ttl)
  }

  /** Whose callbacks a second calls, in the first `n` slots. */
  function Expiring(t: seq<Entry>, servers: Servers, n: nat): seq<nat>
    requires n <= |t|
  {
    if n == 0 then []
    else Expiring(t, servers, n - 1)
         + if Expires(t[n - 1], servers) && t[n - 1].found then [t[n - 1].id] else []
  }

  /** A slot that dns_enqueue may take: the lowest unused one; failing that, a completed one that is
    * as old as any, by the sequence numbers as they are, or slot 0. */
  predicate MayTake(t: seq<Entry>, seqno: nat, k: nat) {
    && k < |t|
    && if t[k].state == Unused then forall j | 0 <= j < k :: t[j].state != Unused
       else
         && t[k].state == Completed && (forall j | 0 <= j < |t| :: t[j].state != Unused)
         && forall j | 0 <= j < |t| && t[j].state == Completed ::
              t[j].seqno < seqno ==> seqno - t[j].seqno <= seqno - t[k].seqno
  }

  /** The first such slot is taken. */
  predicate Takes(t: seq<Entry>, seqno: nat, k: nat) {
    MayTake(t, seqno, k) && forall j | 0 <= j < k :: !MayTake(t, seqno, j)
  }

  /** It fails if no entry is unused and every completed one has a sequence number that is not below the
    * next, unless slot 0 is completed. */
  predicate CanTake(t: seq<Entry>, seqno: nat)
    requires t != []
  {
    || t[0].state == Completed
    || exists j | 0 <= j < |t| :: t[j].state == Unused || (t[j].state == Completed && t[j].seqno < seqno)
  }

  /** Which slot that is: the lowest unused one; if there is none, of the completed entries whose numbers are
    * below the next one the first with the lowest; and if there is no such, slot 0. */
  lemma TakesMeaning(t: seq<Entry>, seqno: nat, k: nat)
    requires Takes(t, seqno, k)
    ensures k < |t| && (t[k].state == Unused || t[k].state == Completed)
    ensures (exists j | 0 <= j < |t| :: t[j].state == Unused) ==>
              t[k].state == Unused && forall j | 0 <= j < k :: t[j].state != Unused
    ensures (forall j | 0 <= j < |t| :: t[j].state != Unused) ==>
              forall j | 0 <= j < |t| && t[j].state == Completed && t[j].seqno < seqno ::
                t[k].seqno <= t[j].seqno && (t[k].seqno == t[j].seqno ==> k <= j)
    ensures (t[k].state == Completed && t[0].state == Completed
             && forall j | 0 <= j < |t| && t[j].state == Completed :: t[j].seqno >= seqno) ==> k == 0
  {
    if t[k].state == Completed {
      forall j | 0 <= j < k && t[j].state == Completed && t[j].seqno < seqno ensures t[k].seqno < t[j].seqno {
        assert !MayTake(t, seqno, j);
        assert t[k].seqno <= t[j].seqno;
      }
      assert k > 0 ==> !MayTake(t, seqno, 0);
    }
  }

  class Resolver {
    const table: array<Entry>
    const servers: Servers
    var seqno: nat

    /** All queries, the callbacks that were called, and the seconds that have passed. */
    ghost var queries: seq<Query>
    ghost var calls: seq<nat>
    ghost var now: nat

    /** An id for the argument of the next callback. */
    var ids: nat

    ghost predicate Valid()
      reads this, table
    {
      && 0 < table.Length && ids == |queries|
      && Books(table[..], queries, calls, servers, now, 0)
    }

    constructor (size: nat, servers: Servers)
      requires size > 0
      ensures Valid() && queries == [] && calls == [] && now == 0 && this.servers == servers && fresh(table)
      ensures seqno == 0 && table.Length == size && forall i | 0 <= i < size :: table[i].state == Unused
    {
      table := new Entry[size](_ => Entry(Unused, 0, 0, 0, 0, 0, false, 0));
      this.servers, seqno, ids := servers, 0, 0;
      queries, calls, now := [], [], 0;
    }

    /** The callback of slot `i`, if there is one. */
    method Call(i: nat)
      requires i < table.Length
      modifies `calls
      ensures calls == if table[i].found then old(calls) + [table[i].id] else old(calls)
    {
      if table[i].found {
        calls := calls + [table[i].id];
      }
    }

    /** dns_check_entry. */
    method CheckEntry(i: nat)
      requires i < table.Length
      modifies table, `calls
      ensures table[..] == old(table[..])[i := Checked(old(table[i]), servers)]
      ensures calls == if old(Expires(table[i], servers) && table[i].found) then old(calls) + [old(table[i].id)]
                       else old(calls)
    {
      var e := table[i];
      match e.state {
        case New =>
          table[i] := e.(state := Asking, numdns := 0, tmr := 1, retries := 0);
        case Asking =>
          var tmr := if e.tmr == 0 then 0xFF else e.tmr - 1;
          table[i] := e.(tmr := tmr);
          if tmr == 0 {
            var retries := e.retries + 1;
            table[i] := table[i].(retries := retries);
            if retries == DNS_MAX_RETRIES {
              if e.numdns + 1 < |servers| && servers[e.numdns + 1] {
                table[i] := table[i].(numdns := e.numdns + 1, tmr := 1, retries := 0);
              } else {
                Call(i);
                table[i] := table[i].(state := Unused, found := false);
              }
            } else {
              table[i] := table[i].(tmr := retries);
            }
          }
        case Completed =>
          var ttl := if e.ttl == 0 then 0xFFFF_FFFF else e.ttl - 1;
          table[i] := e.(ttl := ttl);
          if ttl == 0 {
            table[i] := table[i].(state := Unused, found := false);
          }
        case Unused =>
      }
    }

    /** The check of slot `i`, when those below it are checked. */
    method CheckSlot(i: nat)
      requires i < table.Length && Books(table[..], queries, calls, servers, now, i)
      modifies table, `calls
      ensures Books(table[..], queries, calls, servers, now, i + 1)
      ensures table[..] == old(table[..])[i := Checked(old(table[i]), servers)]
      ensures calls == if old(Expires(table[i], servers) && table[i].found) then old(calls) + [old(table[i].id)]
                       else old(calls)
    {
      ghost var t, cs := table[..], calls;
      assert Slot(t, queries, cs, servers, now, i, i);
      if t[i].state == Asking {
        CheckCounts(t[i], servers);
      }
      if Expires(t[i], servers) {
        BooksClose(t, queries, cs, servers, now, i, i, Checked(t[i], servers),
                   if t[i].found then cs + [t[i].id] else cs, i + 1);
      } else {
        BooksGoOn(t, queries, cs, servers, now, i, Checked(t[i], servers));
      }
      CheckEntry(i);
    }

    /** The loop of dns_check_entries. */
    method CheckAll()
      requires Books(table[..], queries, calls, servers, now, 0)
      modifies table, `calls
      ensures Books(table[..], queries, calls, servers, now, |table[..]|)
      ensures forall i | 0 <= i < table.Length :: table[i] == Checked(old(table[i]), servers)
      ensures calls == old(calls) + Expiring(old(table[..]), servers, table.Length)
    {
      ghost var was := table[..];
      for i := 0 to table.Length
        invariant Books(table[..], queries, calls, servers, now, i)
        invariant calls == old(calls) + Expiring(was, servers, i)
        invariant forall j | 0 <= j < table.Length :: table[j] == if j < i then Checked(was[j], servers) else was[j]
      {
        CheckSlot(i);
      }
    }

    /** dns_tmr, once a second. */
    method CheckEntries()
      requires Valid()
      modifies table, `calls, `now
      ensures Valid() && now == old(now) + 1
      ensures forall i | 0 <= i < table.Length :: table[i] == Checked(old(table[i]), servers)
      ensures calls == old(calls) + Expiring(old(table[..]), servers, table.Length)
    {
      CheckAll();
      BooksNextSecond(table[..], queries, calls, servers, now);
      now := now + 1;
    }

    /** dns_recv. */
    method Recv(i: nat, answer: Answer)
      requires Valid()
      modifies table, `calls
      ensures Valid()
      ensures if i < table.Length && old(table[i]).state == Asking && answer != Unread
              then calls == (if old(table[i]).found then old(calls) + [old(table[i]).id] else old(calls))
                   && table[..] == old(table[..])[i := Heard(old(table[i]), answer)]
                   && table[i].state == (if answer == Bad then Unused else Completed)
                   && (answer.Good? ==> table[i] == old(table[i]).(state := Completed, ttl := table[i].ttl)
                                        && table[i].ttl == if answer.ttl > 604800 then 604800 else answer.ttl)
              else table[..] == old(table[..]) && calls == old(calls)
    {
      if answer == Unread || i >= table.Length || table[i].state != Asking {
        return;
      }
      ghost var t, cs := table[..], calls;
      table[i] := table[i].(state := Completed);
      if answer.Good? {
        table[i] := table[i].(ttl := if answer.ttl > DNS_MAX_TTL then DNS_MAX_TTL else answer.ttl);
        Call(i);
      } else {
        Call(i);
        table[i] := table[i].(state := Unused, found := false);
      }
      BooksClose(t, queries, cs, servers, now, 0, i, table[i], calls, 0);
      assert table[..] == t[i := table[i]];
    }

    /** dns_enqueue. Whatever entry it takes, nobody was waiting for it. */
    method Enqueue(found: bool) returns (ok: bool, ghost k: nat)
      requires Valid()
      modifies this, table
      ensures Valid() && now == old(now) && calls == old(calls)
      ensures ok == CanTake(old(table[..]), old(seqno))
      ensures ok <==>
              || old(table[0]).state == Completed
              || exists j | 0 <= j < table.Length ::
                   old(table[j]).state == Unused
                   || (old(table[j]).state == Completed && old(table[j]).seqno < old(seqno))
      ensures if ok then
                && Takes(old(table[..]), old(seqno), k)
                && queries == old(queries) + [Query(found, now, k)] && seqno == (old(seqno) + 1) % 256
                && table[k] == Entry(Asking, 0, 1, 0, old(seqno), old(table[k]).ttl, found, |old(queries)|)
                && table[..] == old(table[..])[k := table[k]]
              else queries == old(queries) && table[..] == old(table[..]) && seqno == old(seqno)
    {
      var i, lseq, lseqi := 0, 0, 0;
      while i < table.Length && table[i].state != Unused
        invariant i <= table.Length && lseqi < table.Length && lseq >= 0
        invariant forall j | 0 <= j < i :: table[j].state != Unused
        invariant forall j | 0 <= j < i && table[j].state == Completed :: seqno - table[j].seqno <= lseq
        invariant lseq > 0 ==> forall j | 0 <= j < lseqi && table[j].state == Completed :: seqno - table[j].seqno < lseq
        invariant if lseq == 0 then lseqi == 0
                  else table[lseqi].state == Completed && lseq == seqno - table[lseqi].seqno
      {
        if table[i].state == Completed && seqno - table[i].seqno > lseq {
          lseq, lseqi := seqno - table[i].seqno, i;
        }
        i := i + 1;
      }
      if i == table.Length {
        if table[lseqi].state != Completed {
          return false, 0;
        }
        i := lseqi;
      }
      k := i;
      ghost var t, cs := table[..], calls;
      assert Slot(t, queries, cs, servers, now, 0, k);
      table[i] := table[i].(state := New, seqno := seqno, found := found, id := ids);
      seqno, ids := (seqno + 1) % 256, ids + 1;
      CheckEntry(i);
      assert table[..] == t[i := table[i]];
      BooksOpen(t, queries, cs, servers, now, i, table[i]);
      queries := queries + [Query(found, now, i)];
      ok := true;
    }
  }

  lemma BooksNextSecond(t: seq<Entry>, qs: seq<Query>, calls: seq<nat>, servers: Servers, now: nat)
    requires Books(t, qs, calls, servers, now, |t|)
    ensures Books(t, qs, calls, servers, now + 1, 0)
  {
    var next := now + 1;
    forall i | 0 <= i < |t| ensures Slot(t, qs, calls, servers, next, 0, i) {
      assert Slot(t, qs, calls, servers, now, |t|, i);
    }
  }

  datatype Event = Asked(found: bool) | Second | Answered(slot: nat, answer: Answer)

  /** A resolver between two events. */
  datatype View = View(table: seq<Entry>, seqno: nat, queries: seq<Query>, calls: seq<nat>, now: nat)

  ghost function Look(r: Resolver): View
    reads r, r.table
  {
    View(r.table[..], r.seqno, r.queries, r.calls, r.now)
  }

  /** A query that goes into slot `k`. */
  function Entered(v: View, k: nat, found: bool): View
    requires k < |v.table|
  {
    v.(table := v.table[k := Entry(Asking, 0, 1, 0, v.seqno, v.table[k].ttl, found, |v.queries|)],
       seqno := (v.seqno + 1) % 256, queries := v.queries + [Query(found, v.now, k)])
  }

  /** What an event does. */
  ghost predicate Moves(servers: Servers, v: View, e: Event, w: View) {
    match e
    case Asked(found) =>
      if v.table != [] && CanTake(v.table, v.seqno)
      then exists k: nat :: Takes(v.table, v.seqno, k) && w == Entered(v, k, found)
      else w == v
    case Second =>
      && |w.table| == |v.table| && (forall i | 0 <= i < |v.table| :: w.table[i] == Checked(v.table[i], servers))
      && w == View(w.table, v.seqno, v.queries, v.calls + Expiring(v.table, servers, |v.table|), v.now + 1)
    case Answered(slot, answer) =>
      if slot < |v.table| && v.table[slot].state == Asking && answer != Unread
      then
        var x := v.table[slot];
        w == v.(table := v.table[slot := Heard(x, answer)], calls := if x.found then v.calls + [x.id] else v.calls)
      else w == v
  }

  /** The events leave no choice. */
  lemma MovesOneWay(servers: Servers, v: View, e: Event, w: View, x: View)
    requires Moves(servers, v, e, w) && Moves(servers, v, e, x)
    ensures w == x
  {
    if e.Second? {
      assert w.table == x.table;
    } else if e.Asked? && v.table != [] && CanTake(v.table, v.seqno) {
      var k: nat :| Takes(v.table, v.seqno, k) && w == Entered(v, k, e.found);
      var j: nat :| Takes(v.table, v.seqno, j) && x == Entered(v, j, e.found);
      assert j == k;
    }
  }

  method Handle(r: Resolver, e: Event)
    requires r.Valid()
    modifies r, r.table
    ensures r.Valid() && Moves(r.servers, old(Look(r)), e, Look(r))
  {
    match e
    case Asked(found) => var ok, k := r.Enqueue(found);
    case Second => r.CheckEntries();
    case Answered(slot, answer) => r.Recv(slot, answer);
  }

  /** `views` are what the first `k` events make of an empty table. */
  ghost predicate Happened(size: nat, servers: Servers, events: seq<Event>, views: seq<View>, k: nat)
    requires k <= |events| && k < |views|
  {
    if k == 0 then
      && views[0] == View(views[0].table, 0, [], [], 0) && |views[0].table| == size
      && forall i | 0 <= i < size :: views[0].table[i].state == Unused
    else Happened(size, servers, events, views, k - 1) && Moves(servers, views[k - 1], events[k - 1], views[k])
  }

  lemma {:induction false} HappenedMore(size: nat, servers: Servers, events: seq<Event>, views: seq<View>, v: View,
                                        k: nat)
    requires k <= |events| && k < |views| && Happened(size, servers, events, views, k)
    ensures Happened(size, servers, events, views + [v], k)
  {
    var all := views + [v];
    assert all[k] == views[k];
    if k > 0 {
      HappenedMore(size, servers, events, views, v, k - 1);
      assert all[k - 1] == views[k - 1];
    }
  }

  /** The seconds among the first `k` events. */
  function Seconds(events: seq<Event>, k: nat): nat
    requires k <= |events|
  {
    if k == 0 then 0 else Seconds(events, k - 1) + if events[k - 1].Second? then 1 else 0
  }

  /** Any run: the resolver is as the events make it, no callback is called twice, and each is called
    * within seven seconds for every server in reach. */
  method Run(size: nat, servers: Servers, events: seq<Event>) returns (r: Resolver, ghost views: seq<View>)
    requires size > 0
    ensures r.Valid() && r.servers == servers
    ensures |views| == |events| + 1 && Happened(size, servers, events, views, |events|) && views[|events|] == Look(r)
    ensures r.now == Seconds(events, |events|)
    ensures forall id :: Calls(r.calls, id) <= 1
    ensures forall id | 0 <= id < |r.queries| && r.queries[id].found
                        && r.now >= r.queries[id].born + 7 * Reach(servers) :: Calls(r.calls, id) == 1
  {
    r := new Resolver(size, servers);
    views := [Look(r)];
    for k := 0 to |events|
      invariant fresh(r) && fresh(r.table) && r.Valid() && r.servers == servers
      invariant |views| == k + 1 && Happened(size, servers, events, views, k) && views[k] == Look(r)
      invariant r.now == Seconds(events, k)
    {
      Handle(r, events[k]);
      HappenedMore(size, servers, events, views, Look(r), k);
      views := views + [Look(r)];
    }
    forall id: nat
      ensures Calls(r.calls, id) <= 1
      ensures id < |r.queries| && r.queries[id].found && r.now >= r.queries[id].born + 7 * Reach(servers)
              ==> Calls(r.calls, id) == 1
    {
      Deadline(r.table[..], r.queries, r.calls, servers, r.now, id);
    }
  }

  // ---------------------------------------------------------------- how long an answer stays

  /** An entry after `n` checks. */
  function ChecksOn(e: Entry, servers: Servers, n: nat): Entry {
    if n == 0 then e else Checked(ChecksOn(e, servers, n - 1), servers)
  }

  /** A completed entry is there for as many seconds as its time to live says, and then it is unused. But the
    * 32-bit counter is lowered before it is looked at: an answer that must not be kept at all, with a time to
    * live of 0, is kept for 2^32 seconds. */
  lemma {:induction false} AnswerStays(e: Entry, servers: Servers, n: nat)
    requires e.state == Completed
    requires n <= if e.ttl == 0 then 0x1_0000_0000 else e.ttl
    ensures var life := if e.ttl == 0 then 0x1_0000_0000 else e.ttl;
            if n < life then ChecksOn(e, servers, n) == e.(ttl := if n == 0 then e.ttl else life - n)
            else ChecksOn(e, servers, n) == e.(state := Unused, ttl := 0, found := false)
  {
    if n > 0 {
      AnswerStays(e, servers, n - 1);
    }
  }

  lemma {:induction false} StaysAnswered(e: Entry, servers: Servers, n: nat)
    requires e.state == Completed
    ensures ChecksOn(e, servers, n).state == Completed || ChecksOn(e, servers, n).state == Unused
  {
    if n > 0 {
      StaysAnswered(e, servers, n - 1);
    }
  }

  /** From event `i` to event `j` the run goes on, and no query takes `slot`. */
  ghost predicate Untaken(servers: Servers, events: seq<Event>, views: seq<View>, i: nat, j: nat, slot: nat)
    requires i <= j < |views| && |views| == |events| + 1
    decreases j
  {
    i == j
    || (Untaken(servers, events, views, i, j - 1, slot)
        && Moves(servers, views[j - 1], events[j - 1], views[j])
        && (events[j - 1].Asked? ==> !Takes(views[j - 1].table, views[j - 1].seqno, slot)))
  }

  /** Over a run, an entry that is completed is what its seconds have made of it, as long as no query takes its
    * slot; other answers do not touch it. */
  lemma {:induction false} CachedOverRun(servers: Servers, events: seq<Event>, views: seq<View>, i: nat, j: nat,
                                         slot: nat)
    requires i <= j < |views| && |views| == |events| + 1 && Untaken(servers, events, views, i, j, slot)
    requires slot < |views[i].table| && views[i].table[slot].state == Completed
    ensures slot < |views[j].table| && Seconds(events, i) <= Seconds(events, j)
    ensures views[j].table[slot] == ChecksOn(views[i].table[slot], servers, Seconds(events, j) - Seconds(events, i))
    decreases j
  {
    if i < j {
      var k := j - 1;
      CachedOverRun(servers, events, views, i, k, slot);
      StaysAnswered(views[i].table[slot], servers, Seconds(events, k) - Seconds(events, i));
      CachedStep(servers, views[k], events[k], views[j], slot);
    }
  }

  lemma CachedStep(servers: Servers, v: View, e: Event, w: View, slot: nat)
    requires Moves(servers, v, e, w) && slot < |v.table| && v.table[slot].state != Asking
    requires e.Asked? ==> !Takes(v.table, v.seqno, slot)
    ensures slot < |w.table|
    ensures w.table[slot] == if e.Second? then Checked(v.table[slot], servers) else v.table[slot]
  {
  }

  /** dns_enqueue refuses a query although an entry is completed: its sequence number is higher than the
    * next one, which has come round to 0. No second has passed. */
  method Refuses(servers: Servers) returns (r: Resolver, ok: bool)
    ensures r.Valid() && !ok && r.table.Length == 2 && r.table[1].state == Completed && r.now == 0
  {
    r := new Resolver(2, servers);
    AskInVain(r, 200);
    OneAnswered(r);
    AskInVain(r, 54);
    AskAt(r, 0);
    ghost var k;
    ok, k := r.Enqueue(false);
  }

  /** Of two queries, the second is answered and the first is refused. */
  method OneAnswered(r: Resolver)
    requires r.Valid() && r.table.Length == 2 && r.table[0].state == r.table[1].state == Unused && r.seqno < 250
    modifies r, r.table
    ensures r.Valid() && r.table[0].state == Unused && r.seqno == old(r.seqno) + 2 && r.now == old(r.now)
    ensures r.table[1].state == Completed && r.table[1].seqno == old(r.seqno) + 1
  {
    AskAt(r, 0);
    AskAt(r, 1);
    r.Recv(1, Good(600));
    r.Recv(0, Bad);
  }

  /** A query that goes into slot `i`, the lowest unused one. */
  method AskAt(r: Resolver, i: nat)
    requires r.Valid() && i < r.table.Length && r.table[i].state == Unused && r.seqno < 256
    requires forall j | 0 <= j < i :: r.table[j].state != Unused
    modifies r, r.table
    ensures r.Valid() && r.table[i].state == Asking && r.table[i].seqno == old(r.seqno)
    ensures r.seqno == (old(r.seqno) + 1) % 256 && r.now == old(r.now)
    ensures forall j | 0 <= j < r.table.Length && j != i :: r.table[j] == old(r.table[j])
  {
    var ok, k := r.Enqueue(false);
  }

  /** `n` queries, one after the other, that are all refused by the server. */
  method AskInVain(r: Resolver, n: nat)
    requires r.Valid() && r.table[0].state == Unused && r.seqno < 256
    modifies r, r.table
    ensures r.Valid() && r.table[0].state == Unused && r.seqno == (old(r.seqno) + n) % 256 && r.now == old(r.now)
    ensures forall i | 0 < i < r.table.Length :: r.table[i] == old(r.table[i])
  {
    for i := 0 to n
      invariant r.Valid() && r.table[0].state == Unused && r.now == old(r.now)
      invariant r.seqno == (old(r.seqno) + i) % 256
      invariant forall i | 0 < i < r.table.Length :: r.table[i] == old(r.table[i])
    {
      AskAt(r, 0);
      r.Recv(0, Bad);
    }
  }
}
