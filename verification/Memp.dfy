/** The element pools of lwip/src/core/memp.c: free lists threaded through the elements, and the
  * check that none of them has become a circle. */
module Memp {
  import opened Basics

  /** A pointer to an element, which is a number. */
  datatype Link = Null | To(e: nat)

  /** All pointers stay within the `n` elements there are. */
  predicate Inside(l: Link, n: nat) {
    l.To? ==> l.e < n
  }

  ghost predicate Closed(next: seq<Link>) {
    forall i | 0 <= i < |next| :: Inside(next[i], |next|)
  }

  /** Where `k` steps along the list lead; NULL leads nowhere. */
  function Walk(next: seq<Link>, l: Link, k: nat): (r: Link)
    requires Closed(next) && Inside(l, |next|)
    ensures Inside(r, |next|)
    decreases k
  {
    if k == 0 || l.Null? then l else Walk(next, next[l.e], k - 1)
  }

  /** The list comes back to an element. */
  ghost predicate Returns(next: seq<Link>, l: Link, i: nat, j: nat)
    requires Closed(next) && Inside(l, |next|)
  {
    i < j && Walk(next, l, i).To? && Walk(next, l, i) == Walk(next, l, j)
  }

  ghost predicate Cyclic(next: seq<Link>, l: Link)
    requires Closed(next) && Inside(l, |next|)
  {
    exists i, j :: Returns(next, l, i, j)
  }

  lemma {:induction false} WalkOn(next: seq<Link>, l: Link, i: nat, j: nat)
    requires Closed(next) && Inside(l, |next|)
    ensures Walk(next, l, i + j) == Walk(next, Walk(next, l, i), j)
    decreases i
  {
    if i > 0 && l.To? {
      WalkOn(next, next[l.e], i - 1, j);
    }
  }

  /** After a return, every `m` times the period is one. */
  lemma {:induction false} Period(next: seq<Link>, l: Link, i: nat, d: nat, m: nat, k: nat)
    requires Closed(next) && Inside(l, |next|) && Walk(next, l, i) == Walk(next, l, i + d) && i <= k
    ensures Walk(next, l, k + m * d) == Walk(next, l, k)
  {
    if m > 0 {
      var j := k + (m - 1) * d;
      Period(next, l, i, d, m - 1, k);
      WalkOn(next, l, i, j - i);
      WalkOn(next, l, i + d, j - i);
      assert i + d + (j - i) == k + m * d by {
        assert (m - 1) * d + d == m * d;
      }
    }
  }

  lemma NullStays(next: seq<Link>, l: Link, i: nat, j: nat)
    requires Closed(next) && Inside(l, |next|) && i <= j && Walk(next, l, i).Null?
    ensures Walk(next, l, j).Null?
  {
    WalkOn(next, l, i, j - i);
  }

  lemma CyclicNeverEnds(next: seq<Link>, l: Link, i: nat, j: nat, k: nat)
    requires Closed(next) && Inside(l, |next|) && Returns(next, l, i, j)
    ensures Walk(next, l, k).To?
  {
    Period(next, l, i, j - i, k, i);
    AtLeast(k, j - i);
    if Walk(next, l, k).Null? {
      NullStays(next, l, k, i + k * (j - i));
    }
  }

  lemma AtLeast(k: nat, d: nat)
    requires d > 0
    ensures k * d >= k
  {
  }

  lemma {:induction false} BelowBound(s: set<nat>, n: nat)
    requires forall x | x in s :: x < n
    ensures |s| <= n
  {
    if n == 0 {
      assert s == {};
    } else {
      BelowBound(s - {n - 1}, n - 1);
    }
  }

  lemma {:induction false} DistinctBound(s: seq<nat>, n: nat) returns (all: set<nat>)
    requires forall i | 0 <= i < |s| :: s[i] < n
    requires forall i, j | 0 <= i < j < |s| :: s[i] != s[j]
    ensures |s| == |all| <= n && forall x :: x in all <==> x in s
  {
    all := {};
    if s != [] {
      var k := |s| - 1;
      all := DistinctBound(s[..k], n);
      all := all + {s[k]};
      assert s == s[..k] + [s[k]];
    }
    BelowBound(all, n);
  }

  /** A walk of as many steps as there are elements has met one of them twice. */
  lemma LongWalkReturns(next: seq<Link>, l: Link) returns (i: nat, j: nat)
    requires Closed(next) && Inside(l, |next|) && Walk(next, l, |next|).To?
    ensures Returns(next, l, i, j) && j <= |next|
  {
    var n := |next|;
    forall k | 0 <= k <= n ensures Walk(next, l, k).To? {
      if Walk(next, l, k).Null? {
        NullStays(next, l, k, n);
      }
    }
    var path := seq(n + 1, k requires 0 <= k <= n => Walk(next, l, k).e);
    if forall i, j | 0 <= i < j <= n :: path[i] != path[j] {
      var all := DistinctBound(path, n);
    }
    i, j :| 0 <= i < j <= n && path[i] == path[j];
  }

  /** The step at which a walker meets another that started one step ahead and is twice as fast. */
  lemma FloydMeets(next: seq<Link>, l: Link) returns (k: nat)
    requires Closed(next) && Inside(l, |next|) && Walk(next, l, |next|).To?
    ensures k < |next| && Walk(next, l, k).To? && Walk(next, l, k) == Walk(next, l, 2 * k + 1)
  {
    var i, j := LongWalkReturns(next, l);
    var d := j - i;
    var m;
    k, m := NextMultiple(i, d);
    Period(next, l, i, d, m, k);
    CyclicNeverEnds(next, l, i, j, k);
  }

  lemma {:induction false} NextMultiple(i: nat, d: nat) returns (k: nat, m: nat)
    requires d > 0
    ensures i <= k < i + d && k + 1 == m * d
  {
    if i < d {
      k, m := d - 1, 1;
    } else {
      k, m := NextMultiple(i - d, d);
      k, m := k + d, m + 1;
    }
  }

  /** One step of both walkers. */
  lemma Steps(next: seq<Link>, l: Link, k: nat)
    requires Closed(next) && Inside(l, |next|)
    ensures Walk(next, l, k).To? ==> Walk(next, l, k + 1) == next[Walk(next, l, k).e]
    ensures Walk(next, l, k).Null? ==> Walk(next, l, k + 1).Null?
  {
    WalkOn(next, l, k, 1);
  }

  /** memp_sanity, the part for one pool: `t` walks, and `h` runs. */
  method Floyd(next: array<Link>, l: Link) returns (ok: bool)
    requires Closed(next[..]) && Inside(l, next.Length)
    ensures ok == !Cyclic(next[..], l)
  {
    ghost var s := next[..];
    if l == Null {
      return true;
    }
    var t := l;
    var h := next[l.e];
    ghost var k := 0;
    assert Walk(s, l, 1) == Walk(s, s[l.e], 0);
    while t != Null && h != Null
      invariant 0 <= k <= |s| && Inside(t, |s|) && Inside(h, |s|)
      invariant t == Walk(s, l, k)
      invariant h == Walk(s, l, 2 * k + 1)
      invariant forall i | 0 <= i < k :: Walk(s, l, i) != Walk(s, l, 2 * i + 1)
      decreases |s| - k
    {
      if k == |s| {
        var m := FloydMeets(s, l);
        assert false;
      }
      if t == h {
        assert Returns(s, l, k, 2 * k + 1);
        return false;
      }
      Steps(s, l, k);
      Steps(s, l, 2 * k + 1);
      Steps(s, l, 2 * k + 2);
      t := next[t.e];
      h := if next[h.e] != Null && next[next[h.e].e] != Null then next[next[h.e].e] else Null;
      k := k + 1;
    }
    if i, j :| Returns(s, l, i, j) {
      CyclicNeverEnds(s, l, i, j, k);
      CyclicNeverEnds(s, l, i, j, 2 * k + 1);
    }
    return true;
  }

  /** The list at `l` runs through `s`. */
  ghost predicate Chain(next: seq<Link>, l: Link, s: seq<nat>)
    decreases |s|
  {
    if s == [] then l == Null else s[0] < |next| && l == To(s[0]) && Chain(next, next[s[0]], s[1..])
  }

  lemma {:induction false} ChainUnchanged(next: seq<Link>, l: Link, s: seq<nat>, e: nat, v: Link)
    requires Chain(next, l, s) && e < |next| && e !in s
    ensures Chain(next[e := v], l, s)
    decreases |s|
  {
    if s != [] {
      ChainUnchanged(next, next[s[0]], s[1..], e, v);
    }
  }

  lemma ChainTail(next: seq<Link>, l: Link, s: seq<nat>)
    requires Chain(next, l, s) && NoDup(s) && s != []
    ensures Chain(next, next[s[0]], s[1..]) && NoDup(s[1..])
    ensures forall e: nat :: e in s[1..] <==> e in s && e != s[0]
  {
    assert s == [s[0]] + s[1..];
  }

  lemma {:induction false} ChainWalk(next: seq<Link>, l: Link, s: seq<nat>, k: nat)
    requires Closed(next) && Inside(l, |next|) && Chain(next, l, s)
    ensures Walk(next, l, k) == if k < |s| then To(s[k]) else Null
    decreases k
  {
    if s != [] && k > 0 {
      ChainWalk(next, next[s[0]], s[1..], k - 1);
    }
  }

  lemma ChainEnds(next: seq<Link>, l: Link, s: seq<nat>)
    requires Closed(next) && Inside(l, |next|) && Chain(next, l, s)
    ensures !Cyclic(next, l)
  {
    if i, j :| Returns(next, l, i, j) {
      ChainWalk(next, l, s, |s|);
      CyclicNeverEnds(next, l, i, j, |s|);
    }
  }

  function Repeat(i: nat, n: nat): (r: seq<nat>)
    ensures |r| == n && forall k | 0 <= k < n :: r[k] == i
  {
    seq(n, _ => i)
  }

  /** The pool of each element, if pool `i` has `num[i]` of them. */
  function Owners(num: seq<nat>): seq<nat> {
    if num == [] then [] else Owners(num[..|num| - 1]) + Repeat(|num| - 1, num[|num| - 1])
  }

  lemma {:induction false} OwnersPrefix(num: seq<nat>, i: nat)
    requires i <= |num|
    ensures Owners(num[..i]) <= Owners(num)
    ensures forall e | 0 <= e < |Owners(num)| :: Owners(num)[e] < |num|
  {
    if i < |num| {
      OwnersPrefix(num[..|num| - 1], i);
      assert num[..|num| - 1][..i] == num[..i];
    } else {
      assert num[..i] == num;
      if num != [] {
        OwnersPrefix(num[..|num| - 1], |num| - 1);
      }
    }
  }

  lemma OwnersSnoc(num: seq<nat>, n: nat)
    ensures Owners(num + [n]) == Owners(num) + Repeat(|num|, n)
  {
    assert (num + [n])[..|num|] == num;
  }

  lemma OwnersNext(num: seq<nat>, i: nat)
    requires i < |num|
    ensures Owners(num[..i + 1]) == Owners(num[..i]) + Repeat(i, num[i])
  {
    OwnersSnoc(num[..i], num[i]);
    assert num[..i + 1] == num[..i] + [num[i]];
  }

  /** Of the elements below `e`, list `s` at `l` holds those of pool `p`. */
  ghost predicate Built(next: seq<Link>, l: Link, s: seq<nat>, owner: seq<nat>, p: nat, e: nat)
    requires e <= |owner| == |next|
  {
    && NoDup(s) && Chain(next, l, s)
    && forall x: nat :: x in s <==> x < e && owner[x] == p
  }

  lemma BuiltGrows(next: seq<Link>, l: Link, s: seq<nat>, owner: seq<nat>, p: nat, e: nat, v: Link)
    requires e < |owner| == |next| && Built(next, l, s, owner, p, e)
    ensures owner[e] != p ==> Built(next[e := v], l, s, owner, p, e + 1)
    ensures owner[e] == p && v == l ==> Built(next[e := v], To(e), [e] + s, owner, p, e + 1)
  {
    ChainUnchanged(next, l, s, e, v);
    var t := [e] + s;
    assert t[1..] == s;
    forall x: nat | owner[e] == p ensures x in t <==> x < e + 1 && owner[x] == p {
    }
  }

  /** memp_tab and the links of all elements; `owner` says to which pool an element belongs, and
    * `used` is the statistic. */
  class Pools {
    const tab: array<Link>
    const next: array<Link>
    const used: array<nat>
    ghost const owner: seq<nat>

    /** The elements of each list, and those that are handed out, by pool. */
    ghost var free: seq<seq<nat>>
    ghost var live: seq<set<nat>>

    /** Pool `p` is parted into an acyclic free list and the live elements. */
    ghost predicate Parted(p: nat)
      requires p < tab.Length == |free| == |live| == used.Length && next.Length == |owner|
      reads `free, `live, tab, next, used
    {
      && NoDup(free[p]) && Chain(next[..], tab[p], free[p]) && used[p] == |live[p]|
      && (forall e: nat :: e in free[p] ==> e < |owner| && owner[e] == p && e !in live[p])
      && (forall e: nat :: e in live[p] ==> e < |owner| && owner[e] == p)
      && (forall e | 0 <= e < |owner| && owner[e] == p :: e in free[p] || e in live[p])
    }

    ghost predicate Valid()
      reads this, tab, next, used
    {
      && tab != next && tab.Length == used.Length == |free| == |live| && next.Length == |owner|
      && (forall e | 0 <= e < |owner| :: owner[e] < tab.Length)
      && Closed(next[..]) && (forall p | 0 <= p < tab.Length :: Inside(tab[p], next.Length))
      && forall p {:trigger Parted(p)} | 0 <= p < tab.Length :: Parted(p)
    }

    /** memp_init: pool `i` gets `num[i]` elements, all of them free. */
    constructor (num: seq<nat>)
      ensures Valid() && tab.Length == |num| && owner == Owners(num)
      ensures forall p | 0 <= p < |num| :: live[p] == {}
    {
      tab, used := new Link[|num|](_ => Null), new nat[|num|](_ => 0);
      next := new Link[|Owners(num)|](_ => Null);
      owner, free, live := Owners(num), [], [];
      new;
      var e := 0;
      OwnersPrefix(num, |num|);
      for i := 0 to |num|
        invariant |free| == |live| == i && e == |Owners(num[..i])| <= next.Length
        invariant Closed(next[..]) && forall p | 0 <= p < |num| :: Inside(tab[p], next.Length)
        invariant (forall p | 0 <= p < i :: live[p] == {}) && forall p | 0 <= p < |num| :: used[p] == 0
        invariant forall p | 0 <= p < i :: Built(next[..], tab[p], free[p], owner, p, e)
      {
        e := Build(i, num, e);
      }
      assert num[..|num|] == num;
      forall p | 0 <= p < |num| ensures Parted(p) {
        assert Built(next[..], tab[p], free[p], owner, p, e);
      }
    }

    /** The part of memp_init for pool `i`, whose elements start at `start`. */
    method Build(i: nat, num: seq<nat>, start: nat) returns (e: nat)
      requires tab != next && tab.Length == |num| && i < |num| && owner == Owners(num) && |owner| == next.Length
      requires |free| == |live| == i && start == |Owners(num[..i])| <= next.Length
      requires Closed(next[..]) && forall p | 0 <= p < |num| :: Inside(tab[p], next.Length)
      requires forall p | 0 <= p < i :: Built(next[..], tab[p], free[p], owner, p, start)
      modifies `free, `live, tab, next
      ensures |free| == i + 1 && live == old(live) + [{}] && e == |Owners(num[..i + 1])| <= next.Length
      ensures Closed(next[..]) && forall p | 0 <= p < |num| :: Inside(tab[p], next.Length)
      ensures forall p | 0 <= p <= i :: Built(next[..], tab[p], free[p], owner, p, e)
    {
      OwnersNext(num, i);
      OwnersPrefix(num, i + 1);
      OwnersPrefix(num, i);
      OwnersPrefix(num[..i], i);
      e := start;
      free, live := free + [[]], live + [{}];
      tab[i] := Null;
      ghost var mid := Owners(num[..i + 1]);
      for j := 0 to num[i]
        invariant e == start + j && |free| == i + 1 && live == old(live) + [{}]
        invariant Closed(next[..]) && forall p | 0 <= p < |num| :: Inside(tab[p], next.Length)
        invariant forall p | 0 <= p <= i :: Built(next[..], tab[p], free[p], owner, p, e)
      {
        assert owner[e] == mid[e] == i;
        Add(i, e);
        e := e + 1;
      }
    }

    /** Element `e` goes on top of the list of pool `i`. */
    method Add(i: nat, e: nat)
      requires tab != next && i < tab.Length && |free| == i + 1 && e < |owner| == next.Length && owner[e] == i
      requires Closed(next[..]) && forall p | 0 <= p < tab.Length :: Inside(tab[p], next.Length)
      requires forall p | 0 <= p <= i :: Built(next[..], tab[p], free[p], owner, p, e)
      modifies `free, tab, next
      ensures |free| == i + 1
      ensures Closed(next[..]) && forall p | 0 <= p < tab.Length :: Inside(tab[p], next.Length)
      ensures forall p | 0 <= p <= i :: Built(next[..], tab[p], free[p], owner, p, e + 1)
    {
      ghost var links, before, heads, was := next[..][e := tab[i]], next[..], tab[..], free;
      forall p | 0 <= p <= i
        ensures var head, list := if p == i then To(e) else heads[p], if p == i then [e] + was[i] else was[p];
                Built(links, head, list, owner, p, e + 1)
      {
        BuiltGrows(before, heads[p], was[p], owner, p, e, heads[i]);
      }
      next[e] := tab[i];
      assert next[..] == links;
      free := free[i := [e] + free[i]];
      tab[i] := To(e);
      assert forall p | 0 <= p <= i :: tab[p] == if p == i then To(e) else heads[p];
    }

    /** memp_sanity. */
    method Sanity() returns (r: int)
      requires Closed(next[..]) && forall p | 0 <= p < tab.Length :: Inside(tab[p], next.Length)
      ensures r == if exists p :: 0 <= p < tab.Length && Cyclic(next[..], tab[p]) then 0 else 1
    {
      for i := 0 to tab.Length
        invariant forall p | 0 <= p < i :: !Cyclic(next[..], tab[p])
      {
        var ok := Floyd(next, tab[i]);
        if !ok {
          return 0;
        }
      }
      return 1;
    }

    /** memp_malloc. */
    method Malloc(p: nat) returns (e: Link)
      requires Valid()
      modifies this, tab, used
      ensures Valid()
      ensures e.To? <==> p < tab.Length && old(free)[p] != []
      ensures if e.To?
              then free == old(free)[p := old(free)[p][1..]] && live == old(live)[p := old(live)[p] + {e.e}]
                   && e.e == old(free)[p][0]
              else free == old(free) && live == old(live)
    {
      if p >= tab.Length {
        return Null;
      }
      assert Parted(p);
      e := tab[p];
      if e != Null {
        assert forall q | 0 <= q < tab.Length :: Parted(q);
        ChainTail(next[..], e, free[p]);
        free, live := free[p := free[p][1..]], live[p := live[p] + {e.e}];
        tab[p] := next[e.e];
        used[p] := used[p] + 1;
        forall q | 0 <= q < tab.Length ensures Parted(q) {
          assert old(Parted(q));
        }
      }
    }

    /** memp_free of an element that memp_malloc gave out, or of NULL. With MEMP_SANITY_CHECK it
      * asserts what memp_sanity returns. */
    method Free(p: nat, mem: Link)
      requires Valid() && (mem.To? ==> p < tab.Length && mem.e in live[p])
      modifies this, tab, next, used
      ensures Valid()
      ensures if mem.To? then
                free == old(free)[p := [mem.e] + old(free)[p]] && live == old(live)[p := old(live)[p] - {mem.e}]
              else free == old(free) && live == old(live)
    {
      if mem == Null {
        return;
      }
      var e := mem.e;
      assert Parted(p);
      assert forall q | 0 <= q < tab.Length :: Parted(q);
      ghost var links := next[..][e := tab[p]];
      ghost var before := free;
      free, live := free[p := [e] + free[p]], live[p := live[p] - {e}];
      used[p] := used[p] - 1;
      next[e] := tab[p];
      tab[p] := mem;
      assert next[..] == links;
      forall q | 0 <= q < tab.Length ensures Parted(q) {
        assert old(Parted(q));
        assert e !in before[q];
        ChainUnchanged(old(next[..]), old(tab[q]), before[q], e, old(tab[p]));
        assert free[p][1..] == before[p];
      }
      var ok := SanityHolds();
      assert ok == 1;
    }

    method SanityHolds() returns (r: int)
      requires Valid()
      ensures r == 1 && Valid()
    {
      r := Sanity();
      if p :| 0 <= p < tab.Length && Cyclic(next[..], tab[p]) {
        assert Parted(p);
        ChainEnds(next[..], tab[p], free[p]);
      }
    }
  }
}
