/** The doubly linked list `select_cb_list` of lwip/src/api/sockets.c. */
module SelectList {
  import opened Basics

  function RemoveAt<T>(list: seq<T>, k: nat): (r: seq<T>)
    requires k < |list|
    ensures |r| == |list| - 1
    ensures forall i | 0 <= i < |r| :: r[i] == list[if i < k then i else i + 1]
  {
    list[..k] + list[k + 1..]
  }

  lemma RemoveAtMeaning<T>(list: seq<T>, k: nat)
    requires NoDup(list) && k < |list|
    ensures NoDup(RemoveAt(list, k))
    ensures forall x :: x in RemoveAt(list, k) <==> x in list && x != list[k]
  {
    var r := RemoveAt(list, k);
    forall x ensures x in r <==> x in list && x != list[k] {
      if x in list && x != list[k] {
        var i :| 0 <= i < |list| && list[i] == x;
        assert r[if i < k then i else i - 1] == x;
      }
    }
  }

  /** struct lwip_select_cb, the links only. */
  class SelectCb {
    var next: SelectCb?
    var prev: SelectCb?

    constructor ()
      ensures next == null && prev == null
    {
      next, prev := null, null;
    }
  }

  class List {
    /** select_cb_list and select_cb_ctr. */
    var head: SelectCb?
    var ctr: nat

    ghost var list: seq<SelectCb>

    /** The entry at `i` is linked to its neighbours. */
    ghost predicate LinkedAt(i: nat)
      requires i < |list|
      reads this`list, list
    {
      && list[i].next == (if i + 1 < |list| then list[i + 1] else null)
      && list[i].prev == (if i > 0 then list[i - 1] else null)
    }

    ghost predicate Valid()
      reads this`head, this`list, list
    {
      && NoDup(list)
      && head == (if list == [] then null else list[0])
      && forall i {:trigger LinkedAt(i)} | 0 <= i < |list| :: LinkedAt(i)
    }

    constructor ()
      ensures Valid() && list == [] && ctr == 0
    {
      head, ctr, list := null, 0, [];
    }

    /** lwip_select puts its entry on top of the list. */
    method Add(cb: SelectCb)
      requires Valid() && cb !in list
      modifies this, cb, list
      ensures Valid() && list == [cb] + old(list) && ctr == old(ctr) + 1
    {
      ghost var L := list;
      assert L != [] ==> LinkedAt(0);
      assert forall i | 0 <= i < |L| :: old(LinkedAt(i));
      list := [cb] + L;
      cb.next, cb.prev := null, null;
      cb.next := head;
      if head != null {
        head.prev := cb;
      }
      head := cb;
      ctr := ctr + 1;
      forall i | 0 <= i < |list|
        ensures LinkedAt(i)
      {
        assert i > 0 ==> list[i] == L[i - 1] && old(LinkedAt(i - 1));
      }
    }

    /** lwip_select takes its entry off the list. */
    method Remove(cb: SelectCb) returns (ghost k: nat)
      requires Valid() && cb in list
      modifies this, list
      ensures Valid() && k < |old(list)| && old(list)[k] == cb
      ensures list == RemoveAt(old(list), k) && ctr == old(ctr) + 1
    {
      ghost var L := list;
      k :| 0 <= k < |L| && L[k] == cb;
      assert LinkedAt(k);
      RemoveAtMeaning(L, k);
      assert forall i | 0 <= i < |L| :: old(LinkedAt(i));
      list := RemoveAt(L, k);
      if cb.next != null {
        cb.next.prev := cb.prev;
      }
      if head == cb {
        head := cb.next;
      } else {
        cb.prev.next := cb.next;
      }
      ctr := ctr + 1;
      forall i | 0 <= i < |list|
        ensures LinkedAt(i)
      {
        assert old(LinkedAt(if i < k then i else i + 1));
      }
    }
  }
}
