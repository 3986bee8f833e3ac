/** The options of a DHCP message, RFC 2132: how lwip/src/core/dhcp.c writes and reads them. */
module DhcpOptions {
  import opened Basics

  const PAD: Octet := 0
  const SUBNET_MASK: Octet := 1
  const ROUTER: Octet := 3
  const DNS_SERVER: Octet := 6
  const LEASE_TIME: Octet := 51
  const OVERLOAD: Octet := 52
  const MESSAGE_TYPE: Octet := 53
  const SERVER_ID: Octet := 54
  const T1: Octet := 58
  const T2: Octet := 59
  const END: Octet := 255

  /** DHCP_OPTION_IDX_DNS_SERVER: the entries from here on are those of the name servers. */
  const DNS := 8

  /** dhcp_rx_options_given and dhcp_rx_options_val. */
  type Table = t: seq<Option<nat>> | |t| > DNS witness seq(9, _ => None)

  datatype Result = Ok(table: Table) | Invalid

  function BigEndian(b: seq<Octet>): nat
    requires |b| == 4
  {
    (b[0] as int) * 0x100_0000 + (b[1] as int) * 0x1_0000 + (b[2] as int) * 0x100 + b[3] as int
  }

  // ---------------------------------------------------------------- what the reader does

  /** Four octets copied over `was`; what the message does not have stays as it was. */
  function Word(opts: seq<Octet>, at: nat, was: seq<Octet>): (r: seq<Octet>)
    requires |was| == 4
    ensures |r| == 4
  {
    seq(4, k requires 0 <= k < 4 => if at + k < |opts| then opts[at + k] else was[k])
  }

  /** `n` words go into the entries from `idx` on, up to one that is taken. */
  function StoreWords(opts: seq<Octet>, at: nat, n: nat, idx: nat, was: seq<Octet>, t: Table): (r: Table)
    requires |was| == 4 && idx + n <= |t|
    ensures |r| == |t|
    decreases n
  {
    if n == 0 || t[idx].Some? then t
    else
      var w := Word(opts, at, was);
      StoreWords(opts, at + 4, n - 1, idx + 1, w, t[idx := Some(BigEndian(w))])
  }

  function StoreOctet(opts: seq<Octet>, at: nat, idx: nat, t: Table): Table
    requires idx < |t|
  {
    if t[idx].Some? then t else t[idx := Some(if at < |opts| then opts[at] else 0)]
  }

  /** The entry of an option with one value. */
  function Index(op: Octet): Option<nat> {
    if op == OVERLOAD then Some(0) else if op == MESSAGE_TYPE then Some(1) else if op == SERVER_ID then Some(2)
    else if op == LEASE_TIME then Some(3) else if op == T1 then Some(4) else if op == T2 then Some(5)
    else if op == SUBNET_MASK then Some(6) else if op == ROUTER then Some(7) else None
  }

  /** Whether the code accepts an option of this length. */
  predicate GoodLength(op: Octet, len: nat) {
    if op == OVERLOAD || op == MESSAGE_TYPE then len == 1
    else if op == ROUTER then len >= 4
    else if op == DNS_SERVER then len % 4 == 0
    else Index(op).Some? ==> len == 4
  }

  function Length(opts: seq<Octet>, i: nat): Octet {
    if i + 1 < |opts| then opts[i + 1] else 0
  }

  /** The option at `i` is entered. */
  function Take(opts: seq<Octet>, i: nat, t: Table): (r: Table)
    requires i < |opts|
    ensures |r| == |t|
  {
    var op := opts[i];
    if op == OVERLOAD || op == MESSAGE_TYPE then StoreOctet(opts, i + 2, Index(op).value, t)
    else if op == DNS_SERVER then
      StoreWords(opts, i + 2, Min(Length(opts, i) / 4, |t| - DNS), DNS, [0, 0, 0, 0], t)
    else if Index(op).Some? then
      StoreWords(opts, i + 2, 1, Index(op).value, [0, 0, 0, 0], t)
    else t
  }

  function Next(opts: seq<Octet>, i: nat): nat
    requires i < |opts|
  {
    if opts[i] == PAD then i + 1 else i + 2 + Length(opts, i)
  }

  /** One pass over the options from `i` on. */
  function Read(opts: seq<Octet>, i: nat, t: Table): Result
    decreases |opts| - i
  {
    if i >= |opts| || opts[i] == END then Ok(t)
    else if opts[i] != PAD && !GoodLength(opts[i], Length(opts, i)) then Invalid
    else Read(opts, Next(opts, i), Take(opts, i, t))
  }

  function Cleared(n: nat): Table
    requires n > DNS
  {
    seq(n, _ => None)
  }

  /** The decoding loop of dhcp_parse_reply: `decodeLen` octets, four at a time. */
  method DecodeWords(opts: seq<Octet>, valOffset: nat, decodeLen: nat, decodeIdx: nat, rx: array<Option<nat>>)
    requires rx.Length > DNS && decodeLen % 4 == 0 && decodeIdx + decodeLen / 4 <= rx.Length
    modifies rx
    ensures rx[..] == StoreWords(opts, valOffset, decodeLen / 4, decodeIdx, [0, 0, 0, 0], old(rx[..]))
  {
    var at: nat, left: nat, idx: nat := valOffset, decodeLen, decodeIdx;
    var value: seq<Octet> := [0, 0, 0, 0];
    while left > 0 && rx[idx].None?
      invariant left % 4 == 0 && |value| == 4 && idx + left / 4 <= rx.Length
      invariant StoreWords(opts, at, left / 4, idx, value, rx[..])
             == StoreWords(opts, valOffset, decodeLen / 4, decodeIdx, [0, 0, 0, 0], old(rx[..]))
      decreases left
    {
      ghost var t := rx[..];
      value := Word(opts, at, value);
      rx[idx] := Some(BigEndian(value));
      assert rx[..] == t[idx := Some(BigEndian(value))];
      at, left, idx := at + 4, left - 4, idx + 1;
    }
  }

  /** The switch of dhcp_parse_reply, and what is decoded for it. */
  method Enter(opts: seq<Octet>, offset: nat, rx: array<Option<nat>>)
    requires rx.Length > DNS && offset < |opts| && GoodLength(opts[offset], Length(opts, offset))
    modifies rx
    ensures rx[..] == Take(opts, offset, old(rx[..]))
  {
    ghost var t := rx[..];
    var op, len: nat, valOffset := opts[offset], Length(opts, offset), offset + 2;
    if op == OVERLOAD || op == MESSAGE_TYPE {
      var decodeIdx := Index(op).value;
      if rx[decodeIdx].None? {
        rx[decodeIdx] := Some(if valOffset < |opts| then opts[valOffset] else 0);
      }
      assert rx[..] == StoreOctet(opts, valOffset, decodeIdx, t);
    } else if op == DNS_SERVER {
      DecodeWords(opts, valOffset, Min(len, 4 * (rx.Length - DNS)), DNS, rx);
    } else if Index(op).Some? {
      DecodeWords(opts, valOffset, 4, Index(op).value, rx);
    }
  }

  /** The loop of dhcp_parse_reply over an options field in one piece. It fails if there is no octet
    * of it, or if a known option has a wrong length. The offset counts the octets of one pbuf in 16
    * bits; it would wrap only in a pbuf of more than 65279 octets, and one that the Ethernet driver
    * allocates has EMAC_ETH_MAX_FLEN, also as a piece of a reassembled datagram. */
  method ParseOptions(opts: seq<Octet>, rx: array<Option<nat>>) returns (ok: bool)
    requires rx.Length > DNS && 240 + |opts| <= 0xFFFF - 256
    modifies rx
    ensures ok <==> opts != [] && Read(opts, 0, Cleared(rx.Length)).Ok?
    ensures ok ==> Read(opts, 0, Cleared(rx.Length)) == Ok(rx[..])
  {
    forall i | 0 <= i < rx.Length {
      rx[i] := None;
    }
    assert rx[..] == Cleared(rx.Length);
    if opts == [] {
      return false;
    }
    var offset: nat := 0;
    while offset < |opts| && opts[offset] != END
      invariant Read(opts, offset, rx[..]) == Read(opts, 0, Cleared(rx.Length))
      decreases |opts| - offset
    {
      if opts[offset] == PAD {
        offset := offset + 1;
      } else {
        if !GoodLength(opts[offset], Length(opts, offset)) {
          return false;
        }
        Enter(opts, offset, rx);
        offset := offset + 2 + Length(opts, offset);
      }
    }
    return true;
  }

  // ---------------------------------------------------------------- what options mean

  /** Section 2 of RFC 2132: a pad octet, or a code, a length and that many octets. */
  datatype Item = Pad | Opt(op: Octet, data: seq<Octet>)

  predicate ItemOk(it: Item) {
    it.Opt? ==> it.op != PAD && it.op != END && |it.data| <= 255
  }

  predicate WellFormed(items: seq<Item>) {
    forall i | 0 <= i < |items| :: ItemOk(items[i])
  }

  function Code(it: Item): (r: seq<Octet>)
    requires ItemOk(it)
    ensures |r| == if it.Pad? then 1 else 2 + |it.data|
  {
    if it.Pad? then [PAD] else [it.op, |it.data| as Octet] + it.data
  }

  function Encode(items: seq<Item>): seq<Octet>
    requires WellFormed(items)
  {
    if items == [] then [] else Code(items[0]) + Encode(items[1..])
  }

  predicate Acceptable(items: seq<Item>) {
    forall i | 0 <= i < |items| && items[i].Opt? :: GoodLength(items[i].op, |items[i].data|)
  }

  /** The first option with that code counts; an empty list of name servers is none. */
  function Lookup(items: seq<Item>, op: Octet): Option<seq<Octet>> {
    if items == [] then None
    else if items[0].Opt? && items[0].op == op && (op == DNS_SERVER ==> items[0].data != []) then Some(items[0].data)
    else Lookup(items[1..], op)
  }

  /** The code behind an entry of the table. */
  function OpOf(k: nat): Octet {
    if k == 0 then OVERLOAD else if k == 1 then MESSAGE_TYPE else if k == 2 then SERVER_ID
    else if k == 3 then LEASE_TIME else if k == 4 then T1 else if k == 5 then T2
    else if k == 6 then SUBNET_MASK else if k == 7 then ROUTER
    else DNS_SERVER
  }

  /** Where the value of entry `k` stands in the option. */
  function Offset(k: nat): nat {
    if k < DNS then 0 else 4 * (k - DNS)
  }

  /** What entry `k` has to be. */
  function Value(items: seq<Item>, k: nat): Option<nat> {
    var d := Lookup(items, OpOf(k));
    if d.None? then None
    else if k <= 1 then if |d.value| >= 1 then Some(d.value[0]) else None
    else if |d.value| >= Offset(k) + 4 then Some(BigEndian(d.value[Offset(k)..Offset(k) + 4])) else None
  }

  /** The entries that are there stay, name servers all together. */
  function Merge(t: Table, items: seq<Item>): Table {
    seq(|t|, k requires 0 <= k < |t| => if t[Min(k, DNS)].Some? then t[k] else Value(items, k))
  }

  /** There is no second name server without a first. */
  predicate Compact(t: Table) {
    t[DNS].None? ==> forall k | DNS <= k < |t| :: t[k].None?
  }

  lemma {:induction false} StoreWordsMeaning(opts: seq<Octet>, at: nat, n: nat, idx: nat, was: seq<Octet>,
                                             t: Table, k: nat)
    requires |was| == 4 && idx + n <= |t| && at + 4 * n <= |opts| && k < |t|
    requires forall j | idx <= j < idx + n :: t[j].None?
    ensures StoreWords(opts, at, n, idx, was, t)[k]
         == if idx <= k < idx + n then Some(BigEndian(opts[at + 4 * (k - idx)..at + 4 * (k - idx) + 4])) else t[k]
    decreases n
  {
    if n > 0 {
      var w := Word(opts, at, was);
      assert w == opts[at..at + 4];
      StoreWordsMeaning(opts, at + 4, n - 1, idx + 1, w, t[idx := Some(BigEndian(w))], k);
    }
  }

  /** The option `it` stands at `i`. */
  ghost predicate StandsAt(opts: seq<Octet>, i: nat, it: Item) {
    && it.Opt? && ItemOk(it)
    && i + 2 + |it.data| <= |opts| && opts[i] == it.op && opts[i + 1] == |it.data|
    && opts[i + 2..i + 2 + |it.data|] == it.data
  }

  lemma OneItem(it: Item, op: Octet)
    requires it.Opt?
    ensures Lookup([it], op) == if it.op == op && (op == DNS_SERVER ==> it.data != []) then Some(it.data) else None
  {
  }

  lemma TakeWord(opts: seq<Octet>, i: nat, it: Item, t: Table, k: nat)
    requires StandsAt(opts, i, it) && Compact(t) && k < |t|
    requires it.op != OVERLOAD && it.op != MESSAGE_TYPE && Index(it.op).Some? && |it.data| >= 4
    ensures Take(opts, i, t)[k] == Merge(t, [it])[k]
  {
    var idx := Index(it.op).value;
    OneItem(it, OpOf(k));
    if t[idx].None? {
      StoreWordsMeaning(opts, i + 2, 1, idx, [0, 0, 0, 0], t, k);
      assert opts[i + 2..i + 6] == opts[i + 2..i + 2 + |it.data|][..4];
    }
  }

  lemma Inner(s: seq<Octet>, a: nat, n: nat, at: nat, m: nat)
    requires a + n <= |s| && at + m <= n
    ensures s[a..a + n][at..at + m] == s[a + at..a + at + m]
  {
    var x, y := s[a..a + n][at..at + m], s[a + at..a + at + m];
    assert forall k | 0 <= k < m :: x[k] == y[k];
  }

  /** What a list of name servers makes of entry `k`. */
  function Servers(data: seq<Octet>, t: Table, k: nat): Option<nat>
    requires k < |t|
  {
    if t[DNS].None? && DNS <= k && Offset(k) + 4 <= |data| then Some(BigEndian(data[Offset(k)..Offset(k) + 4]))
    else t[k]
  }

  lemma StoredServers(opts: seq<Octet>, at: nat, data: seq<Octet>, t: Table, k: nat)
    requires at + |data| <= |opts| && opts[at..at + |data|] == data && |data| % 4 == 0
    requires Compact(t) && t[DNS].None? && k < |t|
    ensures StoreWords(opts, at, Min(|data| / 4, |t| - DNS), DNS, [0, 0, 0, 0], t)[k] == Servers(data, t, k)
  {
    var n := Min(|data| / 4, |t| - DNS);
    StoreWordsMeaning(opts, at, n, DNS, [0, 0, 0, 0], t, k);
    if DNS <= k < DNS + n {
      Inner(opts, at, |data|, Offset(k), 4);
    }
  }

  lemma TakenServers(opts: seq<Octet>, i: nat, it: Item, t: Table, k: nat)
    requires StandsAt(opts, i, it) && Compact(t) && k < |t| && it.op == DNS_SERVER && |it.data| % 4 == 0
    ensures Take(opts, i, t)[k] == Servers(it.data, t, k)
  {
    if t[DNS].None? {
      StoredServers(opts, i + 2, it.data, t, k);
    }
  }

  lemma MergedServers(it: Item, t: Table, k: nat)
    requires it.Opt? && Compact(t) && k < |t| && it.op == DNS_SERVER
    ensures Merge(t, [it])[k] == Servers(it.data, t, k)
  {
    OneItem(it, OpOf(k));
  }

  lemma TakeOther(opts: seq<Octet>, i: nat, it: Item, t: Table, k: nat)
    requires StandsAt(opts, i, it) && Compact(t) && k < |t| && GoodLength(it.op, |it.data|)
    requires it.op != DNS_SERVER && (it.op == OVERLOAD || it.op == MESSAGE_TYPE || Index(it.op).None?)
    ensures Take(opts, i, t)[k] == Merge(t, [it])[k]
  {
    OneItem(it, OpOf(k));
    if Index(it.op).Some? {
      assert opts[i + 2] == opts[i + 2..i + 2 + |it.data|][0];
    }
  }

  /** One option in the message is one item. */
  lemma TakeMeaning(opts: seq<Octet>, i: nat, it: Item, t: Table)
    requires StandsAt(opts, i, it) && Compact(t) && GoodLength(it.op, |it.data|)
    ensures Take(opts, i, t) == Merge(t, [it]) && Compact(Merge(t, [it]))
  {
    forall k | 0 <= k < |t| ensures Take(opts, i, t)[k] == Merge(t, [it])[k] {
      if it.op == DNS_SERVER {
        TakenServers(opts, i, it, t, k);
        MergedServers(it, t, k);
      } else if it.op == OVERLOAD || it.op == MESSAGE_TYPE || Index(it.op).None? {
        TakeOther(opts, i, it, t, k);
      } else {
        TakeWord(opts, i, it, t, k);
      }
    }
    MergeCompact(t, it);
  }

  lemma MergeCompact(t: Table, it: Item)
    requires Compact(t) && it.Opt? && GoodLength(it.op, |it.data|)
    ensures Compact(Merge(t, [it]))
  {
    OneItem(it, DNS_SERVER);
  }

  lemma MergeMore(t: Table, it: Item, rest: seq<Item>)
    requires it.Opt? && GoodLength(it.op, |it.data|)
    ensures Merge(Merge(t, [it]), rest) == Merge(t, [it] + rest)
  {
    var u := Merge(t, [it]);
    assert ([it] + rest)[1..] == rest;
    forall k | 0 <= k < |t| ensures Merge(u, rest)[k] == Merge(t, [it] + rest)[k] {
      OneItem(it, OpOf(k));
      OneItem(it, OpOf(Min(k, DNS)));
    }
  }

  lemma MergePad(t: Table, rest: seq<Item>)
    ensures Merge(t, [Pad] + rest) == Merge(t, rest)
  {
    assert ([Pad] + rest)[1..] == rest;
  }

  lemma AcceptableParts(it: Item, rest: seq<Item>)
    ensures Acceptable([it] + rest) <==> (it.Opt? ==> GoodLength(it.op, |it.data|)) && Acceptable(rest)
    ensures WellFormed([it] + rest) <==> ItemOk(it) && WellFormed(rest)
  {
    var items := [it] + rest;
    assert items[0] == it;
    assert forall i | 0 <= i < |rest| :: items[i + 1] == rest[i];
  }

  lemma Front(opts: seq<Octet>, i: nat, it: Item, tail: seq<Octet>)
    requires i <= |opts| && ItemOk(it) && opts[i..] == Code(it) + tail
    ensures i + |Code(it)| <= |opts| && opts[i + |Code(it)|..] == tail
    ensures if it.Opt? then StandsAt(opts, i, it) else opts[i] == PAD
  {
    var code, s := Code(it), opts[i..];
    assert s[|code|..] == opts[i + |code|..] == tail;
    assert opts[i] == s[0] == code[0];
    if it.Opt? {
      assert opts[i + 1] == s[1] == code[1];
      assert s[2..2 + |it.data|] == code[2..] == it.data;
      assert opts[i + 2..i + 2 + |it.data|] == s[2..2 + |it.data|];
    }
  }

  lemma EncodeFront(it: Item, rest: seq<Item>, end: seq<Octet>)
    requires WellFormed([it] + rest) && ItemOk(it) && WellFormed(rest)
    ensures Encode([it] + rest) + end == Code(it) + (Encode(rest) + end)
  {
    assert ([it] + rest)[1..] == rest;
  }

  /** The table for a whole list of items, or none, if an item has a length that its code does not allow. */
  function Meaning(items: seq<Item>, t: Table): Result {
    if Acceptable(items) then Ok(Merge(t, items)) else Invalid
  }

  lemma MeaningStep(it: Item, rest: seq<Item>, t: Table)
    ensures Meaning([it] + rest, t) == if it.Pad? then Meaning(rest, t)
                                       else if !GoodLength(it.op, |it.data|) then Invalid
                                       else Meaning(rest, Merge(t, [it]))
  {
    AcceptableParts(it, rest);
    if it.Pad? {
      MergePad(t, rest);
    } else if GoodLength(it.op, |it.data|) {
      MergeMore(t, it, rest);
    }
  }

  lemma NoItems(opts: seq<Octet>, i: nat, end: seq<Octet>, t: Table)
    requires i <= |opts| && opts[i..] == end && end != [] && end[0] == END && Compact(t)
    ensures Read(opts, i, t) == Meaning([], t)
  {
    assert opts[i] == opts[i..][0];
    assert Merge(t, []) == t;
  }

  lemma ReadPad(opts: seq<Octet>, i: nat, t: Table)
    requires i < |opts| && opts[i] == PAD
    ensures Read(opts, i, t) == Read(opts, i + 1, t)
  {
  }

  lemma ReadOption(opts: seq<Octet>, i: nat, it: Item, t: Table)
    requires StandsAt(opts, i, it) && Compact(t)
    ensures GoodLength(it.op, |it.data|) ==>
              Compact(Merge(t, [it])) && Read(opts, i, t) == Read(opts, i + 2 + |it.data|, Merge(t, [it]))
    ensures !GoodLength(it.op, |it.data|) ==> Read(opts, i, t) == Invalid
  {
    if GoodLength(it.op, |it.data|) {
      TakeMeaning(opts, i, it, t);
    }
  }

  lemma ReadStep(opts: seq<Octet>, i: nat, it: Item, rest: seq<Item>, t: Table, j: nat, u: Table)
    requires it.Opt? && Compact(t) && j == i + 2 + |it.data| && u == Merge(t, [it])
    requires StandsAt(opts, i, it) && (GoodLength(it.op, |it.data|) ==> Read(opts, j, u) == Meaning(rest, u))
    ensures Read(opts, i, t) == Meaning([it] + rest, t)
  {
    ReadOption(opts, i, it, t);
    MeaningStep(it, rest, t);
  }

  /** Reading a well-formed options field: whatever the items, and whatever follows the end, the
    * table tells exactly what they mean, or the field is refused. */
  lemma {:induction false} ReadMeaning(opts: seq<Octet>, i: nat, items: seq<Item>, junk: seq<Octet>, t: Table)
    requires WellFormed(items) && i <= |opts| && opts[i..] == Encode(items) + ([END] + junk) && Compact(t)
    ensures Read(opts, i, t) == Meaning(items, t)
    decreases |items|, 0
  {
    var end := [END] + junk;
    if items == [] {
      assert Encode(items) + end == end;
      NoItems(opts, i, end, t);
    } else {
      ReadFirst(opts, i, items[0], items[1..], junk, t);
      assert items == [items[0]] + items[1..];
    }
  }

  lemma {:induction false} ReadFirst(opts: seq<Octet>, i: nat, it: Item, rest: seq<Item>, junk: seq<Octet>, t: Table)
    requires WellFormed([it] + rest) && i <= |opts| && Compact(t)
    requires opts[i..] == Encode([it] + rest) + ([END] + junk)
    ensures Read(opts, i, t) == Meaning([it] + rest, t)
    decreases |rest|, 1
  {
    AcceptableParts(it, rest);
    EncodeFront(it, rest, [END] + junk);
    Front(opts, i, it, Encode(rest) + ([END] + junk));
    if it.Pad? {
      MeaningStep(it, rest, t);
      ReadPad(opts, i, t);
      ReadMeaning(opts, i + 1, rest, junk, t);
    } else {
      var j, u := i + 2 + |it.data|, Merge(t, [it]);
      if GoodLength(it.op, |it.data|) {
        MergeCompact(t, it);
        ReadMeaning(opts, j, rest, junk, u);
      }
      ReadStep(opts, i, it, rest, t, j, u);
    }
  }

  // ---------------------------------------------------------------- what the client understands

  /** An item that counts for the code `op`; an empty list of name servers does not. */
  predicate Counts(it: Item, op: Octet) {
    it.Opt? && it.op == op && (op == 6 ==> it.data != [])
  }

  /** Of several such, the first is looked at. */
  lemma {:induction false} LookupMeaning(items: seq<Item>, op: Octet)
    ensures match Lookup(items, op)
            case None => forall i | 0 <= i < |items| :: !Counts(items[i], op)
            case Some(d) =>
              exists i | 0 <= i < |items| ::
                Counts(items[i], op) && items[i].data == d && forall j | 0 <= j < i :: !Counts(items[j], op)
  {
    if items != [] && !Counts(items[0], op) {
      LookupMeaning(items[1..], op);
      var rest := Lookup(items[1..], op);
      if rest.Some? {
        var i :| 0 <= i < |items[1..]| && Counts(items[1..][i], op) && items[1..][i].data == rest.value
                 && forall j | 0 <= j < i :: !Counts(items[1..][j], op);
        assert Counts(items[i + 1], op) && items[i + 1].data == rest.value;
        assert forall j | 0 <= j < i + 1 :: j > 0 ==> items[j] == items[1..][j - 1];
      } else {
        assert forall j | 0 < j < |items| :: items[j] == items[1..][j - 1];
      }
    }
  }

  /** The 32-bit number at `at` in an option that is there. */
  function NumberAt(d: Option<seq<Octet>>, at: nat): Option<nat> {
    if d.None? || |d.value| < at + 4 then None
    else
      var a: int, b: int, c: int, e: int := d.value[at], d.value[at + 1], d.value[at + 2], d.value[at + 3];
      Some(a * 0x100_0000 + b * 0x1_0000 + c * 0x100 + e)
  }

  function OctetAt(d: Option<seq<Octet>>): Option<nat> {
    if d.None? || d.value == [] then None else Some(d.value[0])
  }

  /** Section 2 of RFC 2132, as far as the client goes: which lengths it accepts, and which option each entry
    * of its table comes from. */
  lemma Understood(items: seq<Item>, n: nat)
    requires n > DNS
    ensures Meaning(items, Cleared(n)).Ok? <==>
            forall i | 0 <= i < |items| && items[i].Opt? ::
              var op, len := items[i].op, |items[i].data|;
              && (op == 52 || op == 53 ==> len == 1)
              && (op == 1 || op == 51 || op == 54 || op == 58 || op == 59 ==> len == 4)
              && (op == 3 ==> len >= 4) && (op == 6 ==> len % 4 == 0)
    ensures Meaning(items, Cleared(n)).Ok? ==>
              var t := Meaning(items, Cleared(n)).table;
              && |t| == n
              && t[0] == OctetAt(Lookup(items, 52)) && t[1] == OctetAt(Lookup(items, 53))
              && t[2] == NumberAt(Lookup(items, 54), 0) && t[3] == NumberAt(Lookup(items, 51), 0)
              && t[4] == NumberAt(Lookup(items, 58), 0) && t[5] == NumberAt(Lookup(items, 59), 0)
              && t[6] == NumberAt(Lookup(items, 1), 0) && t[7] == NumberAt(Lookup(items, 3), 0)
              && forall k | 8 <= k < n :: t[k] == NumberAt(Lookup(items, 6), 4 * (k - 8))
  {
    forall k | 0 <= k < n
      ensures k > 1 ==> Value(items, k) == NumberAt(Lookup(items, OpOf(k)), Offset(k))
    {
      var d := Lookup(items, OpOf(k));
      if d.Some? && |d.value| >= Offset(k) + 4 {
        FourOctets(d.value, Offset(k));
      }
    }
  }

  lemma FourOctets(d: seq<Octet>, at: nat)
    requires at + 4 <= |d|
    ensures Some(BigEndian(d[at..at + 4])) == NumberAt(Some(d), at)
  {
  }

  // ---------------------------------------------------------------- the writer

  const MAX_MSG_SIZE: Octet := 57
  const REQUESTED_IP: Octet := 50
  const PARAMETER_REQUEST_LIST: Octet := 55
  const BROADCAST: Octet := 28
  const DHCP_REQUEST: Octet := 3
  const DHCP_MIN_OPTIONS_LEN := 68

  function Octets(value: nat): (r: seq<Octet>)
    requires value < 0x1_0000_0000
    ensures |r| == 4
  {
    [value / 0x100_0000, value / 0x1_0000 % 0x100, value / 0x100 % 0x100, value % 0x100]
  }

  lemma OctetsBack(value: nat)
    requires value < 0x1_0000_0000
    ensures BigEndian(Octets(value)) == value
  {
    assert value / 0x100 == value / 0x1_0000 * 0x100 + value / 0x100 % 0x100;
    assert value / 0x1_0000 == value / 0x100_0000 * 0x100 + value / 0x1_0000 % 0x100;
  }

  lemma {:induction false} EncodeAppend(items: seq<Item>, it: Item)
    requires WellFormed(items) && ItemOk(it)
    ensures WellFormed(items + [it]) && Encode(items + [it]) == Encode(items) + Code(it)
  {
    if items == [] {
      assert [it][1..] == [];
      assert [] + [it] == [it];
      assert Encode([it]) == Code(it) + [];
    } else {
      EncodeAppend(items[1..], it);
      assert (items + [it])[1..] == items[1..] + [it];
      assert Code(items[0]) + (Encode(items[1..]) + Code(it)) == Code(items[0]) + Encode(items[1..]) + Code(it);
    }
  }

  lemma TakeNext(front: seq<Octet>, data: seq<Octet>, i: nat)
    requires i < |data|
    ensures front + data[..i] + [data[i]] == front + data[..i + 1]
  {
    assert data[..i] + [data[i]] == data[..i + 1];
  }

  /** The options of the message of dhcp_select. */
  function Request(mtu: nat, offered: nat, server: nat): (r: seq<Item>)
    requires mtu < 0x1_0000 && offered < 0x1_0000_0000 && server < 0x1_0000_0000
  {
    [Opt(MESSAGE_TYPE, [DHCP_REQUEST])]
    + ([Opt(MAX_MSG_SIZE, [mtu / 0x100, mtu % 0x100])]
       + ([Opt(REQUESTED_IP, Octets(offered))]
          + ([Opt(SERVER_ID, Octets(server))]
             + ([Opt(PARAMETER_REQUEST_LIST, [SUBNET_MASK, ROUTER, BROADCAST, DNS_SERVER])] + []))))
  }

  lemma LookupFirst(it: Item, rest: seq<Item>, op: Octet)
    requires it.Opt? && it.op != DNS_SERVER
    ensures Lookup([it] + rest, op) == if it.op == op then Some(it.data) else Lookup(rest, op)
    ensures Acceptable([it] + rest) <==> GoodLength(it.op, |it.data|) && Acceptable(rest)
  {
    assert ([it] + rest)[1..] == rest;
    AcceptableParts(it, rest);
  }

  lemma RequestLookup(mtu: nat, offered: nat, server: nat, op: Octet)
    requires mtu < 0x1_0000 && offered < 0x1_0000_0000 && server < 0x1_0000_0000
    ensures var items := Request(mtu, offered, server);
            && Acceptable(items)
            && Lookup(items, op) == if op == MESSAGE_TYPE then Some([DHCP_REQUEST])
                                    else if op == MAX_MSG_SIZE then Some([mtu / 0x100, mtu % 0x100])
                                    else if op == REQUESTED_IP then Some(Octets(offered))
                                    else if op == SERVER_ID then Some(Octets(server))
                                    else if op == PARAMETER_REQUEST_LIST then
                                      Some([SUBNET_MASK, ROUTER, BROADCAST, DNS_SERVER])
                                    else None
  {
    var a, b := Opt(MESSAGE_TYPE, [DHCP_REQUEST]), Opt(MAX_MSG_SIZE, [mtu / 0x100, mtu % 0x100]);
    var c, d := Opt(REQUESTED_IP, Octets(offered)), Opt(SERVER_ID, Octets(server));
    var e := Opt(PARAMETER_REQUEST_LIST, [SUBNET_MASK, ROUTER, BROADCAST, DNS_SERVER]);
    var r1 := [e] + [];
    var r2 := [d] + r1;
    var r3 := [c] + r2;
    var r4 := [b] + r3;
    assert Request(mtu, offered, server) == [a] + r4;
    LookupFirst(e, [], op);
    LookupFirst(d, r1, op);
    LookupFirst(c, r2, op);
    LookupFirst(b, r3, op);
    LookupFirst(a, r4, op);
  }

  lemma RequestFound(mtu: nat, offered: nat, server: nat)
    requires mtu < 0x1_0000 && offered < 0x1_0000_0000 && server < 0x1_0000_0000
    ensures var items := Request(mtu, offered, server);
            && Lookup(items, 53) == Some([3])
            && Lookup(items, 57) == Some([mtu / 0x100, mtu % 0x100])
            && Lookup(items, 50) == Some([offered / 0x100_0000, offered / 0x1_0000 % 0x100, offered / 0x100 % 0x100,
                                          offered % 0x100])
            && Lookup(items, 54) == Some([server / 0x100_0000, server / 0x1_0000 % 0x100, server / 0x100 % 0x100,
                                          server % 0x100])
            && Lookup(items, 55) == Some([1, 3, 28, 6])
  {
    RequestLookup(mtu, offered, server, 53);
    RequestLookup(mtu, offered, server, 57);
    RequestLookup(mtu, offered, server, 50);
    RequestLookup(mtu, offered, server, 54);
    RequestLookup(mtu, offered, server, 55);
  }

  lemma EncodeFirst(it: Item, rest: seq<Item>)
    requires ItemOk(it) && WellFormed(rest)
    ensures WellFormed([it] + rest) && Encode([it] + rest) == Code(it) + Encode(rest)
  {
    assert ([it] + rest)[1..] == rest;
  }

  lemma RequestOctets(mtu: nat, offered: nat, server: nat)
    requires mtu < 0x1_0000 && offered < 0x1_0000_0000 && server < 0x1_0000_0000
    ensures WellFormed(Request(mtu, offered, server))
    ensures Encode(Request(mtu, offered, server)) + [END]
         == [53, 1, 3, 57, 2, mtu / 0x100, mtu % 0x100]
            + ([50, 4, offered / 0x100_0000, offered / 0x1_0000 % 0x100, offered / 0x100 % 0x100, offered % 0x100]
               + ([54, 4, server / 0x100_0000, server / 0x1_0000 % 0x100, server / 0x100 % 0x100, server % 0x100]
                  + [55, 4, 1, 3, 28, 6, 255]))
  {
    var a, b := Opt(MESSAGE_TYPE, [DHCP_REQUEST]), Opt(MAX_MSG_SIZE, [mtu / 0x100, mtu % 0x100]);
    var c, d := Opt(REQUESTED_IP, Octets(offered)), Opt(SERVER_ID, Octets(server));
    var e := Opt(PARAMETER_REQUEST_LIST, [SUBNET_MASK, ROUTER, BROADCAST, DNS_SERVER]);
    var r1 := [e] + [];
    var r2 := [d] + r1;
    var r3 := [c] + r2;
    var r4 := [b] + r3;
    EncodeFirst(e, []);
    EncodeFirst(d, r1);
    EncodeFirst(c, r2);
    EncodeFirst(b, r3);
    EncodeFirst(a, r4);
    Regroup(Code(a), Code(b), Code(c), Code(d), Code(e), [END]);
    CodeLong(REQUESTED_IP, offered);
    CodeLong(SERVER_ID, server);
    assert Code(a) + Code(b) == [53, 1, 3, 57, 2, mtu / 0x100, mtu % 0x100];
    assert Code(e) + [END] == [55, 4, 1, 3, 28, 6, 255];
  }

  lemma CodeLong(op: Octet, value: nat)
    requires op != PAD && op != END && value < 0x1_0000_0000
    ensures Code(Opt(op, Octets(value)))
         == [op, 4, value / 0x100_0000, value / 0x1_0000 % 0x100, value / 0x100 % 0x100, value % 0x100]
  {
  }

  lemma Regroup(a: seq<Octet>, b: seq<Octet>, c: seq<Octet>, d: seq<Octet>, e: seq<Octet>, f: seq<Octet>)
    ensures a + (b + (c + (d + (e + [])))) + f == (a + b) + (c + (d + (e + f)))
  {
  }

  /** The server finds in it what kind of message it is, and itself, and nothing else that it knows. */
  lemma RequestMeaning(mtu: nat, offered: nat, server: nat, n: nat)
    requires mtu < 0x1_0000 && offered < 0x1_0000_0000 && server < 0x1_0000_0000 && n > DNS
    ensures Meaning(Request(mtu, offered, server), Cleared(n))
         == Ok(Cleared(n)[1 := Some(DHCP_REQUEST)][2 := Some(server)])
  {
    var items := Request(mtu, offered, server);
    var t := Merge(Cleared(n), items);
    OctetsBack(server);
    assert Octets(server)[0..4] == Octets(server);
    RequestLookup(mtu, offered, server, MESSAGE_TYPE);
    RequestLookup(mtu, offered, server, SERVER_ID);
    forall k | 0 <= k < n && k != 1 && k != 2
      ensures t[k] == None
    {
      RequestLookup(mtu, offered, server, OpOf(k));
    }
    assert t == Cleared(n)[1 := Some(DHCP_REQUEST)][2 := Some(server)];
  }

  /** The octets of an option, as they are written behind `before`. */
  lemma CodeParts(before: seq<Octet>, op: Octet, data: seq<Octet>)
    requires ItemOk(Opt(op, data))
    ensures before + [op, |data|] + data == before + Code(Opt(op, data))
  {
  }

  /** A field that starts with the items and the end reads as the items. */
  lemma ReadBack(all: seq<Octet>, items: seq<Item>, n: nat)
    requires WellFormed(items) && Encode(items) + [END] <= all && n > DNS
    ensures Read(all, 0, Cleared(n)) == Meaning(items, Cleared(n))
  {
    var junk := all[|Encode(items)| + 1..];
    assert all[0..] == all == Encode(items) + ([END] + junk);
    ReadMeaning(all, 0, items, junk, Cleared(n));
  }

  /** The options field of struct dhcp_msg, DHCP_OPTIONS_LEN octets, of which `len` are written. */
  class Message {
    const options: array<Octet>
    var len: nat

    /** The options that are complete. */
    ghost var items: seq<Item>

    ghost predicate Valid()
      reads this, options
    {
      && DHCP_MIN_OPTIONS_LEN <= options.Length && len <= options.Length
      && WellFormed(items) && options[..len] == Encode(items)
    }

    constructor (size: nat)
      requires size >= DHCP_MIN_OPTIONS_LEN
      ensures Valid() && items == [] && len == 0 && options.Length == size && fresh(options)
    {
      options := new Octet[size](i => i % 256);
      len, items := 0, [];
    }

    /** dhcp_option_byte. */
    method Byte(value: Octet)
      requires len < options.Length
      modifies `len, options
      ensures len == old(len) + 1 && options[..len] == old(options[..len]) + [value]
    {
      options[len] := value;
      len := len + 1;
    }

    /** dhcp_option. */
    method Option(optionType: Octet, optionLen: Octet)
      requires len + 2 + optionLen <= options.Length
      modifies `len, options
      ensures len == old(len) + 2 && options[..len] == old(options[..len]) + [optionType, optionLen]
    {
      Byte(optionType);
      Byte(optionLen);
    }

    /** dhcp_option_long. */
    method Long(value: nat)
      requires len + 4 <= options.Length && value < 0x1_0000_0000
      modifies `len, options
      ensures len == old(len) + 4 && options[..len] == old(options[..len]) + Octets(value)
    {
      Byte(value / 0x100_0000);
      Byte(value / 0x1_0000 % 0x100);
      Byte(value / 0x100 % 0x100);
      Byte(value % 0x100);
    }

    /** dhcp_option_byte for each octet. */
    method Bytes(data: seq<Octet>)
      requires len + |data| <= options.Length
      modifies `len, options
      ensures len == old(len) + |data| && options[..len] == old(options[..len]) + data
    {
      ghost var before := options[..len];
      for i := 0 to |data|
        invariant len == old(len) + i && options[..len] == before + data[..i]
      {
        TakeNext(before, data, i);
        Byte(data[i]);
      }
      assert data[..|data|] == data;
    }

    /** The octets of `it` are written: it is one of the options that are complete. */
    ghost method Complete(it: Item)
      requires WellFormed(items) && ItemOk(it)
      requires DHCP_MIN_OPTIONS_LEN <= options.Length && len <= options.Length
      requires options[..len] == Encode(items) + Code(it)
      modifies `items
      ensures Valid() && items == old(items) + [it]
    {
      EncodeAppend(items, it);
      items := items + [it];
    }

    /** A whole option: dhcp_option, and dhcp_option_byte for each octet of it. */
    method Add(op: Octet, data: seq<Octet>)
      requires Valid() && op != PAD && op != END && |data| <= 255 && len + 2 + |data| <= options.Length
      modifies this, options
      ensures Valid() && items == old(items) + [Opt(op, data)] && len == old(len) + 2 + |data|
    {
      CodeParts(options[..len], op, data);
      Option(op, |data|);
      Bytes(data);
      Complete(Opt(op, data));
    }

    /** A whole option with a 32-bit value: dhcp_option and dhcp_option_long. */
    method AddLong(op: Octet, value: nat)
      requires Valid() && op != PAD && op != END && value < 0x1_0000_0000 && len + 6 <= options.Length
      modifies this, options
      ensures Valid() && items == old(items) + [Opt(op, Octets(value))] && len == old(len) + 6
    {
      CodeParts(options[..len], op, Octets(value));
      Option(op, 4);
      Long(value);
      Complete(Opt(op, Octets(value)));
    }

    /** dhcp_option_trailer: the message ends, and is filled up to 68 octets and a multiple of 4, as far
      * as there is room. Whatever was written can be read back: the reader finds exactly the items. */
    method Trailer(ghost n: nat)
      requires Valid() && len < options.Length && n > DNS
      modifies `len, options
      ensures items == old(items) && DHCP_MIN_OPTIONS_LEN <= len <= options.Length
      ensures len % 4 == 0 || len == options.Length
      ensures old(len) < len && (len <= DHCP_MIN_OPTIONS_LEN || len <= old(len) + 4)
      ensures Encode(items) + [END] <= options[..len]
      ensures Read(options[..len], 0, Cleared(n)) == Meaning(items, Cleared(n))
    {
      Byte(END);
      FillUp();
      ReadBack(options[..len], items, n);
    }

    /** The loop of dhcp_option_trailer. */
    method FillUp()
      requires DHCP_MIN_OPTIONS_LEN <= options.Length && 0 < len <= options.Length
      modifies `len, options
      ensures DHCP_MIN_OPTIONS_LEN <= len <= options.Length && (len % 4 == 0 || len == options.Length)
      ensures old(options[..len]) <= options[..len]
      ensures len <= DHCP_MIN_OPTIONS_LEN || len <= old(len) + 3
    {
      ghost var written := options[..len];
      while (len < DHCP_MIN_OPTIONS_LEN || len % 4 != 0) && len < options.Length
        invariant |written| <= len <= options.Length && written <= options[..len]
        invariant len <= DHCP_MIN_OPTIONS_LEN || len <= (|written| + 3) / 4 * 4
        decreases options.Length - len
      {
        Byte(0);
      }
    }

    /** The message of dhcp_select fits into the smallest options field. */
    method Select(mtu: nat, offered: nat, server: nat, ghost n: nat)
      requires Valid() && items == [] && len == 0 && n > DNS
      requires mtu < 0x1_0000 && offered < 0x1_0000_0000 && server < 0x1_0000_0000
      modifies this, options
      ensures len == DHCP_MIN_OPTIONS_LEN <= options.Length
      // Octet by octet: a request, of the greatest size that fits, for the offered address, to the server.
      ensures [53, 1, 3, 57, 2, mtu / 0x100, mtu % 0x100]
              + ([50, 4, offered / 0x100_0000, offered / 0x1_0000 % 0x100, offered / 0x100 % 0x100, offered % 0x100]
                 + ([54, 4, server / 0x100_0000, server / 0x1_0000 % 0x100, server / 0x100 % 0x100, server % 0x100]
                    + [55, 4, 1, 3, 28, 6, 255]))
              <= options[..len]
      // And for any reader.
      ensures WellFormed(items) && Encode(items) + [END] <= options[..len]
      ensures Lookup(items, 53) == Some([3]) && Lookup(items, 57) == Some([mtu / 0x100, mtu % 0x100])
      ensures Lookup(items, 50) == Some([offered / 0x100_0000, offered / 0x1_0000 % 0x100, offered / 0x100 % 0x100,
                                         offered % 0x100])
      ensures Lookup(items, 54) == Some([server / 0x100_0000, server / 0x1_0000 % 0x100, server / 0x100 % 0x100,
                                         server % 0x100])
      ensures Lookup(items, 55) == Some([1, 3, 28, 6])
      ensures Read(options[..len], 0, Cleared(n)) == Ok(Cleared(n)[1 := Some(DHCP_REQUEST)][2 := Some(server)])
    {
      Add(MESSAGE_TYPE, [DHCP_REQUEST]);
      Add(MAX_MSG_SIZE, [mtu / 0x100, mtu % 0x100]);
      AddLong(REQUESTED_IP, offered);
      AddLong(SERVER_ID, server);
      Add(PARAMETER_REQUEST_LIST, [SUBNET_MASK, ROUTER, BROADCAST, DNS_SERVER]);
      assert items == Request(mtu, offered, server);
      Trailer(n);
      RequestMeaning(mtu, offered, server, n);
      RequestFound(mtu, offered, server);
      RequestOctets(mtu, offered, server);
    }
  }
}
