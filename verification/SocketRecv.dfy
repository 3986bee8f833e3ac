/** `lwip_recvfrom` of lwip/src/api/sockets.c on a TCP socket: a byte stream read out of pbufs, the
  * unread part of the last of which stays behind in lastdata and lastoffset. */
module SocketRecv {
  import opened Basics

  /** struct pbuf: tot_len is 16 bits wide. `push` is PBUF_FLAG_PUSH. */
  datatype PbufRecord = Pbuf(data: seq<Octet>, push: bool)
  type Pbuf = p: PbufRecord | |p.data| <= 0xFFFF witness Pbuf([], false)

  datatype Error = Clsd | Other

  /** What netconn_recv_tcp_pbuf gives: ERR_OK with a pbuf, or an error. */
  datatype Received = Data(p: Pbuf) | Fail(err: Error)

  /** What the rest of the system does during one pass of the loop: the rcvevent that the
    * non-blocking test reads, what arrives, and the rcvevent read after the copy. */
  datatype Pass = Pass(before: int, result: Received, after: int)

  datatype Flags = Flags(peek: bool, dontwait: bool, nonblocking: bool)

  /** The call returns a number, or it is still inside netconn_recv. */
  datatype Outcome = Returned(n: int) | Blocked

  function Bytes(ps: seq<Pbuf>): seq<Octet> {
    if ps == [] then [] else Bytes(ps[..|ps| - 1]) + ps[|ps| - 1].data
  }

  lemma BytesGrow(ps: seq<Pbuf>, p: Pbuf)
    ensures Bytes(ps + [p]) == Bytes(ps) + p.data
  {
    assert (ps + [p])[..|ps|] == ps;
  }

  lemma {:induction false} BytesPrefix(ps: seq<Pbuf>, qs: seq<Pbuf>)
    requires ps <= qs
    ensures Bytes(ps) <= Bytes(qs)
    decreases |qs|
  {
    if ps == qs {
    } else {
      assert ps == qs[..|qs| - 1][..|ps|];
      BytesPrefix(ps, qs[..|qs| - 1]);
    }
  }

  lemma SliceMore(c: seq<Octet>, d: seq<Octet>, at: nat, n: nat)
    requires at + n <= |d|
    ensures c + d[..at] + d[at..][..n] == c + d[..at + n]
    ensures d[at..at + n] == d[at..][..n] && d[at..][n..] == d[at + n..]
    ensures at + n == |d| ==> d[..at + n] == d
  {
    assert d[..at] + d[at..][..n] == d[..at + n];
  }

  /** `s` with `d` written over it at `off`. */
  function Patch(s: seq<Octet>, off: nat, d: seq<Octet>): (r: seq<Octet>)
    requires off + |d| <= |s|
    ensures |r| == |s| && r[..off + |d|] == s[..off] + d && r[off + |d|..] == s[off + |d|..]
  {
    s[..off] + d + s[off + |d|..]
  }

  lemma PatchKeeps(text: seq<Octet>, had: seq<Octet>, before: seq<Octet>, off: nat, d: seq<Octet>)
    requires off + |d| <= |before| == |text| && before[off..] == text[off..]
    ensures var now := Patch(before, off, d);
            && now[off + |d|..] == text[off + |d|..]
            && had + before[..off] + d == had + now[..off + |d|]
            && (off == 0 ==> now[..|d|] == d)
  {
    assert before[off + |d|..] == before[off..][|d|..];
    assert text[off + |d|..] == text[off..][|d|..];
  }

  /** Beyond `was`, `now` holds the pbufs of the passes `from` to `used`, in that order. */
  ghost predicate TookAll(was: seq<Pbuf>, now: seq<Pbuf>, env: seq<Pass>, from: nat, used: nat) {
    && from <= used <= |env| && was <= now && |now| == |was| + used - from
    && forall i | from <= i < used :: env[i].result == Data(now[|was| + i - from])
  }

  lemma TookMore(was: seq<Pbuf>, now: seq<Pbuf>, env: seq<Pass>, from: nat, used: nat)
    requires TookAll(was, now, env, from, used) && used < |env| && env[used].result.Data?
    ensures TookAll(was, now + [env[used].result.p], env, from, used + 1)
  {
  }

  /** After pass `j` the loop does not stop for PUSH, nor because nothing more has arrived. The pbuf of the
    * pass is that left over, if `from` is 1 and it is the first, or the one that the environment gave. */
  ghost predicate Quiet(was: seq<Pbuf>, now: seq<Pbuf>, env: seq<Pass>, from: nat, j: nat)
    requires from <= |was| && |was| + j - from < |now| && j < |env|
  {
    !now[|was| + j - from].push && env[j].after > 0
  }

  /** The loop has gone on after all passes but the last, and `done` says whether it ends after that. */
  ghost predicate Paced(was: seq<Pbuf>, now: seq<Pbuf>, env: seq<Pass>, from: nat, used: nat, done: bool, end: bool) {
    && from <= |was| && 1 <= used && TookAll(was, now, env, from, used)
    && (forall j {:trigger Quiet(was, now, env, from, j)} | 0 <= j < used - 1 :: Quiet(was, now, env, from, j))
    && (done <==> end || !Quiet(was, now, env, from, used - 1))
  }

  lemma PacedMore(was: seq<Pbuf>, now: seq<Pbuf>, env: seq<Pass>, from: nat, used: nat, p: Pbuf, done: bool, end: bool)
    requires Paced(was, now, env, from, used, false, false)
    requires used < |env| && env[used].result == Data(p) && (done <==> end || p.push || env[used].after <= 0)
    ensures Paced(was, now + [p], env, from, used + 1, done, end)
  {
    var now', next := now + [p], used + 1;
    forall j | 0 <= j < next - 1 ensures Quiet(was, now', env, from, j) {
      assert Quiet(was, now, env, from, j);
    }
  }

  predicate WouldBlock(flags: Flags, pass: Pass) {
    (flags.dontwait || flags.nonblocking) && pass.before <= 0
  }

  /** The pass of the environment gives the call no data. */
  predicate Starves(flags: Flags, pass: Pass) {
    WouldBlock(flags, pass) || pass.result.Fail?
  }

  /** What a call that copied nothing returns then. */
  function Verdict(flags: Flags, pass: Pass): int
    requires Starves(flags, pass)
  {
    if !WouldBlock(flags, pass) && pass.result.err == Clsd then 0 else -1
  }

  class Socket {
    var lastdata: Option<Pbuf>
    var lastoffset: nat

    /** What has come out of netconn_recv, what has gone into pbuf_free, the bytes that calls
      * without MSG_PEEK have returned, the number of bytes that calls with it have, and the sum of
      * all arguments of netconn_recved. */
    ghost var received: seq<Pbuf>
    ghost var freed: seq<Pbuf>
    ghost var consumed: seq<Octet>
    ghost var peeked: nat
    ghost var credited: nat

    ghost predicate Stream()
      reads `lastdata, `lastoffset, `received, `freed, `consumed
    {
      match lastdata
      case None =>
        lastoffset == 0 && freed == received && consumed == Bytes(received)
      case Some(p) =>
        && received == freed + [p]
        && lastoffset <= |p.data|
        && consumed == Bytes(freed) + p.data[..lastoffset]
    }

    ghost predicate Valid()
      reads this
    {
      Stream() && credited == |consumed| + peeked
    }

    ghost function Unread(): seq<Octet>
      requires Stream()
      reads `lastdata, `lastoffset, `received, `freed, `consumed
    {
      match lastdata
      case None => []
      case Some(p) => p.data[lastoffset..]
    }

    /** No byte is lost, doubled or moved: what was returned, followed by the unread part of
      * lastdata, is what was received; and all pbufs but lastdata are freed, once and in order. */
    lemma Conservation()
      requires Stream()
      ensures consumed + Unread() == Bytes(received)
      ensures freed == (if lastdata.None? then received else received[..|received| - 1])
      ensures lastdata.Some? ==> received != [] && received[|received| - 1] == lastdata.value
    {
      if lastdata.Some? {
        BytesGrow(freed, lastdata.value);
        assert lastdata.value.data == lastdata.value.data[..lastoffset] + Unread();
      }
    }

    constructor ()
      ensures Valid() && lastdata == None && received == [] && credited == 0
    {
      lastdata, lastoffset := None, 0;
      received, freed, consumed, peeked, credited := [], [], [], 0, 0;
    }

    /** netconn_recv_tcp_pbuf gave a pbuf, which becomes lastdata. */
    method Keep(p: Pbuf)
      requires Stream() && lastdata == None
      modifies `lastdata, `received
      ensures Stream() && lastdata == Some(p) && Unread() == p.data
      ensures received == old(received) + [p]
    {
      received := received + [p];
      lastdata := Some(p);
    }

    /** pbuf_copy_partial. */
    method CopyPartial(p: Pbuf, mem: array<Octet>, off: nat, n: nat, from: nat)
      requires off + n <= mem.Length && from + n <= |p.data|
      modifies mem
      ensures mem[..] == Patch(old(mem[..]), off, p.data[from..from + n])
    {
      forall i | 0 <= i < n {
        mem[off + i] := p.data[from + i];
      }
    }

    /** Without MSG_PEEK: what was copied out of lastdata is gone, and a pbuf that is used up is
      * freed. */
    method Settle(n: nat)
      requires Stream() && lastdata.Some? && n <= |Unread()|
      modifies `lastdata, `lastoffset, `freed, `consumed
      ensures Stream()
      ensures consumed == old(consumed) + old(Unread())[..n]
      ensures Unread() == old(Unread())[n..] && (n == |old(Unread())| ==> lastdata == None)
    {
      var p, at := lastdata.value, lastoffset;
      SliceMore(Bytes(freed), p.data, at, n);
      consumed := consumed + Unread()[..n];
      if |p.data| - at - n > 0 {
        lastoffset := at + n;
      } else {
        BytesGrow(freed, p);
        freed := freed + [p];
        lastdata, lastoffset := None, 0;
      }
    }

    /** netconn_recved opens the receive window by `n`. */
    ghost method Recved(n: nat, peek: bool)
      modifies `credited, `peeked
      ensures credited == old(credited) + n && peeked == old(peeked) + if peek then n else 0
    {
      credited := credited + n;
      peeked := peeked + if peek then n else 0;
    }

    /** One pass of the loop, from the choice of `p` on. */
    method CopyOut(mem: array<Octet>, off: nat, left: nat, peek: bool, after: int) returns (n: nat, done: bool)
      requires Stream() && lastdata.Some? && off + left <= mem.Length
      modifies mem, `lastdata, `lastoffset, `freed, `consumed
      ensures Stream() && n <= left
      ensures n == if left > |old(Unread())| then |old(Unread())| else left
      ensures mem[..] == Patch(old(mem[..]), off, old(Unread())[..n])
      ensures done == (left == n || old(lastdata).value.push || after <= 0 || peek)
      ensures if peek then lastdata == old(lastdata) && lastoffset == old(lastoffset) && consumed == old(consumed)
              else consumed == old(consumed) + old(Unread())[..n]
                   && Unread() == old(Unread())[n..] && (n == |old(Unread())| ==> lastdata == None)
    {
      var p := lastdata.value;
      var buflen := |p.data| - lastoffset;
      n := if left > buflen then buflen else left;
      SliceMore([], p.data, lastoffset, n);
      CopyPartial(p, mem, off, n, lastoffset);
      done := left - n <= 0 || p.push || after <= 0 || peek;
      if !peek {
        Settle(n);
      }
    }

    /** `off` octets are copied, and apart from them `mem` is `text`. With MSG_PEEK they are the
      * start of lastdata, without they are consumed; `first` says that no pass is over. */
    ghost predicate Copied(mem: seq<Octet>, text: seq<Octet>, had: seq<Octet>, off: nat, peek: bool, first: bool)
      reads `lastdata, `lastoffset, `received, `freed, `consumed
    {
      && Stream() && off <= |mem| == |text| && mem[off..] == text[off..]
      && (first ==> off == 0)
      && if !peek then consumed == had + mem[..off]
         else consumed == had
              && (!first ==> lastdata.Some? && off <= |Unread()| && mem[..off] == Unread()[..off])
    }

    /** One pass keeps Copied, and stops short only at the end of what is there. */
    method Advance(mem: array<Octet>, ghost text: seq<Octet>, ghost had: seq<Octet>, off: nat, left: nat,
                   peek: bool, ghost first: bool, after: int) returns (n: nat, done: bool)
      requires Copied(mem[..], text, had, off, peek, first) && off + left <= mem.Length
      requires lastdata.Some? && (peek ==> first)
      modifies mem, `lastdata, `lastoffset, `freed, `consumed
      ensures n <= left && Copied(mem[..], text, had, off + n, peek, false)
      ensures peek ==> done && lastdata == old(lastdata)
      ensures n >= Min(left, |old(Unread())|)
      ensures !done ==> lastdata == None && n < left
      ensures n < left ==> Unread() == [] || (peek && off + n == |Unread()|)
      ensures done == (n == left || old(lastdata).value.push || after <= 0 || peek)
    {
      PatchKeeps(text, had, mem[..], off, Unread()[..if left > |Unread()| then |Unread()| else left]);
      n, done := CopyOut(mem, off, left, peek, after);
    }

    /** The first half of a pass: the next pbuf, if none is left over. `ok` is false if the environment
      * gives no data. */
    method Choose(ghost mem: seq<Octet>, ghost text: seq<Octet>, ghost had: seq<Octet>, ghost was: seq<Pbuf>,
                  ghost off: nat, used: nat, ghost from: nat, flags: Flags, env: seq<Pass>) returns (ok: bool)
      requires Copied(mem, text, had, off, flags.peek, used == 0)
      requires TookAll(was, received, env, from, if used < from then from else used)
      requires from <= 1 <= |env| && used <= |env|
      requires (lastdata.Some? <==> used < from) && (flags.peek ==> used == 0)
      modifies `lastdata, `received
      ensures ok == (old(lastdata).Some? || (used < |env| && !Starves(flags, env[used])))
      ensures Copied(mem, text, had, off, flags.peek, used == 0)
      ensures ok ==> used < |env| && lastdata.Some? && TookAll(was, received, env, from, used + 1)
      ensures if ok && old(lastdata).None?
              then env[used].result == Data(lastdata.value) && received == old(received) + [lastdata.value]
              else lastdata == old(lastdata) && received == old(received)
    {
      if lastdata.None? {
        if used == |env| || WouldBlock(flags, env[used]) || env[used].result.Fail? {
          return false;
        }
        TookMore(was, received, env, from, used);
        Keep(env[used].result.p);
      }
      ok := true;
    }

    /** After `used` passes: `off` octets of `len`, not fewer than `least`, and what `done` means. */
    ghost predicate SoFar(mem: seq<Octet>, text: seq<Octet>, had: seq<Octet>, was: seq<Pbuf>, least: nat, len: nat,
                          off: nat, used: nat, from: nat, flags: Flags, env: seq<Pass>, done: bool)
      reads `lastdata, `lastoffset, `received, `freed, `consumed
    {
      && least <= off <= len && Copied(mem, text, had, off, flags.peek, false)
      && Paced(was, received, env, from, used, done, off == len || flags.peek)
      && (flags.peek ==> done)
      && if done then off < len ==> Unread() == [] || (flags.peek && off == |Unread()|)
         else lastdata == None && off < len
    }

    /** A pass that is not the first. */
    method NextPass(mem: array<Octet>, ghost text: seq<Octet>, ghost had: seq<Octet>, ghost was: seq<Pbuf>,
                    ghost least: nat, len: nat, off: nat, used: nat, ghost from: nat, flags: Flags, env: seq<Pass>)
        returns (ok: bool, n: nat, done: bool)
      requires len <= mem.Length && from <= 1
      requires SoFar(mem[..], text, had, was, least, len, off, used, from, flags, env, false)
      modifies mem, `lastdata, `lastoffset, `received, `freed, `consumed
      ensures ok == (used < |env| && !Starves(flags, env[used]))
      ensures ok ==> SoFar(mem[..], text, had, was, least, len, off + n, used + 1, from, flags, env, done)
      ensures !ok ==> SoFar(mem[..], text, had, was, least, len, off, used, from, flags, env, false)
    {
      n, done := 0, false;
      ok := Choose(mem[..], text, had, was, off, used, from, flags, env);
      if ok {
        ghost var p := lastdata.value;
        n, done := Advance(mem, text, had, off, len - off, flags.peek, false, env[used].after);
        PacedMore(was, old(received), env, from, used, p, done, off + n == len || flags.peek);
      }
    }

    /** The pass that is the first. */
    method FirstPass(mem: array<Octet>, len: nat, flags: Flags, env: seq<Pass>) returns (ok: bool, n: nat, done: bool)
      requires Stream() && len <= mem.Length && env != []
      modifies mem, `lastdata, `lastoffset, `received, `freed, `consumed
      ensures ok == (old(lastdata).Some? || !Starves(flags, env[0]))
      ensures var from, least := if old(lastdata).Some? then 1 else 0, Min(len, |old(Unread())|);
              ok ==>
                SoFar(mem[..], old(mem[..]), old(consumed), old(received), least, len, n, 1, from, flags, env, done)
      ensures !ok ==> Copied(mem[..], old(mem[..]), old(consumed), 0, flags.peek, true)
      ensures !ok ==> lastdata == None && received == old(received)
    {
      ghost var from := if lastdata.Some? then 1 else 0;
      ghost var text, had, was := mem[..], consumed, received;
      n, done := 0, false;
      ok := Choose(text, text, had, received, 0, 0, from, flags, env);
      if ok {
        assert received[|was| - from] == lastdata.value;
        n, done := Advance(mem, text, had, 0, len, flags.peek, true, env[0].after);
      }
    }

    /** All passes but the first. */
    method GoOn(mem: array<Octet>, ghost text: seq<Octet>, ghost had: seq<Octet>, ghost was: seq<Pbuf>,
                ghost least: nat, len: nat, copied: nat, ghost from: nat, flags: Flags, env: seq<Pass>, finished: bool)
        returns (off: nat, used: nat, done: bool)
      requires len <= mem.Length && from <= 1
      requires SoFar(mem[..], text, had, was, least, len, copied, 1, from, flags, env, finished)
      modifies mem, `lastdata, `lastoffset, `received, `freed, `consumed
      ensures SoFar(mem[..], text, had, was, least, len, off, used, from, flags, env, done)
      ensures !done && used < |env| ==> Starves(flags, env[used])
    {
      off, used, done := copied, 1, finished;
      while !done
        invariant SoFar(mem[..], text, had, was, least, len, off, used, from, flags, env, done)
        decreases |env| - used
      {
        var ok, n, end := NextPass(mem, text, had, was, least, len, off, used, from, flags, env);
        if !ok {
          return;
        }
        off, used, done := off + n, used + 1, end;
      }
    }

    /** The loop, until it is done, starves, or waits for the environment to go on. */
    method Gather(mem: array<Octet>, len: nat, flags: Flags, env: seq<Pass>) returns (off: nat, used: nat, done: bool)
      requires Stream() && len <= mem.Length && env != []
      modifies mem, `lastdata, `lastoffset, `received, `freed, `consumed
      ensures off <= len && used <= |env| && Copied(mem[..], old(mem[..]), old(consumed), off, flags.peek, used == 0)
      ensures var from := if old(lastdata).Some? then 1 else 0;
              && TookAll(old(received), received, env, from, used)
              && (used == 0 ==> !done && from == 0)
              && (used > 0 ==> Paced(old(received), received, env, from, used, done, off == len || flags.peek))
      ensures done && off < len ==> Unread() == [] || (flags.peek && off == |Unread()|)
      ensures off >= Min(len, |old(Unread())|)
      ensures !done ==> lastdata == None && (used > 0 ==> off < len)
      ensures !done ==> (used < |env| ==> Starves(flags, env[used])) && (flags.peek ==> used == 0)
    {
      ghost var from := if lastdata.Some? then 1 else 0;
      ghost var was, had, text, least := received, consumed, mem[..], Min(len, |Unread()|);
      var ok, n, end := FirstPass(mem, len, flags, env);
      off, used, done := 0, 0, false;
      if ok {
        off, used, done := GoOn(mem, text, had, was, least, len, n, from, flags, env, end);
      }
    }

    /** lwip_recvfrom, with what its loop leaves behind. */
    method Receive(mem: array<Octet>, len: nat, flags: Flags, env: seq<Pass>)
        returns (r: Outcome, used: nat, ghost off: nat, ghost done: bool)
      requires Valid() && len <= mem.Length && env != []
      modifies this, mem
      ensures r.Returned? ==> Valid() && -1 <= r.n <= len
      // The bytes that come back are the next of the stream, and nothing else of `mem` changes.
      ensures r.Returned? && r.n >= 0 && !flags.peek ==> consumed == old(consumed) + mem[..r.n]
      ensures r.Returned? && r.n >= 0 && flags.peek ==>
                consumed == old(consumed) && r.n <= |Unread()| && mem[..r.n] == Unread()[..r.n]
      ensures r.Returned? && r.n >= 0 ==> mem[r.n..] == old(mem[..])[r.n..]
      ensures var least := Min(len, |old(Unread())|);
              r.Returned? && least > 0 ==> r.n >= least
      ensures r == Returned(-1) ==> consumed == old(consumed) && mem[..] == old(mem[..])
      // The window is opened by exactly what comes back, even if it will come back again.
      ensures r.Returned? ==> credited == old(credited) + if r.n > 0 then r.n else 0
      ensures r.Returned? ==> peeked == old(peeked) + if flags.peek && r.n > 0 then r.n else 0
      // A short count means that nothing received is left unread.
      ensures r.Returned? && 0 <= r.n < len ==> Unread() == [] || (flags.peek && r.n == |Unread()|)
      // No pbuf is passed over.
      ensures var from := if old(lastdata).Some? then 1 else 0;
              TookAll(old(received), received, env, from, used)
      // Errors: they are reported only if nothing was copied.
      ensures r == Returned(-1) ==> used < |env| && Starves(flags, env[used]) && Verdict(flags, env[used]) == -1
      ensures r == Returned(0) && len > 0 ==>
                || (used < |env| && Starves(flags, env[used]) && Verdict(flags, env[used]) == 0)
                || Bytes(received) == consumed == old(consumed)
      // A blocked call has copied what it consumed, and will open the window when it returns.
      ensures r == Blocked ==>
                && used == |env| && lastdata == None && !flags.peek && Stream() && credited == old(credited)
                && old(consumed) <= consumed && Min(len, |old(Unread())|) <= |consumed| - |old(consumed)| < len
                && mem[..|consumed| - |old(consumed)|] == consumed[|old(consumed)|..]
      ensures off <= len && (!flags.peek ==> off == |consumed| - |old(consumed)|)
      ensures var was, from := old(received), if old(lastdata).Some? then 1 else 0;
              && (used == 0 ==> !done && from == 0 && off == 0)
              && (used > 0 ==> Paced(was, received, env, from, used, done, off == len || flags.peek))
      ensures !done && used < |env| ==> Starves(flags, env[used])
      ensures r == if !done && used == |env| then Blocked
                   else Returned(if done || off > 0 then off else Verdict(flags, env[used]))
    {
      var o: nat, d;
      ghost var had, text := consumed, mem[..];
      o, used, d := Gather(mem, len, flags, env);
      off, done := o, d;
      assert mem[..o] == mem[..][..o] && mem[o..] == text[o..];
      assert !flags.peek ==> had <= consumed && consumed[|had|..] == mem[..o];
      if !d && used == |env| {
        return Blocked, used, off, done;
      }
      if o > 0 {
        Recved(o, flags.peek);
      }
      Conservation();
      return Returned(if d || o > 0 then o else Verdict(flags, env[used])), used, off, done;
    }

    /** lwip_recvfrom. The environment gives one entry of `env` to each pass; `used` passes were
      * completed when the call returned, or was left blocked. */
    method Recvfrom(mem: array<Octet>, len: nat, flags: Flags, env: seq<Pass>) returns (r: Outcome, used: nat)
      requires Valid() && len <= mem.Length && env != []
      modifies this, mem
      ensures r.Returned? ==> Valid() && -1 <= r.n <= len
      // The bytes that come back are the next of the stream, and nothing else of `mem` changes.
      ensures r.Returned? && r.n >= 0 && !flags.peek ==> consumed == old(consumed) + mem[..r.n]
      ensures r.Returned? && r.n >= 0 && flags.peek ==>
                consumed == old(consumed) && r.n <= |Unread()| && mem[..r.n] == Unread()[..r.n]
      ensures r.Returned? && r.n >= 0 ==> mem[r.n..] == old(mem[..])[r.n..]
      ensures var least := Min(len, |old(Unread())|);
              r.Returned? && least > 0 ==> r.n >= least
      ensures r == Returned(-1) ==> consumed == old(consumed) && mem[..] == old(mem[..])
      // The window is opened by exactly what comes back, even if it will come back again.
      ensures r.Returned? ==> credited == old(credited) + if r.n > 0 then r.n else 0
      ensures r.Returned? ==> peeked == old(peeked) + if flags.peek && r.n > 0 then r.n else 0
      // A short count means that nothing received is left unread.
      ensures r.Returned? && 0 <= r.n < len ==> Unread() == [] || (flags.peek && r.n == |Unread()|)
      // No pbuf is passed over.
      ensures var from := if old(lastdata).Some? then 1 else 0;
              TookAll(old(received), received, env, from, used)
      // After each pass but the last, the loop had reason to go on. The call returns at once after a pass that
      // fills the buffer, brings PUSH or leaves nothing more to read, or if it only peeks; otherwise it waits
      // for data, or ends because there is none.
      ensures var was, from := old(received), if old(lastdata).Some? then 1 else 0;
              && from <= |was| && |received| == |was| + used - from && used <= |env|
              && (forall j {:trigger Quiet(was, received, env, from, j)} | 0 <= j < used - 1 ::
                    Quiet(was, received, env, from, j))
              && var copied := |consumed| - |old(consumed)|;
                 if used > 0 && (flags.peek || copied == len || received[|was| + used - 1 - from].push
                                 || env[used - 1].after <= 0)
                 then r.Returned? && r.n >= 0 && (!flags.peek ==> r.n == copied)
                 else if used == |env| then r == Blocked
                 else if copied > 0 then r == Returned(copied)
                 else
                   var pass := env[used];
                   r == if (flags.dontwait || flags.nonblocking) && pass.before <= 0 then Returned(-1)
                        else if pass.result == Fail(Clsd) then Returned(0) else Returned(-1)
      // Errors: they are reported only if nothing was copied.
      ensures r == Returned(-1) ==> used < |env| && Starves(flags, env[used]) && Verdict(flags, env[used]) == -1
      ensures r == Returned(0) && len > 0 ==>
                || (used < |env| && Starves(flags, env[used]) && Verdict(flags, env[used]) == 0)
                || Bytes(received) == consumed == old(consumed)
      // A blocked call has copied what it consumed, and will open the window when it returns.
      ensures r == Blocked ==>
                && used == |env| && lastdata == None && !flags.peek && Stream() && credited == old(credited)
                && old(consumed) <= consumed && Min(len, |old(Unread())|) <= |consumed| - |old(consumed)| < len
                && mem[..|consumed| - |old(consumed)|] == consumed[|old(consumed)|..]
    {
      ghost var off, done;
      r, used, off, done := Receive(mem, len, flags, env);
    }
  }

  /** If the stream went `c`, `u` and now goes `c`, `x`, `v`, then `x` starts as `u` does. */
  lemma SameStream(before: seq<Octet>, after: seq<Octet>, c: seq<Octet>, u: seq<Octet>, x: seq<Octet>, v: seq<Octet>)
    requires before == c + u && after == c + x + v && before <= after && |x| <= |u|
    ensures x == u[..|x|]
  {
    forall i | 0 <= i < |x|
      ensures x[i] == u[i]
    {
      assert before[|c| + i] == after[|c| + i];
    }
  }

  /** Reading with MSG_PEEK as much as is there. */
  method PeekAt(s: Socket, mem: array<Octet>, flags: Flags, env: seq<Pass>)
    requires s.Valid() && 0 < mem.Length <= |s.Unread()| && flags.peek && env != []
    modifies s, mem
    ensures s.Valid() && s.consumed == old(s.consumed) && s.credited == old(s.credited) + mem.Length
    ensures mem[..] <= s.Unread()
  {
    var r, used := s.Recvfrom(mem, mem.Length, flags, env);
    assert mem[..r.n] == mem[..];
  }

  /** Reading without it. */
  method Read(s: Socket, mem: array<Octet>, flags: Flags, env: seq<Pass>)
    requires s.Valid() && 0 < mem.Length <= |s.Unread()| && !flags.peek && env != []
    modifies s, mem
    ensures s.Valid() && s.consumed == old(s.consumed) + mem[..] && s.credited == old(s.credited) + mem.Length
    ensures mem[..] <= old(s.Unread())
  {
    ghost var was, had, next := s.received, s.consumed, s.Unread();
    s.Conservation();
    var r, used := s.Recvfrom(mem, mem.Length, flags, env);
    assert mem[..r.n] == mem[..];
    s.Conservation();
    BytesPrefix(was, s.received);
    SameStream(Bytes(was), Bytes(s.received), had, next, mem[..], s.Unread());
  }

  /** By Valid, the window has been opened by as much as was consumed if and only if no call with
    * MSG_PEEK has returned data. Here is how it fails: whatever is peeked at comes back from the
    * next call, and opens the window both times. */
  method PeekThenRead(s: Socket, mem: array<Octet>, again: array<Octet>, flags: Flags, env: seq<Pass>)
    requires s.Valid() && mem != again && mem.Length == again.Length
    requires 0 < mem.Length <= |s.Unread()| && flags.peek && env != []
    modifies s, mem, again
    ensures s.Valid() && mem[..] == again[..] && s.consumed == old(s.consumed) + mem[..]
    ensures s.credited == old(s.credited) + 2 * mem.Length
  {
    PeekAt(s, mem, flags, env);
    Read(s, again, flags.(peek := false), env);
  }
}
