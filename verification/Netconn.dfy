/** The TCP half of lwip/src/api/api_msg.c: a blocking operation on a netconn is begun by a message
  * of an application thread and carried on by callbacks of the TCP core, until one of them signals
  * op_completed. LWIP_TCPIP_CORE_LOCKING is 0 and LWIP_SO_SNDTIMEO is 1. */
module Netconn {
  import opened Basics

  const ERR_OK := 0
  const ERR_MEM := -1
  const ERR_INPROGRESS := -5
  const ERR_VAL := -6
  const ERR_WOULDBLOCK := -7
  const ERR_ISCONN := -9
  const ERR_CLSD := -12
  const ERR_CONN := -13

  predicate Fatal(err: int) {
    err < ERR_ISCONN
  }

  datatype NetconnState = Idle | Write | Listen | Connect | Close

  /** A message of an application thread. netconn_write does not send empty ones. */
  datatype Request =
    | WriteReq(data: seq<Octet>, dontblock: bool)
    | ConnectReq
    | ListenReq
    | CloseReq(rx: bool, tx: bool)
    | DeleteReq
  {
    /** The handler asserts that no write or close is under way, if it does not refuse. */
    predicate Guarded() {
      WriteReq? || CloseReq? || DeleteReq?
    }
  }

  /** A message, numbered in the order of arrival. */
  datatype Message = Message(id: nat, req: Request)

  /** A message whose thread has been signalled: the err and w.len it finds, the number of its
    * octets that tcp_write took, and whether the write was allowed to end early, because it must
    * not block or its time was up. */
  datatype Done = Done(msg: Message, err: int, len: nat, sent: nat, early: bool)

  /** What happens during one call of do_writemore or do_close_internal: tcp_sndbuf, the result of
    * tcp_write, and that of tcp_close or tcp_shutdown; and whether the send timeout has passed. */
  datatype Tcp = Tcp(sndbuf: nat, write: int, close: int, timedOut: bool)

  /** The threads that have been signalled so far, oldest first. */
  datatype History = Nobody | Then(before: History, last: Done)

  /** How often message `id` has been signalled. */
  function Signals(h: History, id: nat): nat {
    if h.Nobody? then 0 else Signals(h.before, id) + if h.last.msg.id == id then 1 else 0
  }

  function Length(req: Request): nat {
    if req.WriteReq? then |req.data| else 0
  }

  /** What tcp_write took of a message. */
  function Taken(d: Done): seq<Octet> {
    if d.msg.req.WriteReq? && d.sent <= |d.msg.req.data| then d.msg.req.data[..d.sent] else []
  }

  /** What tcp_write took of all messages, in order. */
  function Sent(h: History): seq<Octet> {
    if h.Nobody? then [] else Sent(h.before) + Taken(h.last)
  }

  /** What a thread is told about its write. Success means that the length it is told is what went
    * out; and that is all of it, unless the write could end early. */
  predicate Honest(d: Done) {
    d.msg.req.WriteReq? ==>
      && d.sent <= |d.msg.req.data|
      && (d.err == ERR_OK ==> d.len == d.sent && (!d.early ==> d.sent == |d.msg.req.data|))
  }

  predicate AllHonest(h: History) {
    h.Then? ==> Honest(h.last) && AllHonest(h.before)
  }

  /** What tcp_write has taken of the current message. */
  function Partial(current: Option<Message>, offset: nat): seq<Octet> {
    if current.Some? && current.value.req.WriteReq? && offset <= |current.value.req.data|
    then current.value.req.data[..offset] else []
  }

  /** Message `id` is being worked on, or has been signalled, once. */
  ghost predicate Once(posted: nat, h: History, current: Option<Message>, id: nat) {
    Signals(h, id) + (if current.Some? && current.value.id == id then 1 else 0) == if id < posted then 1 else 0
  }

  /** That goes for every message, and the octets sent are those of the messages. */
  ghost predicate Kept(posted: nat, h: History, stream: seq<Octet>, current: Option<Message>, offset: nat) {
    && (forall id {:trigger Once(posted, h, current, id)} :: Once(posted, h, current, id))
    && stream == Sent(h) + Partial(current, offset)
    && AllHonest(h)
  }

  lemma KeptByAnswer(posted: nat, h: History, stream: seq<Octet>, current: Option<Message>, offset: nat, d: Done)
    requires Kept(posted, h, stream, current, offset) && Honest(d) && d.sent == 0 && d.msg.id == posted
    ensures Kept(posted + 1, Then(h, d), stream, current, offset)
  {
    assert Sent(Then(h, d)) == Sent(h);
    var next := posted + 1;
    forall id ensures Once(next, Then(h, d), current, id) {
      assert Once(posted, h, current, id);
    }
  }

  lemma KeptByStart(posted: nat, h: History, stream: seq<Octet>, req: Request, offset: nat)
    requires Kept(posted, h, stream, None, offset) && (req.WriteReq? ==> offset == 0)
    ensures Kept(posted + 1, h, stream, Some(Message(posted, req)), offset)
  {
    var next, msg := posted + 1, Some(Message(posted, req));
    forall id ensures Once(next, h, msg, id) {
      assert Once(posted, h, None, id);
    }
  }

  lemma KeptByFinish(posted: nat, h: History, stream: seq<Octet>, msg: Message, offset: nat, d: Done, next: nat)
    requires Kept(posted, h, stream, Some(msg), offset) && Honest(d) && d.msg == msg
    requires d.sent == if msg.req.WriteReq? then offset else 0
    ensures Kept(posted, Then(h, d), stream, None, next)
  {
    assert Partial(None, next) == [];
    assert stream + [] == stream;
    forall id ensures Once(posted, Then(h, d), None, id) {
      assert Once(posted, h, Some(msg), id);
    }
  }

  lemma KeptBySlice(posted: nat, h: History, stream: seq<Octet>, msg: Message, offset: nat, n: nat)
    requires Kept(posted, h, stream, Some(msg), offset) && msg.req.WriteReq? && offset + n <= |msg.req.data|
    ensures Kept(posted, h, stream + msg.req.data[offset..offset + n], Some(msg), offset + n)
  {
    SliceNext(Sent(h), msg.req.data, offset, n);
  }

  lemma SliceNext(base: seq<Octet>, data: seq<Octet>, offset: nat, n: nat)
    requires offset + n <= |data|
    ensures base + data[..offset] + data[offset..offset + n] == base + data[..offset + n]
  {
    assert data[..offset] + data[offset..offset + n] == data[..offset + n];
  }

  /** The part of struct netconn that these functions work on; `pcb` says whether pcb.tcp is set. */
  class Conn {
    var state: NetconnState
    var current: Option<Message>
    var writeOffset: nat
    var pcb: bool
    var lastErr: int
    var nonblocking: bool
    var inNonblockingConnect: bool

    /** How many messages have arrived: a message is told from others by its number. */
    var posted: nat

    /** The messages that have been signalled, and all octets that tcp_write has taken. */
    var completed: History
    var stream: seq<Octet>

    /** Whether the last write was ended halfway, and whether the assertion "already writing or closing"
      * held wherever it was met. */
    ghost var left: bool
    ghost var assertsHold: bool

    /** The state says which message is being worked on. */
    ghost predicate Shape()
      reads `state, `current, `writeOffset, `pcb, `nonblocking, `inNonblockingConnect, `left
    {
      && (state != Write && pcb ==> (writeOffset != 0 <==> left)) && (state == Write ==> !left)
      && match state
         case Idle => current.None? && (inNonblockingConnect ==> !pcb)
         case Write =>
           && pcb && !inNonblockingConnect && !nonblocking
           && current.Some? && current.value.req.WriteReq? && !current.value.req.dontblock
           && writeOffset < |current.value.req.data|
         case Listen => pcb && !inNonblockingConnect && current.None?
         case Connect =>
           pcb && if inNonblockingConnect then current.None? else current.Some? && current.value.req == ConnectReq
         case Close =>
           && pcb && !inNonblockingConnect
           && current.Some? && (current.value.req == DeleteReq || current.value.req.CloseReq?)
    }

    ghost predicate Books()
      reads `current, `writeOffset, `posted, `completed, `stream
    {
      Kept(posted, completed, stream, current, writeOffset)
    }

    ghost predicate Valid()
      reads this
    {
      Shape() && Books()
    }

    constructor ()
      ensures Valid() && state == Idle && pcb && posted == 0 && completed == Nobody && stream == []
      ensures writeOffset == 0 && !nonblocking && !left && assertsHold && lastErr == ERR_OK
    {
      state, current, writeOffset, pcb, lastErr := Idle, None, 0, true, ERR_OK;
      nonblocking, inNonblockingConnect := false, false;
      posted, completed, stream, left, assertsHold := 0, Nobody, [], false, true;
    }

    /** The handler of a message answers it at once. */
    method Answer(req: Request, err: int)
      requires Books() && (req.WriteReq? ==> err != ERR_OK)
      modifies `completed, `posted
      ensures Books() && Look(this) == Replied(old(Look(this)), req, err)
    {
      var d := Done(Message(posted, req), err, Length(req), 0, false);
      KeptByAnswer(posted, completed, stream, current, writeOffset, d);
      posted, completed := posted + 1, Then(completed, d);
    }

    /** tcp_write took `n` octets. */
    method Advance(n: nat)
      requires Books() && current.Some? && current.value.req.WriteReq? && writeOffset + n <= |current.value.req.data|
      modifies `writeOffset, `stream
      ensures Books() && writeOffset == old(writeOffset) + n
      ensures stream == old(stream) + current.value.req.data[old(writeOffset)..writeOffset]
    {
      var slice := current.value.req.data[writeOffset..writeOffset + n];
      KeptBySlice(posted, completed, stream, current.value, writeOffset, n);
      stream := stream + slice;
      writeOffset := writeOffset + n;
    }

    /** The current message is answered and its thread is signalled. */
    method Finish(err: int, len: nat, early: bool, reset: bool)
      requires Books() && current.Some?
      requires Honest(Done(current.value, err, len, if current.value.req.WriteReq? then writeOffset else 0, early))
      modifies `state, `current, `completed, `writeOffset
      ensures Books()
      ensures var v := Ended(old(Look(this)), err, len, early);
              Look(this) == if reset then v.(writeOffset := 0) else v
    {
      var d := Done(current.value, err, len, if current.value.req.WriteReq? then writeOffset else 0, early);
      KeptByFinish(posted, completed, stream, current.value, writeOffset, d, if reset then 0 else writeOffset);
      if reset {
        writeOffset := 0;
      }
      current, state, completed := None, Idle, Then(completed, d);
    }

    /** do_writemore. */
    method DoWritemore(t: Tcp)
      requires Books() && current.Some? && current.value.req.WriteReq? && writeOffset < |current.value.req.data|
      requires state == Write && !left && t.sndbuf <= 0xFFFF
      modifies `state, `current, `writeOffset, `completed, `stream, `left
      ensures Books() && Look(this) == WriteOn(old(Look(this)), t)
      ensures WriteGoesOn(old(Look(this)), t, Look(this))
      ensures left == (state != Write && writeOffset != 0)
    {
      WriteOnMeaning(Look(this), t);
      if t.timedOut {
        left := writeOffset > 0;
        Finish(if writeOffset == 0 then ERR_WOULDBLOCK else ERR_OK, writeOffset, true, false);
      } else {
        WriteSlice(t);
      }
    }

    /** The part of do_writemore that calls tcp_write. */
    method WriteSlice(t: Tcp)
      requires Books() && current.Some? && current.value.req.WriteReq? && writeOffset < |current.value.req.data|
      requires state == Write && !left && t.sndbuf <= 0xFFFF && !t.timedOut
      modifies `state, `current, `writeOffset, `completed, `stream, `left
      ensures Books() && Look(this) == WriteOn(old(Look(this)), t)
      ensures left == (state != Write && writeOffset != 0)
    {
      var dontblock := nonblocking || current.value.req.dontblock;
      var len := Min(Min(|current.value.req.data| - writeOffset, 0xFFFF), t.sndbuf);
      var err := if len == 0 && dontblock then ERR_WOULDBLOCK else t.write;
      WriteOnCases(Look(this), t, len, dontblock, err);
      if err == ERR_OK {
        TakeSlice(len, dontblock);
      } else if err != ERR_MEM || dontblock {
        left := writeOffset > 0;
        Finish(err, 0, dontblock, false);
      }
    }

    /** tcp_write took the next `n` octets; if it was the last slice, the thread goes on. */
    method TakeSlice(n: nat, dontblock: bool)
      requires Books() && current.Some? && current.value.req.WriteReq? && state == Write
      requires writeOffset + n <= |current.value.req.data|
      modifies `state, `current, `writeOffset, `completed, `stream
      ensures Books() && Look(this) == Sliced(old(Look(this)), n, dontblock)
    {
      Advance(n);
      if writeOffset == |current.value.req.data| || dontblock {
        Finish(ERR_OK, writeOffset, dontblock, true);
      }
    }

    /** A message becomes current. */
    method Start(req: Request, next: NetconnState)
      requires Books() && current.None?
      modifies `state, `current, `writeOffset, `posted
      ensures Books() && Look(this) == Begun(old(Look(this)), req, next)
    {
      KeptByStart(posted, completed, stream, req, if req.WriteReq? then 0 else writeOffset);
      state, current, posted := next, Some(Message(posted, req)), posted + 1;
      if req.WriteReq? {
        writeOffset := 0;
      }
    }

    method BeginWrite(req: Request, t: Tcp)
      requires Valid() && req.WriteReq? && req.data != [] && t.sndbuf <= 0xFFFF && state == Idle && pcb
      modifies `state, `current, `writeOffset, `completed, `posted, `stream, `left
      ensures Valid() && Look(this) == WriteBegun(old(Look(this)), req, t) && !left
    {
      Start(req, Write);
      left := false;
      DoWritemore(t);
    }

    /** do_write. */
    method DoWrite(req: Request, t: Tcp)
      requires Valid() && req.WriteReq? && req.data != [] && t.sndbuf <= 0xFFFF
      modifies `state, `current, `writeOffset, `completed, `posted, `stream, `left, `assertsHold
      ensures Valid() && Look(this) == Unless(old(Look(this)), req, WriteBegun(old(Look(this)), req, t))
      ensures var begins := Refusal(old(Look(this)), req).None?;
              && assertsHold == (old(assertsHold) && (begins ==> old(writeOffset) == 0))
              && left == (old(left) && !begins)
      ensures WriteAnswered(old(Look(this)), req, t, Look(this))
    {
      WriteMeaning(Look(this), req, t);
      if Fatal(lastErr) {
        Answer(req, lastErr);
      } else if state != Idle {
        Answer(req, ERR_INPROGRESS);
      } else if pcb {
        assertsHold := assertsHold && writeOffset == 0;
        BeginWrite(req, t);
      } else {
        Answer(req, ERR_CONN);
      }
    }

    /** do_close_internal. On failure a later callback tries again. */
    method DoCloseInternal(close: int)
      requires Books() && state == Close && pcb && current.Some?
      requires current.value.req.CloseReq? || current.value.req.DeleteReq?
      modifies `state, `current, `completed, `writeOffset, `pcb
      ensures Books() && Look(this) == CloseOn(old(Look(this)), close)
    {
      var req := current.value.req;
      if close == ERR_OK {
        Finish(ERR_OK, 0, false, false);
        if req.DeleteReq? || (req.rx && req.tx) {
          pcb := false;
        }
      }
    }

    method BeginClose(req: Request, t: Tcp)
      requires Valid() && (req.CloseReq? || req.DeleteReq?) && pcb && current.None?
      requires state == Idle || ((state == Listen || state == Connect) && t.close == ERR_OK)
      requires state == Listen && req.CloseReq? ==> req.rx && req.tx
      requires state == Connect ==> req.DeleteReq?
      modifies `state, `current, `writeOffset, `completed, `posted, `pcb
      ensures Valid() && Look(this) == CloseBegun(old(Look(this)), req, t)
    {
      Start(req, Close);
      DoCloseInternal(t.close);
    }

    /** do_close. */
    method DoClose(req: Request, t: Tcp)
      requires Valid() && req.CloseReq? && (state == Listen ==> t.close == ERR_OK)
      modifies `state, `current, `writeOffset, `completed, `posted, `pcb, `assertsHold
      ensures Valid() && Look(this) == Unless(old(Look(this)), req, CloseBegun(old(Look(this)), req, t))
      ensures CloseAnswered(old(Look(this)), req, t.close, Look(this))
      ensures assertsHold == (old(assertsHold) && (Refusal(old(Look(this)), req).None? ==> writeOffset == 0))
    {
      CloseMeaning(Look(this), req, t);
      if state != Idle && state != Listen {
        Answer(req, ERR_INPROGRESS);
      } else if pcb {
        if !(req.rx && req.tx) && state == Listen {
          Answer(req, ERR_CONN);
        } else {
          assertsHold := assertsHold && writeOffset == 0;
          BeginClose(req, t);
        }
      } else {
        Answer(req, ERR_VAL);
      }
    }

    /** do_delconn. A connect that blocks must not be in progress. Where there is no pcb, the code
      * leaves err as the caller set it. The flag of a non-blocking connect stays as it is; but
      * tcp_close frees a pcb that listens or connects at once. */
    method DoDelconn(t: Tcp)
      requires Valid() && !(state == Connect && !inNonblockingConnect)
      requires state == Listen || state == Connect ==> t.close == ERR_OK
      modifies `state, `current, `writeOffset, `completed, `posted, `pcb, `assertsHold
      ensures Valid() && Look(this) == Unless(old(Look(this)), DeleteReq, CloseBegun(old(Look(this)), DeleteReq, t))
      ensures CloseAnswered(old(Look(this)), DeleteReq, t.close, Look(this))
      ensures assertsHold == (old(assertsHold) && (Refusal(old(Look(this)), DeleteReq).None? ==> writeOffset == 0))
    {
      CloseMeaning(Look(this), DeleteReq, t);
      if state != Idle && state != Listen && state != Connect {
        Answer(DeleteReq, ERR_INPROGRESS);
      } else if pcb {
        assertsHold := assertsHold && writeOffset == 0;
        BeginClose(DeleteReq, t);
      } else {
        Answer(DeleteReq, ERR_OK);
      }
    }

    /** do_connect; `r` is the result of tcp_connect. */
    method DoConnect(r: int)
      requires Valid()
      modifies `state, `current, `writeOffset, `completed, `posted, `inNonblockingConnect
      ensures Valid() && Look(this) == Unless(old(Look(this)), ConnectReq, ConnectBegun(old(Look(this)), r))
      ensures ConnectAnswered(old(Look(this)), r, Look(this))
    {
      ConnectMeaning(Look(this), r);
      if !pcb {
        Answer(ConnectReq, ERR_CLSD);
      } else if state != Idle {
        Answer(ConnectReq, ERR_ISCONN);
      } else if r == ERR_OK {
        inNonblockingConnect := nonblocking;
        if nonblocking {
          state := Connect;
          Answer(ConnectReq, ERR_INPROGRESS);
        } else {
          Start(ConnectReq, Connect);
        }
      } else {
        Answer(ConnectReq, r);
      }
    }

    /** do_listen; `lpcb` says whether there was memory for the listening pcb, and `mbox` is the
      * result of sys_mbox_new. */
    method DoListen(lpcb: bool, mbox: int)
      requires Valid()
      modifies `state, `completed, `posted, `pcb
      ensures Valid() && Look(this) == Unless(old(Look(this)), ListenReq, ListenBegun(old(Look(this)), lpcb, mbox))
      ensures ListenAnswered(old(Look(this)), lpcb, mbox, Look(this))
    {
      ListenMeaning(Look(this), lpcb, mbox);
      if Fatal(lastErr) {
        Answer(ListenReq, lastErr);
      } else if !pcb || state != Idle {
        Answer(ListenReq, ERR_CONN);
      } else if !lpcb {
        Answer(ListenReq, ERR_MEM);
      } else {
        if mbox == ERR_OK {
          state := Listen;
        } else {
          pcb := false;
        }
        Answer(ListenReq, mbox);
      }
    }

    /** do_connected, called by the TCP core for a connection that is being set up. */
    method DoConnected(err: int)
      requires Valid() && state == Connect
      modifies `state, `current, `writeOffset, `completed, `inNonblockingConnect, `lastErr
      ensures Valid() && state == Idle && current == None && !inNonblockingConnect && writeOffset == old(writeOffset)
      ensures completed == if old(inNonblockingConnect) then old(completed)
                           else Then(old(completed), Done(old(current).value, err, 0, 0, false))
      ensures lastErr == if old(inNonblockingConnect) && !Fatal(old(lastErr)) then ERR_OK else old(lastErr)
    {
      if inNonblockingConnect {
        if !Fatal(lastErr) {
          lastErr := ERR_OK;
        }
        state, inNonblockingConnect := Idle, false;
      } else {
        Finish(err, 0, false, false);
      }
    }

    /** sent_tcp and poll_tcp. */
    method Carry(t: Tcp)
      requires Valid() && t.sndbuf <= 0xFFFF
      modifies `state, `current, `writeOffset, `completed, `stream, `left, `pcb
      ensures Valid() && Look(this) == GoneOn(old(Look(this)), t)
      ensures left == if old(state) == Write then state != Write && writeOffset != 0 else old(left)
    {
      if state == Write {
        DoWritemore(t);
      } else if state == Close {
        DoCloseInternal(t.close);
      }
    }

    /** err_tcp: the pcb is gone, and whoever waits is told. */
    method ErrTcp(err: int)
      requires Valid() && pcb && err != ERR_OK
      modifies `state, `current, `writeOffset, `completed, `inNonblockingConnect, `pcb, `lastErr
      ensures Valid() && !pcb && state == Idle && lastErr == err && writeOffset == old(writeOffset)
      ensures current == None && !inNonblockingConnect
      ensures completed ==
              if old(current).None? then old(completed)
              else Then(old(completed), Done(old(current).value, err, Length(old(current).value.req),
                                             if old(state) == Write then old(writeOffset) else 0, false))
    {
      var was := state;
      pcb, lastErr, state := false, err, Idle;
      if was == Write || was == Close || was == Connect {
        var wasNonblocking := inNonblockingConnect;
        inNonblockingConnect := false;
        if !wasNonblocking {
          Finish(err, Length(current.value.req), false, false);
        }
      }
    }
  }

  // ---------------------------------------------------------------- what callers are promised

  /** From `v` to `w` the thread of the current message was told `err` and `len`, of `sent` octets. */
  predicate Answers(v: View, w: View, msg: Message, err: int, len: nat, sent: nat, early: bool) {
    w.completed == Then(v.completed, Done(msg, err, len, sent, early))
  }

  /** What do_writemore does. tcp_write gets as much as is left, fits one call and has room; the thread goes
    * on when that is all, or if it must not wait. When its time is up it is told what went out. If there is
    * no room or no memory, a later callback tries again, or the thread is told so if it must not wait. */
  predicate WriteGoesOn(v: View, t: Tcp, w: View)
    requires v.current.Some? && v.current.value.req.WriteReq? && v.writeOffset < |v.current.value.req.data|
  {
    var msg, at := v.current.value, v.writeOffset;
    var rest, dontblock, n := |msg.req.data| - at, v.nonblocking || msg.req.dontblock, |w.stream| - |v.stream|;
    && 0 <= n <= rest && w.stream == v.stream + msg.req.data[at..at + n]
    && w.posted == v.posted && w.pcb == v.pcb && w.lastErr == v.lastErr
    && if !t.timedOut && t.write == ERR_OK && !(dontblock && t.sndbuf == 0) then
         && n <= 0xFFFF && n <= t.sndbuf && (n == rest || n == 0xFFFF || n == t.sndbuf)
         && if n == rest || dontblock
            then w.state == Idle && w.current == None && w.writeOffset == 0
                 && Answers(v, w, msg, ERR_OK, at + n, at + n, dontblock)
            else w.state == v.state && w.current == v.current && w.writeOffset == at + n && w.completed == v.completed
       else if !t.timedOut && !dontblock && t.write == ERR_MEM then w == v
       else
         && n == 0 && w.state == Idle && w.current == None && w.writeOffset == at
         && (if t.timedOut then Answers(v, w, msg, if at == 0 then ERR_WOULDBLOCK else ERR_OK, at, at, true)
             else if dontblock && t.sndbuf == 0 then Answers(v, w, msg, ERR_WOULDBLOCK, 0, at, dontblock)
             else Answers(v, w, msg, t.write, 0, at, dontblock))
  }

  lemma WriteOnMeaning(v: View, t: Tcp)
    requires v.current.Some? && v.current.value.req.WriteReq? && v.writeOffset < |v.current.value.req.data|
    ensures WriteGoesOn(v, t, WriteOn(v, t))
  {
    var req, at := v.current.value.req, v.writeOffset;
    var dontblock := v.nonblocking || req.dontblock;
    if !t.timedOut && t.write == ERR_OK && !(dontblock && t.sndbuf == 0) {
      SliceGoesOut(v, t);
    } else {
      assert v.stream + req.data[at..at] == v.stream;
    }
  }

  lemma SliceGoesOut(v: View, t: Tcp)
    requires v.current.Some? && v.current.value.req.WriteReq? && v.writeOffset < |v.current.value.req.data|
    requires !t.timedOut && t.write == ERR_OK
    requires !((v.nonblocking || v.current.value.req.dontblock) && t.sndbuf == 0)
    ensures WriteGoesOn(v, t, WriteOn(v, t))
  {
    var req, at := v.current.value.req, v.writeOffset;
    var n := Min(Min(|req.data| - at, 0xFFFF), t.sndbuf);
    assert WriteOn(v, t) == Sliced(v, n, v.nonblocking || req.dontblock);
    assert |v.stream + req.data[at..at + n]| - |v.stream| == n;
  }

  /** A message that was refused with `err`. */
  predicate Refused(v: View, req: Request, err: int, w: View) {
    && Answers(v, w, Message(v.posted, req), err, if req.WriteReq? then |req.data| else 0, 0, false)
    && w == v.(posted := v.posted + 1, completed := w.completed)
  }

  /** A close or delete: it is refused; or it is done, and the pcb is gone unless one direction stays open;
    * or it waits for a callback to try again. */
  predicate CloseAnswered(v: View, req: Request, close: int, w: View)
    requires req.CloseReq? || req.DeleteReq?
  {
    var msg, both := Message(v.posted, req), req.DeleteReq? || (req.rx && req.tx);
    if v.state == Write || v.state == Close || (req.CloseReq? && v.state == Connect)
    then Refused(v, req, ERR_INPROGRESS, w)
    else if !v.pcb then Refused(v, req, if req.CloseReq? then ERR_VAL else ERR_OK, w)
    else if v.state == Listen && !both then Refused(v, req, ERR_CONN, w)
    else if close == ERR_OK then
      && w.state == Idle && w.current == None && w.pcb == !both && Answers(v, w, msg, ERR_OK, 0, 0, false)
      && w.posted == v.posted + 1 && w.stream == v.stream && w.writeOffset == v.writeOffset
    else
      && w.state == Close && w.current == Some(msg) && w.pcb && w.completed == v.completed
      && w.posted == v.posted + 1 && w.stream == v.stream && w.writeOffset == v.writeOffset
  }

  lemma CloseMeaning(v: View, req: Request, t: Tcp)
    requires req.CloseReq? || req.DeleteReq?
    ensures CloseAnswered(v, req, t.close, Unless(v, req, CloseBegun(v, req, t)))
  {
  }

  /** A write: it is refused, or its first slice goes out. */
  predicate WriteAnswered(v: View, req: Request, t: Tcp, w: View)
    requires req.WriteReq? && req.data != []
  {
    if v.lastErr < ERR_ISCONN then Refused(v, req, v.lastErr, w)
    else if v.state != Idle then Refused(v, req, ERR_INPROGRESS, w)
    else if !v.pcb then Refused(v, req, ERR_CONN, w)
    else
      var msg := Message(v.posted, req);
      WriteGoesOn(v.(state := Write, current := Some(msg), posted := v.posted + 1, writeOffset := 0), t, w)
  }

  lemma WriteMeaning(v: View, req: Request, t: Tcp)
    requires req.WriteReq? && req.data != []
    ensures WriteAnswered(v, req, t, Unless(v, req, WriteBegun(v, req, t)))
  {
    WriteOnMeaning(Begun(v, req, Write), t);
  }

  /** A connect: it is refused; or the connection is being set up, and the thread waits or is told so. */
  predicate ConnectAnswered(v: View, r: int, w: View) {
    if !v.pcb then Refused(v, ConnectReq, ERR_CLSD, w)
    else if v.state != Idle then Refused(v, ConnectReq, ERR_ISCONN, w)
    else if r != ERR_OK then Refused(v, ConnectReq, r, w)
    else
      && w.state == Connect && w.pcb && w.posted == v.posted + 1 && w.inNonblockingConnect == v.nonblocking
      && if v.nonblocking
         then w.current == v.current && Answers(v, w, Message(v.posted, ConnectReq), ERR_INPROGRESS, 0, 0, false)
         else w.current == Some(Message(v.posted, ConnectReq)) && w.completed == v.completed
  }

  lemma ConnectMeaning(v: View, r: int)
    ensures ConnectAnswered(v, r, Unless(v, ConnectReq, ConnectBegun(v, r)))
  {
  }

  /** A listen is answered at once; the pcb is lost if the mailbox cannot be had. */
  predicate ListenAnswered(v: View, lpcb: bool, mbox: int, w: View) {
    if v.lastErr < ERR_ISCONN then Refused(v, ListenReq, v.lastErr, w)
    else if !v.pcb || v.state != Idle then Refused(v, ListenReq, ERR_CONN, w)
    else if !lpcb then Refused(v, ListenReq, ERR_MEM, w)
    else if mbox != ERR_OK then Refused(v.(pcb := false), ListenReq, mbox, w)
    else w.state == Listen && w.pcb && Answers(v, w, Message(v.posted, ListenReq), ERR_OK, 0, 0, false)
  }

  lemma ListenMeaning(v: View, lpcb: bool, mbox: int)
    ensures ListenAnswered(v, lpcb, mbox, Unless(v, ListenReq, ListenBegun(v, lpcb, mbox)))
  {
  }

  // ---------------------------------------------------------------- how long a write takes

  /** How many octets one call of do_writemore finds room for, if tcp_write does not run out of memory. */
  function OneRoom(t: Tcp): nat {
    if t.write == ERR_OK then Min(t.sndbuf, 0xFFFF) else 0
  }

  /** And all of these. */
  function Room(ts: seq<Tcp>): nat {
    if ts == [] then 0 else Room(ts[..|ts| - 1]) + OneRoom(ts[|ts| - 1])
  }

  /** A blocking write is under way. */
  predicate Writing(v: View) {
    && v.state == Write && v.current.Some? && v.current.value.req.WriteReq? && !v.nonblocking
    && !v.current.value.req.dontblock && v.writeOffset < |v.current.value.req.data|
  }

  predicate NoFailure(t: Tcp) {
    !t.timedOut && (t.write == ERR_OK || t.write == ERR_MEM)
  }

  lemma OneMoreSlice(v: View, t: Tcp)
    requires Writing(v) && NoFailure(t) && OneRoom(t) < |v.current.value.req.data| - v.writeOffset
    ensures var at, room := v.writeOffset, OneRoom(t);
            Next(v, Carried(t))
            == v.(writeOffset := at + room, stream := v.stream + v.current.value.req.data[at..at + room])
  {
    var at := v.writeOffset;
    assert v.stream + v.current.value.req.data[at..at] == v.stream;
  }

  lemma LastSlice(v: View, t: Tcp)
    requires Writing(v) && NoFailure(t) && OneRoom(t) >= |v.current.value.req.data| - v.writeOffset
    ensures var w, msg := Next(v, Carried(t)), v.current.value;
            && w.state == Idle && w.current == None && w.writeOffset == 0
            && Answers(v, w, msg, ERR_OK, |msg.req.data|, |msg.req.data|, false)
            && w.stream == v.stream + msg.req.data[v.writeOffset..]
  {
  }

  /** A netconn after these callbacks. */
  function Carriages(v: View, ts: seq<Tcp>): View {
    if ts == [] then v else Next(Carriages(v, ts[..|ts| - 1]), Carried(ts[|ts| - 1]))
  }

  /** A write of which `n` more octets are out. */
  function Forward(v: View, n: nat): View
    requires Writing(v) && v.writeOffset + n <= |v.current.value.req.data|
  {
    v.(writeOffset := v.writeOffset + n,
       stream := v.stream + v.current.value.req.data[v.writeOffset..v.writeOffset + n])
  }

  lemma ForwardMore(v: View, n: nat, t: Tcp)
    requires Writing(v) && NoFailure(t) && n + OneRoom(t) < |v.current.value.req.data| - v.writeOffset
    ensures Next(Forward(v, n), Carried(t)) == Forward(v, n + OneRoom(t))
  {
    OneMoreSlice(Forward(v, n), t);
    TwoSlices(v.stream, v.current.value.req.data, v.writeOffset, v.writeOffset + n, v.writeOffset + n + OneRoom(t));
  }

  /** A blocking write goes out octet by octet as there is room: after callbacks that found room for less than
    * is left, exactly that much is out, and the thread still waits. */
  lemma {:induction false} WriteProgress(v: View, ts: seq<Tcp>)
    requires Writing(v) && forall i | 0 <= i < |ts| :: NoFailure(ts[i])
    requires Room(ts) < |v.current.value.req.data| - v.writeOffset
    ensures Carriages(v, ts) == Forward(v, Room(ts))
  {
    if ts == [] {
      assert v.stream + v.current.value.req.data[v.writeOffset..v.writeOffset] == v.stream;
    } else {
      WriteProgress(v, ts[..|ts| - 1]);
      ForwardMore(v, Room(ts[..|ts| - 1]), ts[|ts| - 1]);
    }
  }

  lemma TwoSlices(base: seq<Octet>, data: seq<Octet>, i: nat, j: nat, k: nat)
    requires i <= j <= k <= |data|
    ensures base + data[i..j] + data[j..k] == base + data[i..k]
  {
    assert data[i..j] + data[j..k] == data[i..k];
  }

  /** And by the first callback that finds room for the rest, the thread is told that all went out. */
  lemma WriteFinishes(v: View, ts: seq<Tcp>)
    requires Writing(v) && ts != [] && forall i | 0 <= i < |ts| :: NoFailure(ts[i])
    requires Room(ts[..|ts| - 1]) < |v.current.value.req.data| - v.writeOffset <= Room(ts)
    ensures var w, msg := Carriages(v, ts), v.current.value;
            && w.state == Idle && w.current == None && w.writeOffset == 0
            && Answers(v, w, msg, ERR_OK, |msg.req.data|, |msg.req.data|, false)
            && w.stream == v.stream + msg.req.data[v.writeOffset..]
  {
    WriteProgress(v, ts[..|ts| - 1]);
    ForwardLast(v, Room(ts[..|ts| - 1]), ts[|ts| - 1]);
  }

  lemma ForwardLast(v: View, n: nat, t: Tcp)
    requires Writing(v) && NoFailure(t) && n < |v.current.value.req.data| - v.writeOffset <= n + OneRoom(t)
    ensures var w, msg := Next(Forward(v, n), Carried(t)), v.current.value;
            && w.state == Idle && w.current == None && w.writeOffset == 0
            && Answers(v, w, msg, ERR_OK, |msg.req.data|, |msg.req.data|, false)
            && w.stream == v.stream + msg.req.data[v.writeOffset..]
  {
    LastSlice(Forward(v, n), t);
    TwoSlices(v.stream, v.current.value.req.data, v.writeOffset, v.writeOffset + n, |v.current.value.req.data|);
  }

  lemma {:induction false} RoomAdds(ts: seq<Tcp>, m: nat)
    requires m <= 0xFFFF && forall i | 0 <= i < |ts| :: ts[i].write == ERR_OK && ts[i].sndbuf >= m
    ensures Room(ts) >= m * |ts|
  {
    if ts != [] {
      RoomAdds(ts[..|ts| - 1], m);
      assert m * |ts| == m * (|ts| - 1) + m;
    }
  }

  lemma {:induction false} FirstEnough(ts: seq<Tcp>, rest: nat) returns (k: nat)
    requires 0 < rest <= Room(ts)
    ensures 1 <= k <= |ts| && Room(ts[..k - 1]) < rest <= Room(ts[..k])
    decreases |ts|
  {
    var n := |ts| - 1;
    assert ts[..n + 1] == ts;
    if Room(ts[..n]) < rest {
      k := n + 1;
    } else {
      k := FirstEnough(ts[..n], rest);
      assert ts[..n][..k] == ts[..k] && ts[..n][..k - 1] == ts[..k - 1];
    }
  }

  /** So if every callback finds room for `m` octets, the thread is told that all went out by the time that
    * there were as many callbacks as the rest has pieces of `m`. */
  lemma WriteBound(v: View, ts: seq<Tcp>, m: nat) returns (k: nat)
    requires Writing(v) && 1 <= m <= 0xFFFF
    requires forall i | 0 <= i < |ts| :: !ts[i].timedOut && ts[i].write == ERR_OK && ts[i].sndbuf >= m
    requires m * |ts| >= |v.current.value.req.data| - v.writeOffset
    ensures 1 <= k <= |ts|
    ensures var w, msg := Carriages(v, ts[..k]), v.current.value;
            && w.state == Idle && w.current == None
            && Answers(v, w, msg, ERR_OK, |msg.req.data|, |msg.req.data|, false)
            && w.stream == v.stream + msg.req.data[v.writeOffset..]
  {
    RoomAdds(ts, m);
    k := FirstEnough(ts, |v.current.value.req.data| - v.writeOffset);
    assert ts[..k][..|ts[..k]| - 1] == ts[..k - 1];
    WriteFinishes(v, ts[..k]);
  }

  /** What can happen to a netconn: the messages of its threads, the callbacks of the TCP core, and
    * the socket option. `r` is the result of tcp_connect or of sys_mbox_new. */
  datatype Event =
    | Post(req: Request, t: Tcp, r: int, lpcb: bool)
    | Carried(t: Tcp)
    | Connected(err: int)
    | Failed(err: int)
    | SetNonblocking(on: bool)

  /** A netconn between two events, with what its threads have been told and what tcp_write has taken. */
  datatype View = View(state: NetconnState, current: Option<Message>, writeOffset: nat, pcb: bool, lastErr: int,
                       nonblocking: bool, inNonblockingConnect: bool, posted: nat, completed: History,
                       stream: seq<Octet>)

  const NEW := View(Idle, None, 0, true, ERR_OK, false, false, 0, Nobody, [])

  function Look(c: Conn): View
    reads c
  {
    View(c.state, c.current, c.writeOffset, c.pcb, c.lastErr, c.nonblocking, c.inNonblockingConnect, c.posted,
         c.completed, c.stream)
  }

  /** Apart from this, events come in any order. tcp_sndbuf is 16 bits wide; tcp_close never fails
    * for a pcb that listens or connects; tcp_write fails for good only outside the states in which a
    * write has begun; a callback needs a pcb; a netconn is not deleted under a thread that is
    * connecting; and the option is not changed under one that is waiting. */
  predicate CanHappen(v: View, e: Event)
  {
    match e
    case Post(req, t, r, lpcb) =>
      && t.sndbuf <= 0xFFFF
      && (req.WriteReq? ==> req.data != [])
      && (req.CloseReq? && v.state == Listen ==> t.close == ERR_OK)
      && (req.DeleteReq? && (v.state == Listen || v.state == Connect) ==> t.close == ERR_OK)
      && (req.DeleteReq? ==> !(v.state == Connect && !v.inNonblockingConnect))
    case Carried(t) =>
      v.pcb && t.sndbuf <= 0xFFFF && (v.state == Write ==> t.write == ERR_OK || t.write == ERR_MEM)
    case Connected(err) => v.state == Connect
    case Failed(err) => v.pcb && err != ERR_OK
    case SetNonblocking(on) => v.current.None?
  }

  /** A message is answered at once. */
  function Replied(v: View, req: Request, err: int): View {
    v.(posted := v.posted + 1,
       completed := Then(v.completed, Done(Message(v.posted, req), err, Length(req), 0, false)))
  }

  /** It becomes current. */
  function Begun(v: View, req: Request, next: NetconnState): View {
    v.(state := next, current := Some(Message(v.posted, req)), posted := v.posted + 1,
       writeOffset := if req.WriteReq? then 0 else v.writeOffset)
  }

  /** The current message is answered. */
  function Ended(v: View, err: int, len: nat, early: bool): View
    requires v.current.Some?
  {
    var msg := v.current.value;
    v.(state := Idle, current := None,
       completed := Then(v.completed, Done(msg, err, len, if msg.req.WriteReq? then v.writeOffset else 0, early)))
  }

  /** The next `n` octets are out. The thread goes on when all is, or if it must not wait. */
  function Sliced(v: View, n: nat, dontblock: bool): View
    requires v.current.Some? && v.current.value.req.WriteReq? && v.writeOffset + n <= |v.current.value.req.data|
  {
    var data, at := v.current.value.req.data, v.writeOffset;
    var w := v.(writeOffset := at + n, stream := v.stream + data[at..at + n]);
    if at + n == |data| || dontblock then Ended(w, ERR_OK, at + n, dontblock).(writeOffset := 0) else w
  }

  /** A write goes on, or ends: its time is up, and the thread is told how much went out, but the offset
    * stays; or the next slice goes out; or a later callback tries again; or the thread is told that
    * nothing was written. */
  function WriteOn(v: View, t: Tcp): View {
    if v.current.None? || !v.current.value.req.WriteReq? || v.writeOffset > |v.current.value.req.data| then v
    else
      var req, at := v.current.value.req, v.writeOffset;
      var n := Min(Min(|req.data| - at, 0xFFFF), t.sndbuf);
      var dontblock := v.nonblocking || req.dontblock;
      var err := if n == 0 && dontblock then ERR_WOULDBLOCK else t.write;
      if t.timedOut then Ended(v, if at == 0 then ERR_WOULDBLOCK else ERR_OK, at, true)
      else if err == ERR_OK then Sliced(v, n, dontblock)
      else if err == ERR_MEM && !dontblock then v
      else Ended(v, err, 0, dontblock)
  }

  lemma WriteOnCases(v: View, t: Tcp, n: nat, dontblock: bool, err: int)
    requires v.current.Some? && v.current.value.req.WriteReq? && v.writeOffset <= |v.current.value.req.data|
    requires n == Min(Min(|v.current.value.req.data| - v.writeOffset, 0xFFFF), t.sndbuf) && !t.timedOut
    requires dontblock == (v.nonblocking || v.current.value.req.dontblock)
    requires err == if n == 0 && dontblock then ERR_WOULDBLOCK else t.write
    ensures WriteOn(v, t) == if err == ERR_OK then Sliced(v, n, dontblock)
                             else if err == ERR_MEM && !dontblock then v
                             else Ended(v, err, 0, dontblock)
  {
  }

  /** A close goes on, or ends. */
  function CloseOn(v: View, close: int): View {
    if v.current.None? || close != ERR_OK then v
    else
      var req := v.current.value.req;
      Ended(v, ERR_OK, 0, false).(pcb := req.CloseReq? && !(req.rx && req.tx))
  }

  /** The answer to a message that is refused, if it is. */
  function Refusal(v: View, req: Request): Option<int> {
    match req
    case WriteReq(_, _) =>
      if Fatal(v.lastErr) then Some(v.lastErr) else if v.state != Idle then Some(ERR_INPROGRESS)
      else if !v.pcb then Some(ERR_CONN) else None
    case ConnectReq =>
      if !v.pcb then Some(ERR_CLSD) else if v.state != Idle then Some(ERR_ISCONN) else None
    case ListenReq =>
      if Fatal(v.lastErr) then Some(v.lastErr) else if !v.pcb || v.state != Idle then Some(ERR_CONN) else None
    case CloseReq(rx, tx) =>
      if v.state != Idle && v.state != Listen then Some(ERR_INPROGRESS) else if !v.pcb then Some(ERR_VAL)
      else if v.state == Listen && !(rx && tx) then Some(ERR_CONN) else None
    case DeleteReq =>
      if v.state == Write || v.state == Close then Some(ERR_INPROGRESS) else if !v.pcb then Some(ERR_OK) else None
  }

  /** What a message does, if it does `w` unless it is refused. */
  function Unless(v: View, req: Request, w: View): View {
    var refusal := Refusal(v, req);
    if refusal.Some? then Replied(v, req, refusal.value) else w
  }

  function WriteBegun(v: View, req: Request, t: Tcp): View {
    WriteOn(Begun(v, req, Write), t)
  }

  function CloseBegun(v: View, req: Request, t: Tcp): View {
    CloseOn(Begun(v, req, Close), t.close)
  }

  function ConnectBegun(v: View, r: int): View {
    if r != ERR_OK then Replied(v, ConnectReq, r)
    else if v.nonblocking then
      Replied(v.(state := Connect, inNonblockingConnect := true), ConnectReq, ERR_INPROGRESS)
    else Begun(v.(inNonblockingConnect := false), ConnectReq, Connect)
  }

  function ListenBegun(v: View, lpcb: bool, mbox: int): View {
    if !lpcb then Replied(v, ListenReq, ERR_MEM)
    else Replied(if mbox == ERR_OK then v.(state := Listen) else v.(pcb := false), ListenReq, mbox)
  }

  function Posted(v: View, req: Request, t: Tcp, r: int, lpcb: bool): View {
    Unless(v, req, match req
                   case WriteReq(_, _) => WriteBegun(v, req, t)
                   case ConnectReq => ConnectBegun(v, r)
                   case ListenReq => ListenBegun(v, lpcb, r)
                   case _ => CloseBegun(v, req, t))
  }

  function GoneOn(v: View, t: Tcp): View {
    if v.state == Write then WriteOn(v, t) else if v.state == Close then CloseOn(v, t.close) else v
  }

  /** What an event does. */
  function Next(v: View, e: Event): View {
    match e
    case Post(req, t, r, lpcb) => Posted(v, req, t, r, lpcb)
    case Carried(t) => GoneOn(v, t)
    case Connected(err) =>
      if v.current.Some? then Ended(v, err, 0, false)
      else v.(state := Idle, inNonblockingConnect := false,
              lastErr := if Fatal(v.lastErr) then v.lastErr else ERR_OK)
    case Failed(err) =>
      var w := if v.current.None? then v
               else Ended(v, err, Length(v.current.value.req), false);
      w.(state := Idle, inNonblockingConnect := false, pcb := false, lastErr := err)
    case SetNonblocking(on) => v.(nonblocking := on)
  }

  /** A write begins: the message is not refused. */
  predicate Begins(v: View, e: Event) {
    e.Post? && e.req.WriteReq? && Refusal(v, e.req).None?
  }

  /** The send timeout ends a write of which some is out and some is not. */
  predicate EndsHalfway(v: View, e: Event) {
    e.Carried? && v.state == Write && v.writeOffset > 0 && e.t.timedOut
  }

  /** A write, close or delete begins. This is where the handlers assert that no write is under way. */
  predicate Meets(v: View, e: Event) {
    e.Post? && e.req.Guarded() && Refusal(v, e.req).None?
  }

  method HandleMessage(c: Conn, req: Request, t: Tcp, r: int, lpcb: bool)
    requires c.Valid() && CanHappen(Look(c), Post(req, t, r, lpcb))
    modifies c
    ensures c.Valid() && Look(c) == Posted(old(Look(c)), req, t, r, lpcb)
    ensures var begins := Refusal(old(Look(c)), req).None?;
            && c.left == (old(c.left) && !(req.WriteReq? && begins))
            && c.assertsHold == (old(c.assertsHold) && !(req.Guarded() && old(c.pcb && c.writeOffset != 0) && begins))
  {
    match req
    case WriteReq(_, _) => c.DoWrite(req, t);
    case ConnectReq => c.DoConnect(r);
    case ListenReq => c.DoListen(lpcb, r);
    case CloseReq(_, _) => c.DoClose(req, t);
    case DeleteReq => c.DoDelconn(t);
  }

  method Handle(c: Conn, e: Event)
    requires c.Valid() && CanHappen(Look(c), e)
    modifies c
    ensures c.Valid() && Look(c) == Next(old(Look(c)), e)
    ensures c.left == (EndsHalfway(old(Look(c)), e) || (old(c.left) && !Begins(old(Look(c)), e)))
    ensures c.assertsHold == (old(c.assertsHold) && !(old(c.left) && Meets(old(Look(c)), e)))
  {
    match e
    case Post(req, t, r, lpcb) => HandleMessage(c, req, t, r, lpcb);
    case Carried(t) => c.Carry(t);
    case Connected(err) => c.DoConnected(err);
    case Failed(err) => c.ErrTcp(err);
    case SetNonblocking(on) => c.nonblocking := on;
  }

  /** A netconn after `k` events. */
  function After(es: seq<Event>, k: nat): View
    requires k <= |es|
  {
    if k == 0 then NEW else Next(After(es, k - 1), es[k - 1])
  }

  /** The first `k` events can happen one after the other. */
  predicate Possible(es: seq<Event>, k: nat)
    requires k <= |es|
  {
    k == 0 || (Possible(es, k - 1) && CanHappen(After(es, k - 1), es[k - 1]))
  }

  /** Of the writes before event `k`, the last was ended halfway by the send timeout. */
  predicate LeftHalfway(es: seq<Event>, k: nat)
    requires k <= |es|
  {
    k > 0
    && var v, e := After(es, k - 1), es[k - 1];
       EndsHalfway(v, e) || (LeftHalfway(es, k - 1) && !Begins(v, e))
  }

  /** A write, close or delete begins when the last write was ended halfway: that is what makes an
    * assertion fail. */
  predicate NoneFails(es: seq<Event>, k: nat)
    requires k <= |es|
  {
    k == 0 || (NoneFails(es, k - 1) && !(LeftHalfway(es, k - 1) && Meets(After(es, k - 1), es[k - 1])))
  }

  /** The messages among the first `k` events, in order. */
  function Requests(es: seq<Event>, k: nat): seq<Request>
    requires k <= |es|
  {
    if k == 0 then [] else if es[k - 1].Post? then Requests(es, k - 1) + [es[k - 1].req] else Requests(es, k - 1)
  }

  predicate Among(msg: Message, reqs: seq<Request>) {
    msg.id < |reqs| && reqs[msg.id] == msg.req
  }

  /** Whoever was told something had sent such a message. */
  predicate AllAmong(h: History, reqs: seq<Request>) {
    h.Then? ==> Among(h.last.msg, reqs) && AllAmong(h.before, reqs)
  }

  lemma {:induction false} AllAmongMore(h: History, reqs: seq<Request>, more: seq<Request>)
    requires AllAmong(h, reqs)
    ensures AllAmong(h, reqs + more)
  {
    if h.Then? {
      AllAmongMore(h.before, reqs, more);
    }
  }

  /** The messages of `v` are those among `reqs`, in order of arrival. */
  predicate Traced(v: View, reqs: seq<Request>) {
    |reqs| == v.posted && AllAmong(v.completed, reqs) && (v.current.Some? ==> Among(v.current.value, reqs))
  }

  lemma RepliedTraced(v: View, req: Request, err: int, reqs: seq<Request>)
    requires Traced(v, reqs)
    ensures Traced(Replied(v, req, err), reqs + [req])
  {
    AllAmongMore(v.completed, reqs, [req]);
  }

  lemma BegunTraced(v: View, req: Request, next: NetconnState, reqs: seq<Request>)
    requires Traced(v, reqs)
    ensures Traced(Begun(v, req, next), reqs + [req])
  {
    AllAmongMore(v.completed, reqs, [req]);
  }

  lemma WriteOnTraced(v: View, t: Tcp, reqs: seq<Request>)
    requires Traced(v, reqs)
    ensures Traced(WriteOn(v, t), reqs)
  {
  }

  lemma CloseOnTraced(v: View, close: int, reqs: seq<Request>)
    requires Traced(v, reqs)
    ensures Traced(CloseOn(v, close), reqs)
  {
  }

  lemma PostedTraced(v: View, req: Request, t: Tcp, r: int, lpcb: bool, reqs: seq<Request>)
    requires Traced(v, reqs)
    ensures Traced(Posted(v, req, t, r, lpcb), reqs + [req])
  {
    var refusal, all := Refusal(v, req), reqs + [req];
    if refusal.Some? {
      RepliedTraced(v, req, refusal.value, reqs);
    } else {
      match req
      case WriteReq(_, _) =>
        BegunTraced(v, req, Write, reqs);
        WriteOnTraced(Begun(v, req, Write), t, all);
      case ConnectReq =>
        RepliedTraced(v, req, r, reqs);
        RepliedTraced(v.(state := Connect, inNonblockingConnect := true), req, ERR_INPROGRESS, reqs);
        BegunTraced(v.(inNonblockingConnect := false), req, Connect, reqs);
      case ListenReq =>
        RepliedTraced(v, req, ERR_MEM, reqs);
        RepliedTraced(if r == ERR_OK then v.(state := Listen) else v.(pcb := false), req, r, reqs);
      case _ =>
        BegunTraced(v, req, Close, reqs);
        CloseOnTraced(Begun(v, req, Close), t.close, all);
    }
  }

  lemma NextTraced(v: View, e: Event, reqs: seq<Request>)
    requires Traced(v, reqs)
    ensures Traced(Next(v, e), if e.Post? then reqs + [e.req] else reqs)
  {
    match e
    case Post(req, t, r, lpcb) => PostedTraced(v, req, t, r, lpcb, reqs);
    case Carried(t) =>
      WriteOnTraced(v, t, reqs);
      CloseOnTraced(v, t.close, reqs);
    case _ =>
  }

  /** Messages are numbered as they arrive: whatever a thread is told concerns the message it sent. */
  lemma {:induction false} Told(es: seq<Event>, k: nat)
    requires k <= |es|
    ensures Traced(After(es, k), Requests(es, k))
  {
    if k > 0 {
      Told(es, k - 1);
      NextTraced(After(es, k - 1), es[k - 1], Requests(es, k - 1));
    }
  }

  /** `c` has been through the first `k` events. */
  ghost predicate Went(c: Conn, es: seq<Event>, k: nat)
    requires k <= |es|
    reads c
  {
    && c.Valid() && Look(c) == After(es, k) && Possible(es, k)
    && (c.left <==> LeftHalfway(es, k)) && (c.assertsHold <==> NoneFails(es, k))
  }

  method Step(c: Conn, es: seq<Event>, k: nat)
    requires k < |es| && Went(c, es, k) && Possible(es, k + 1)
    modifies c
    ensures Went(c, es, k + 1)
  {
    ghost var next := k + 1;
    assert After(es, next) == Next(After(es, k), es[k]) && Possible(es, next);
    Handle(c, es[k]);
  }

  method StartRun(es: seq<Event>) returns (c: Conn)
    ensures fresh(c) && Went(c, es, 0)
  {
    c := new Conn();
  }

  method GoesFurther(c: Conn, es: seq<Event>, k: nat) returns (more: bool)
    requires k <= |es| && Went(c, es, k)
    ensures more <==> k < |es| && Possible(es, k + 1)
  {
    more := k < |es| && CanHappen(Look(c), es[k]);
  }

  /** Any run, up to an event that cannot happen. The netconn is then as the first `k` events make it, and
    * an assertion has failed if and only if a write, close or delete began after a write that the send
    * timeout ended halfway. */
  method Run(es: seq<Event>) returns (c: Conn, k: nat)
    ensures k <= |es| && Went(c, es, k) && (k < |es| ==> !Possible(es, k + 1))
  {
    c := StartRun(es);
    k := 0;
    while k < |es|
      invariant k <= |es| && fresh(c) && Went(c, es, k)
    {
      var more := GoesFurther(c, es, k);
      if !more {
        return;
      }
      Step(c, es, k);
      k := k + 1;
    }
  }

  /** What that means for the threads: each message of the run has been signalled once, except the one
    * being worked on, and it is the sender who was told; one is being worked on if and only if the state
    * says so; and tcp_write was given what they were told, and what is out of the current one. */
  lemma OnceEach(c: Conn, es: seq<Event>, k: nat)
    requires k <= |es| && Went(c, es, k)
    ensures var v, reqs := After(es, k), Requests(es, k);
            && Traced(v, reqs) && AllHonest(v.completed)
            && (forall id: nat :: Once(|reqs|, v.completed, v.current, id))
            && (v.current.Some? <==>
                  v.state == Write || v.state == Close || (v.state == Connect && !v.inNonblockingConnect))
            && v.stream == Sent(v.completed) + Partial(v.current, v.writeOffset)
  {
    Told(es, k);
  }

  /** A write that runs into the send timeout after some of it went out leaves write_offset behind,
    * and the netconn can then not be deleted without a failing assertion. */
  method CutShort() returns (c: Conn)
    ensures c.stream == [7] && !c.assertsHold
    ensures c.completed.Then?
            && c.completed.before == Then(Nobody, Done(Message(0, WriteReq([7, 8], false)), ERR_OK, 1, 1, true))
  {
    c := new Conn();
    c.DoWrite(WriteReq([7, 8], false), Tcp(1, ERR_OK, ERR_OK, false));
    c.Carry(Tcp(1, ERR_OK, ERR_OK, true));
    c.DoDelconn(Tcp(0, ERR_OK, ERR_OK, false));
  }
}
