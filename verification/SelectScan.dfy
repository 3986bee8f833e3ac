/** `lwip_selscan` of lwip/src/api/sockets.c. */
module SelectScan {
  import opened Basics
  import opened SelectProtocol

  /** An fd_set pointer, which may be NULL. */
  type FdSet = Option<set<nat>>

  function Members(fds: FdSet): set<nat> {
    if fds.Some? then fds.value else {}
  }

  datatype Kind = Read | Write | Except

  /** tryget_socket finds nothing for a descriptor that is not open. */
  predicate Ready(socks: seq<Option<Sock>>, kind: Kind, i: nat) {
    && i < |socks| && socks[i].Some?
    && match kind
       case Read => socks[i].value.last || socks[i].value.rcv > 0
       case Write => socks[i].value.send
       case Except => socks[i].value.err
  }

  ghost predicate Exact(out: set<nat>, fds: set<nat>, max: nat, socks: seq<Option<Sock>>, kind: Kind) {
    forall i :: i in out <==> i in fds && i < max && Ready(socks, kind, i)
  }

  /** Socket `i` is entered into the local set, if it was asked for and something happened. */
  method Report(i: nat, fdsIn: FdSet, hit: bool, before: set<nat>, ghost socks: seq<Option<Sock>>, ghost kind: Kind)
      returns (out: set<nat>, n: nat)
    requires Exact(before, Members(fdsIn), i, socks, kind) && hit == Ready(socks, kind, i)
    ensures Exact(out, Members(fdsIn), i + 1, socks, kind) && |out| == |before| + n
  {
    out, n := before, 0;
    if fdsIn.Some? && i in fdsIn.value && hit {
      assert i !in out;
      out, n := out + {i}, 1;
    }
  }

  /** What the scan reports. */
  ghost predicate Scanned(socks: seq<Option<Sock>>, sets: Sets, read: set<nat>, write: set<nat>, except: set<nat>,
                          nready: nat)
  {
    && Exact(read, sets.read, sets.max, socks, Read)
    && Exact(write, sets.write, sets.max, socks, Write)
    && Exact(except, sets.except, sets.max, socks, Except)
    && nready == |read| + |write| + |except|
  }

  /** Select goes to sleep, that is, `nready` is 0, if and only if no socket is ready. */
  lemma SleepsIfNothingReady(socks: seq<Option<Sock>>, sets: Sets, read: set<nat>, write: set<nat>, except: set<nat>,
                             nready: nat)
    requires Scanned(socks, sets, read, write, except, nready)
    ensures nready == 0 <==>
            forall i: nat {:trigger socks[i]} ::
              i < sets.max && i < |socks| && socks[i].Some? ==> !ScanReady(socks[i].value, sets, i)
  {
    if nready == 0 {
      assert read == {} && write == {} && except == {};
      forall i: nat | i < sets.max && i < |socks| && socks[i].Some?
        ensures !ScanReady(socks[i].value, sets, i)
      {
        assert i !in read && i !in write && i !in except;
      }
    } else {
      var i :| i in read || i in write || i in except;
      assert ScanReady(socks[i].value, sets, i);
    }
  }

  method Selscan(maxfdp1: nat, socks: seq<Option<Sock>>, readIn: FdSet, writeIn: FdSet, exceptIn: FdSet)
      returns (nready: nat, readOut: set<nat>, writeOut: set<nat>, exceptOut: set<nat>)
    ensures Scanned(socks, Sets(Members(readIn), Members(writeIn), Members(exceptIn), maxfdp1),
                    readOut, writeOut, exceptOut, nready)
  {
    nready, readOut, writeOut, exceptOut := 0, {}, {}, {};
    for i := 0 to maxfdp1
      invariant Scanned(socks, Sets(Members(readIn), Members(writeIn), Members(exceptIn), i),
                        readOut, writeOut, exceptOut, nready)
    {
      var lastdata, rcvevent, sendevent, errevent := false, 0, false, false;
      if i < |socks| && socks[i].Some? {
        var sock := socks[i].value;
        lastdata, rcvevent, sendevent, errevent := sock.last, sock.rcv, sock.send, sock.err;
      }
      var hit := lastdata || rcvevent > 0;
      assert hit == Ready(socks, Read, i) && sendevent == Ready(socks, Write, i) && errevent == Ready(socks, Except, i);
      var n: nat;
      readOut, n := Report(i, readIn, hit, readOut, socks, Read);
      nready := nready + n;
      writeOut, n := Report(i, writeIn, sendevent, writeOut, socks, Write);
      nready := nready + n;
      exceptOut, n := Report(i, exceptIn, errevent, exceptOut, socks, Except);
      nready := nready + n;
    }
  }
}
