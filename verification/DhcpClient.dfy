/** The client of lwip/src/core/dhcp.c, section 4.4 of RFC 2131: when the interface is up, with which
  * address, and how long the client waits for an answer. Message contents are in DhcpOptions. */
module DhcpClient {
  import opened Basics

  datatype ClientState =
    | Off | Requesting | Rebooting | Rebinding | Renewing | Selecting | Checking | Bound | BackingOff

  datatype Kind = Offer | Ack | Nak | Other

  /** A reply to our last message, as far as the client looks at it. Addresses and times have 32 bits. */
  datatype Reply = Reply(kind: Kind, yiaddr: nat, serverId: Option<nat>, lease: Option<nat>, t1: Option<nat>,
                         t2: Option<nat>)

  const ANY := 0
  const FOREVER := 0xFFFF_FFFF

  /** DHCP_FINE_TIMER_MSECS is 500. */
  function Ticks(msecs: nat): nat {
    (msecs + 499) / 500
  }

  function Seconds(tries: nat): nat {
    if tries == 0 then 1 else if tries == 1 then 2 else if tries == 2 then 4 else if tries == 3 then 8
    else if tries == 4 then 16 else if tries == 5 then 32 else 60
  }

  /** DHCP_COARSE_TIMER_SECS is 60; the counters have 16 bits and start at 1 at least. */
  function Minutes(secs: nat): (r: nat)
    ensures 1 <= r <= 0xFFFF
  {
    var m := ((secs + 30) % 0x1_0000_0000) / 60;
    if m > 0xFFFF then 0xFFFF else if m == 0 then 1 else m
  }

  predicate Waits(state: ClientState) {
    state == Requesting || state == Checking || state == Rebinding || state == Rebooting
  }

  /** How many retries follow, and how many fine ticks they take. */
  function Retries(state: ClientState, tries: nat): nat
    decreases 9 - tries
  {
    match state
    case Requesting => if tries >= 6 then 0 else Ticks(Seconds(tries + 1) * 1000) + Retries(state, tries + 1)
    case Checking => if tries >= 2 then 0 else 1 + Retries(state, tries + 1)
    case Rebinding => if tries >= 9 then 0 else Ticks((tries + 1) * 1000) + Retries(state, tries + 1)
    case Rebooting => if tries >= 2 then 0 else Ticks((tries + 1) * 1000) + Retries(state, tries + 1)
    case _ => 0
  }

  /** The fine ticks until a client that gets no answer stops waiting. */
  function Patience(state: ClientState, tries: nat, timeout: nat): nat {
    timeout + Retries(state, tries)
  }

  lemma FullPatience()
    ensures Patience(Requesting, 1, Ticks(2000)) == 244
    ensures Patience(Checking, 1, 1) == 2
    ensures Patience(Rebinding, 1, Ticks(1000)) == 90
    ensures Patience(Rebooting, 1, Ticks(1000)) == 6
  {
    assert Retries(Requesting, 4) == 64 + Retries(Requesting, 5) == 64 + 120;
    assert Retries(Requesting, 2) == 16 + 32 + Retries(Requesting, 4);
    assert Retries(Rebinding, 7) == 16 + 18;
    assert Retries(Rebinding, 5) == 12 + 14 + Retries(Rebinding, 7);
    assert Retries(Rebinding, 3) == 8 + 10 + Retries(Rebinding, 5);
    assert Retries(Rebinding, 1) == 4 + 6 + Retries(Rebinding, 3);
  }

  /** A client and its interface between two events. */
  datatype View = View(state: ClientState, tries: nat, requestTimeout: nat, t1: nat, t2: nat, server: nat, offered: nat,
                       lease: nat, renewAfter: nat, rebindAfter: nat, up: bool, ip: nat)

  function Look(c: Client): View
    reads c
  {
    View(c.state, c.tries, c.requestTimeout, c.t1, c.t2, c.server, c.offered, c.lease, c.renewAfter, c.rebindAfter,
         c.up, c.ip)
  }

  /** The milliseconds to the next try. */
  function Delay(s: ClientState, tries: nat): nat {
    match s
    case Selecting | Requesting => Seconds(tries) * 1000
    case Checking => 500
    case Renewing => if tries < 10 then tries * 2000 else 20000
    case BackingOff => 10000
    case _ => if tries < 10 then tries * 1000 else 10000
  }

  /** A try in state `s`, the first if the state is new. */
  function Tried(v: View, s: ClientState): View {
    var tries := ((if v.state == s then v.tries else 0) + 1) % 0x100;
    v.(state := s, tries := tries, requestTimeout := Ticks(Delay(s, tries)))
  }

  function Discovered(v: View): View {
    Tried(v.(offered := ANY), Selecting)
  }

  function Released(v: View): View {
    Tried(v, Off)
    .(server := ANY, offered := ANY, lease := 0, renewAfter := 0, rebindAfter := 0, up := false, ip := ANY)
  }

  /** An infinite time leaves its counter as it was; of two counters that would end together, the first is
    * switched off. */
  function BoundTo(v: View): View {
    var t := if v.renewAfter == FOREVER then v.t1 else Minutes(v.renewAfter);
    var t2 := if v.rebindAfter == FOREVER then v.t2 else Minutes(v.rebindAfter);
    var t1 := if 0 < t2 <= t then 0 else t;
    if v.state == Bound then v.(t1 := t1, t2 := t2, up := true, ip := v.offered)
    else v.(state := Bound, tries := 0, requestTimeout := 0, t1 := t1, t2 := t2, up := true, ip := v.offered)
  }

  function TimedOut(v: View): View {
    match v.state
    case BackingOff | Selecting => Discovered(v)
    case Requesting => if v.tries <= 5 then Tried(v, Requesting) else Discovered(Released(v))
    case Checking => if v.tries <= 1 then Tried(v, Checking) else BoundTo(v)
    case Renewing => Tried(v, Renewing)
    case Rebinding => if v.tries <= 8 then Tried(v, Rebinding) else Discovered(Released(v))
    case Rebooting => if v.tries < 2 then Tried(v, Rebooting) else Discovered(v)
    case _ => v
  }

  function FineTick(v: View): View {
    if v.requestTimeout == 1 then TimedOut(v.(requestTimeout := 0))
    else v.(requestTimeout := if v.requestTimeout == 0 then 0 else v.requestTimeout - 1)
  }

  predicate MayRenew(state: ClientState) {
    state == Requesting || state == Bound || state == Renewing
  }

  /** A counter that is 0 starts over from its highest value. */
  function Down(t: nat): (r: nat)
    ensures t <= 0xFFFF ==> r <= 0xFFFF
  {
    if t == 0 then 0xFFFF else t - 1
  }

  function CoarseTick(v: View): View {
    var w := v.(t2 := Down(v.t2), t1 := if v.t2 == 1 then v.t1 else Down(v.t1));
    if !MayRenew(v.state) then w
    else if v.t2 == 1 then Tried(w, Rebinding)
    else if v.t1 == 1 then Tried(w, Renewing)
    else w
  }

  lemma CoarseMeaning(v: View)
    ensures var w := CoarseTick(v);
            && w.t2 == (if v.t2 == 0 then 0xFFFF else v.t2 - 1)
            && w.t1 == (if v.t2 == 1 then v.t1 else if v.t1 == 0 then 0xFFFF else v.t1 - 1)
            && w.up == v.up && w.offered == v.offered
            && w.state == if v.state != Requesting && v.state != Bound && v.state != Renewing then v.state
                          else if v.t2 == 1 then Rebinding else if v.t1 == 1 then Renewing else v.state
  {
  }

  /** The times of the lease come from the acknowledgement, or from the length of the lease. */
  function Granted(v: View, m: Reply): View {
    var lease := if m.lease.Some? then m.lease.value else v.lease;
    v.(lease := lease, renewAfter := if m.t1.Some? then m.t1.value else lease / 2,
       rebindAfter := if m.t2.Some? then m.t2.value else lease, offered := m.yiaddr)
  }

  function Answered(arpCheck: bool, v: View, m: Reply): View {
    match m.kind
    case Ack =>
      if v.state == Requesting then if arpCheck then Tried(Granted(v, m), Checking) else BoundTo(Granted(v, m))
      else if v.state == Rebooting || v.state == Rebinding || v.state == Renewing then BoundTo(v)
      else v
    case Nak =>
      if v.state == Requesting || v.state == Rebooting || v.state == Rebinding || v.state == Renewing
      then Discovered(v.(state := BackingOff, up := false, ip := ANY)) else v
    case Offer =>
      if v.state != Selecting then v
      else if m.serverId.None? then v.(requestTimeout := 0)
      else Tried(v.(server := m.serverId.value, offered := m.yiaddr), Requesting)
    case Other => v
  }

  function Moved(v: View): View {
    if v.state == Rebinding || v.state == Renewing || v.state == Bound || v.state == Rebooting
    then Tried(v.(up := false, tries := 0), Rebooting)
    else if v.state == Off then v
    else Discovered(v.(tries := 0))
  }

  /** What can happen: the two timers, a reply, the answer to an ARP probe, a link that went away and came
    * back, and the calls of an application. */
  datatype Event =
    | Fine | Coarse | Received(m: Reply) | Arp(addr: nat) | LinkChanged | AskRenewal | GiveBack

  /** What an event does. */
  function Next(arpCheck: bool, v: View, e: Event): View {
    match e
    case Fine => FineTick(v)
    case Coarse => CoarseTick(v)
    case Received(m) => Answered(arpCheck, v, m)
    case Arp(addr) => if v.state == Checking && addr == v.offered then Tried(v, BackingOff) else v
    case LinkChanged => Moved(v)
    case AskRenewal => Tried(v, Renewing)
    case GiveBack => Released(v)
  }

  const START := Discovered(View(Off, 0, 0, 0, 0, ANY, ANY, 0, 0, 0, false, ANY))

  class Client {
    /** DHCP_DOES_ARP_CHECK. */
    const arpCheck: bool

    // struct dhcp
    var state: ClientState
    var tries: nat
    var requestTimeout: nat
    var t1: nat
    var t2: nat
    var server: nat
    var offered: nat
    var lease: nat
    var renewAfter: nat
    var rebindAfter: nat

    // struct netif
    var up: bool
    var ip: nat

    /** An offer without a server identifier has stopped the timer since the last discovery. */
    ghost var stalled: bool

    /** No 0.0.0.0 has been taken from a server, and nobody has called dhcp_renew without an offer. */
    ghost var sound: bool

    /** The interface is up only with a lease, and then has the address that was offered. */
    ghost predicate Safe()
      reads `state, `offered, `up, `ip
    {
      && (up ==> (state == Bound || state == Renewing || state == Rebinding) && ip == offered)
      && (state == Bound ==> up)
    }

    /** Whoever is sure of an address has one. */
    ghost predicate Holding()
      reads `state, `offered, `sound
    {
      sound && (Waits(state) || state == Bound || state == Renewing) ==> offered != ANY
    }

    ghost predicate Bounded()
      reads `state, `tries, `t1, `t2
    {
      && tries <= 0xFF && t1 <= 0xFFFF && t2 <= 0xFFFF
      && (state == Requesting ==> 1 <= tries <= 6)
      && (state == Checking ==> 1 <= tries <= 2)
      && (state == Rebinding ==> 1 <= tries <= 9)
      && (state == Rebooting ==> 1 <= tries <= 2)
    }

    /** The timer runs where the client waits. It does not in two cases: after an offer without a
      * server identifier, and when the 8-bit counter of tries to renew has come round to 0. */
    ghost predicate Timed()
      reads `state, `tries, `requestTimeout, `stalled
    {
      match state
      case Selecting => requestTimeout == 0 <==> stalled
      case BackingOff => 1 <= requestTimeout <= 20
      case Requesting => 1 <= requestTimeout <= Ticks(Seconds(tries) * 1000)
      case Checking => requestTimeout == 1
      case Rebinding => 1 <= requestTimeout <= Ticks(tries * 1000)
      case Rebooting => 1 <= requestTimeout <= Ticks(tries * 1000)
      case Renewing => requestTimeout == 0 <==> tries == 0
      case Bound => requestTimeout == 0
      case Off => true
    }

    ghost predicate Valid()
      reads this
    {
      Safe() && Holding() && Bounded() && Timed()
    }

    /** dhcp_set_state. */
    method SetState(s: ClientState)
      modifies `state, `tries, `requestTimeout
      ensures state == s
      ensures tries == (if old(state) == s then old(tries) else 0)
      ensures requestTimeout == if old(state) == s then old(requestTimeout) else 0
    {
      if s != state {
        state, tries, requestTimeout := s, 0, 0;
      }
    }

    /** A message has been sent; the timer is set for the next try. */
    method Sent(msecs: nat)
      modifies `requestTimeout
      ensures requestTimeout == Ticks(msecs)
    {
      requestTimeout := Ticks(msecs);
    }

    method CountTry()
      modifies `tries
      ensures tries == (old(tries) + 1) % 0x100
    {
      tries := (tries + 1) % 0x100;
    }

    /** What most of the functions below end with: the state, a message, and the timer for the next try. */
    method Try(s: ClientState)
      modifies `state, `tries, `requestTimeout
      ensures Look(this) == Tried(old(Look(this)), s)
    {
      SetState(s);
      CountTry();
      Sent(Delay(s, tries));
    }

    /** dhcp_discover. */
    method Discover()
      requires tries <= 0xFF && !up && t1 <= 0xFFFF && t2 <= 0xFFFF
      modifies `state, `tries, `requestTimeout, `offered, `stalled
      ensures Valid() && state == Selecting && requestTimeout > 0 && offered == ANY
      ensures Look(this) == Discovered(old(Look(this)))
    {
      offered := ANY;
      Try(Selecting);
      stalled := false;
    }

    /** The constructor is dhcp_start on an interface that is down. */
    constructor (arpCheck: bool)
      ensures Valid() && this.arpCheck == arpCheck && state == Selecting && !up && sound && !stalled && offered == ANY
      ensures tries == 1 && requestTimeout == 4
      ensures Look(this) == START
    {
      this.arpCheck := arpCheck;
      state, tries, requestTimeout, t1, t2 := Off, 0, 0, 0, 0;
      server, offered, lease, renewAfter, rebindAfter := ANY, ANY, 0, 0, 0;
      up, ip, stalled, sound := false, ANY, false, true;
      new;
      Discover();
    }

    /** dhcp_select. */
    method Select()
      requires t1 <= 0xFFFF && t2 <= 0xFFFF && tries <= 0xFF && !up && (sound ==> offered != ANY)
      requires state == Selecting || (state == Requesting && 1 <= tries <= 5)
      modifies `state, `tries, `requestTimeout
      ensures Valid() && state == Requesting && tries == (if old(state) == Requesting then old(tries) + 1 else 1)
      ensures requestTimeout == Ticks(Seconds(tries) * 1000)
      ensures Look(this) == Tried(old(Look(this)), Requesting)
    {
      Try(Requesting);
    }

    /** dhcp_check. */
    method Check()
      requires t1 <= 0xFFFF && t2 <= 0xFFFF && !up && (sound ==> offered != ANY)
      requires state == Requesting || (state == Checking && tries == 1)
      modifies `state, `tries, `requestTimeout
      ensures Valid() && state == Checking && tries == (if old(state) == Checking then 2 else 1)
      ensures Look(this) == Tried(old(Look(this)), Checking)
    {
      Try(Checking);
    }

    /** dhcp_bind. An infinite time leaves its counter as it was; of two counters that would end
      * together, the first is switched off. */
    method Bind()
      requires t1 <= 0xFFFF && t2 <= 0xFFFF && tries <= 0xFF && (sound ==> offered != ANY) && state != Bound
      modifies `state, `tries, `requestTimeout, `t1, `t2, `up, `ip
      ensures Valid() && state == Bound && up && ip == offered
      ensures t2 == if rebindAfter == FOREVER then old(t2) else Minutes(rebindAfter)
      ensures var t := if renewAfter == FOREVER then old(t1) else Minutes(renewAfter);
              t1 == if 0 < t2 <= t then 0 else t
      ensures Look(this) == BoundTo(old(Look(this)))
    {
      if renewAfter != FOREVER {
        t1 := Minutes(renewAfter);
      }
      if rebindAfter != FOREVER {
        t2 := Minutes(rebindAfter);
      }
      if t1 >= t2 && t2 > 0 {
        t1 := 0;
      }
      ip := offered;
      up := true;
      SetState(Bound);
    }

    /** dhcp_renew, which applications may call as well. */
    method Renew()
      requires Safe() && Holding() && Bounded()
      modifies `state, `tries, `requestTimeout, `sound
      ensures Valid() && state == Renewing && up == old(up)
      ensures sound == (old(sound) && offered != ANY)
      ensures tries == (if old(state) == Renewing then (old(tries) + 1) % 0x100 else 1)
      ensures requestTimeout == Ticks(if tries < 10 then tries * 2000 else 20000)
      ensures Look(this) == Tried(old(Look(this)), Renewing)
    {
      sound := sound && offered != ANY;
      Try(Renewing);
    }

    /** dhcp_rebind. */
    method Rebind()
      requires Safe() && Holding() && Bounded()
      requires state == Requesting || state == Bound || state == Renewing || (state == Rebinding && tries <= 8)
      modifies `state, `tries, `requestTimeout
      ensures Valid() && state == Rebinding && tries == (if old(state) == Rebinding then old(tries) + 1 else 1)
      ensures requestTimeout == Ticks(tries * 1000)
      ensures Look(this) == Tried(old(Look(this)), Rebinding)
    {
      Try(Rebinding);
    }

    /** dhcp_reboot. */
    method Reboot()
      requires !up && t1 <= 0xFFFF && t2 <= 0xFFFF && (sound ==> offered != ANY)
      requires state == Rebooting ==> tries <= 1
      modifies `state, `tries, `requestTimeout
      ensures Valid() && state == Rebooting && tries == (if old(state) == Rebooting then old(tries) + 1 else 1)
      ensures requestTimeout == Ticks(tries * 1000)
      ensures Look(this) == Tried(old(Look(this)), Rebooting)
    {
      Try(Rebooting);
    }

    /** dhcp_release. */
    method Release()
      requires tries <= 0xFF && t1 <= 0xFFFF && t2 <= 0xFFFF
      modifies `state, `tries, `requestTimeout, `server, `offered, `lease, `renewAfter, `rebindAfter, `up, `ip
      ensures Valid() && state == Off && !up && ip == ANY && offered == ANY
      ensures Look(this) == Released(old(Look(this)))
    {
      Try(Off);
      server, offered := ANY, ANY;
      lease, renewAfter, rebindAfter := 0, 0, 0;
      up, ip := false, ANY;
    }

    /** The lease is given up, and the client starts over. */
    method GiveUp()
      requires tries <= 0xFF && t1 <= 0xFFFF && t2 <= 0xFFFF
      modifies `state, `tries, `requestTimeout, `server, `offered, `lease, `renewAfter, `rebindAfter, `up, `ip, `stalled
      ensures Valid() && state == Selecting && !up
      ensures Look(this) == Discovered(Released(old(Look(this))))
    {
      Release();
      Discover();
    }

    /** dhcp_decline. */
    method Decline()
      requires !up && tries <= 0xFF && t1 <= 0xFFFF && t2 <= 0xFFFF
      modifies `state, `tries, `requestTimeout
      ensures Valid() && state == BackingOff && requestTimeout == 20
      ensures Look(this) == Tried(old(Look(this)), BackingOff)
    {
      Try(BackingOff);
    }

    /** dhcp_timeout: the next try, or the end of waiting. */
    method Timeout()
      requires Safe() && Holding() && Bounded() && requestTimeout == 0
      modifies this
      ensures Valid() && sound == old(sound)
      ensures Waits(old(state)) && Retries(old(state), old(tries)) > 0 ==>
                state == old(state) && Patience(state, tries, requestTimeout) == Retries(old(state), old(tries))
                && up == old(up) && offered == old(offered)
      ensures Waits(old(state)) && Retries(old(state), old(tries)) == 0 ==>
                if old(state) == Checking then state == Bound && offered == old(offered)
                else state == Selecting && !up
      ensures Look(this) == TimedOut(old(Look(this)))
    {
      if state == BackingOff || state == Selecting {
        Discover();
      } else if state == Renewing {
        Renew();
      } else if Waits(state) {
        WaitTimeout();
      }
    }

    /** dhcp_timeout while the client waits for an answer, or for ARP. */
    method WaitTimeout()
      requires Safe() && Holding() && Bounded() && requestTimeout == 0 && Waits(state)
      modifies this
      ensures Valid() && sound == old(sound)
      ensures if Retries(old(state), old(tries)) > 0 then
                state == old(state) && Patience(state, tries, requestTimeout) == Retries(old(state), old(tries))
                && up == old(up) && offered == old(offered)
              else if old(state) == Checking then state == Bound && offered == old(offered)
              else state == Selecting && !up
      ensures Look(this) == TimedOut(old(Look(this)))
    {
      if state == Requesting {
        if tries <= 5 {
          Select();
        } else {
          GiveUp();
        }
      } else if state == Checking {
        if tries <= 1 {
          Check();
        } else {
          Bind();
        }
      } else if state == Rebinding {
        if tries <= 8 {
          Rebind();
        } else {
          GiveUp();
        }
      } else if state == Rebooting {
        if tries < 2 {
          Reboot();
        } else {
          Discover();
        }
      }
    }

    /** dhcp_fine_tmr, twice a second. */
    method FineTmr()
      requires Valid()
      modifies this
      ensures Valid() && sound == old(sound)
      ensures Waits(old(state)) ==>
                var left := Patience(old(state), old(tries), old(requestTimeout));
                left >= 1
                && if left > 1 then
                     state == old(state) && Patience(state, tries, requestTimeout) == left - 1
                     && up == old(up) && offered == old(offered)
                   else if old(state) == Checking then state == Bound && offered == old(offered)
                   else state == Selecting && !up
      ensures Look(this) == FineTick(old(Look(this)))
    {
      if requestTimeout > 1 {
        requestTimeout := requestTimeout - 1;
      } else if requestTimeout == 1 {
        requestTimeout := 0;
        Timeout();
      }
    }

    /** dhcp_t1_timeout. */
    method T1Timeout()
      requires Valid()
      modifies `state, `tries, `requestTimeout, `sound
      ensures Valid() && sound == old(sound)
      ensures Look(this) == if MayRenew(old(state)) then Tried(old(Look(this)), Renewing) else old(Look(this))
    {
      if state == Requesting || state == Bound || state == Renewing {
        Renew();
      }
    }

    /** dhcp_t2_timeout. */
    method T2Timeout()
      requires Valid()
      modifies `state, `tries, `requestTimeout
      ensures Valid()
      ensures Look(this) == if MayRenew(old(state)) then Tried(old(Look(this)), Rebinding) else old(Look(this))
    {
      if state == Requesting || state == Bound || state == Renewing {
        Rebind();
      }
    }

    /** dhcp_coarse_tmr, once a minute. A counter that is 0 starts over from its highest value. */
    method CoarseTmr()
      requires Valid()
      modifies this
      ensures Valid() && up == old(up) && offered == old(offered) && sound == old(sound)
      ensures t2 == if old(t2) == 0 then 0xFFFF else old(t2) - 1
      ensures t1 == if old(t2) == 1 then old(t1) else if old(t1) == 0 then 0xFFFF else old(t1) - 1
      ensures state == if old(state) != Requesting && old(state) != Bound && old(state) != Renewing then old(state)
                       else if old(t2) == 1 then Rebinding else if old(t1) == 1 then Renewing else old(state)
      ensures Look(this) == CoarseTick(old(Look(this)))
    {
      CoarseMeaning(Look(this));
      var fires2 := t2 == 1;
      t2 := Down(t2);
      if fires2 {
        T2Timeout();
      } else {
        var fires1 := t1 == 1;
        t1 := Down(t1);
        if fires1 {
          T1Timeout();
        }
      }
    }

    /** dhcp_handle_nak. */
    method HandleNak()
      requires Valid()
      modifies this
      ensures Valid() && state == Selecting && !up && ip == ANY && sound == old(sound)
      ensures Look(this) == Discovered(old(Look(this)).(state := BackingOff, up := false, ip := ANY))
    {
      up, ip := false, ANY;
      SetState(BackingOff);
      Discover();
    }

    /** dhcp_handle_offer. Without a server identifier the offer is dropped. */
    method HandleOffer(m: Reply)
      requires Valid() && state == Selecting
      modifies this
      ensures Valid()
      ensures sound == (old(sound) && (m.serverId.Some? ==> m.yiaddr != ANY))
      ensures if m.serverId.Some? then state == Requesting && offered == m.yiaddr && server == m.serverId.value
              else state == Selecting && requestTimeout == 0 && stalled
      ensures Look(this) == Answered(arpCheck, old(Look(this)), m.(kind := Offer))
    {
      requestTimeout := 0;
      if m.serverId.Some? {
        server, offered := m.serverId.value, m.yiaddr;
        sound := sound && m.yiaddr != ANY;
        Select();
      } else {
        stalled := true;
      }
    }

    /** dhcp_handle_ack. */
    method HandleAck(m: Reply)
      modifies `lease, `renewAfter, `rebindAfter, `offered, `sound
      ensures lease == (if m.lease.Some? then m.lease.value else old(lease)) && offered == m.yiaddr
      ensures renewAfter == (if m.t1.Some? then m.t1.value else lease / 2)
      ensures rebindAfter == (if m.t2.Some? then m.t2.value else lease)
      ensures sound == (old(sound) && m.yiaddr != ANY)
      ensures Look(this) == Granted(old(Look(this)), m)
    {
      if m.lease.Some? {
        lease := m.lease.value;
      }
      renewAfter := if m.t1.Some? then m.t1.value else lease / 2;
      rebindAfter := if m.t2.Some? then m.t2.value else lease;
      offered := m.yiaddr;
      sound := sound && m.yiaddr != ANY;
    }

    /** dhcp_recv, for a message that is in response to ours. An acknowledgement of a lease that the
      * client already has does not change its address or its times. */
    method Recv(m: Reply)
      requires Valid()
      modifies this
      ensures Valid()
      ensures m.kind == Ack && old(state) == Requesting ==>
                && offered == m.yiaddr && (if arpCheck then state == Checking && !up else state == Bound && up)
                && lease == (if m.lease.Some? then m.lease.value else old(lease))
                && renewAfter == (if m.t1.Some? then m.t1.value else lease / 2)
                && rebindAfter == (if m.t2.Some? then m.t2.value else lease)
      ensures state == Bound && old(state) != Bound ==>
                var t := if renewAfter == FOREVER then old(t1) else Minutes(renewAfter);
                && t2 == (if rebindAfter == FOREVER then old(t2) else Minutes(rebindAfter))
                && t1 == (if 0 < t2 <= t then 0 else t)
      ensures m.kind == Ack && (old(state) == Rebooting || old(state) == Rebinding || old(state) == Renewing) ==>
                state == Bound && up && ip == offered == old(offered) && renewAfter == old(renewAfter)
      ensures m.kind == Nak
              && (old(state) == Requesting || old(state) == Rebooting || old(state) == Rebinding
                  || old(state) == Renewing)
              ==> state == Selecting && !up && ip == ANY
      ensures m.kind == Offer && old(state) == Selecting ==>
                if m.serverId.Some? then state == Requesting && offered == m.yiaddr
                else state == Selecting && requestTimeout == 0
      ensures var heeded := if old(state) == Selecting then m.kind == Offer
                            else if old(state) == Requesting || old(state) == Rebooting || old(state) == Rebinding
                                    || old(state) == Renewing then m.kind == Ack || m.kind == Nak
                            else false;
              !heeded ==> state == old(state) && offered == old(offered) && up == old(up)
                          && requestTimeout == old(requestTimeout)
      ensures var takes0 := m.yiaddr == ANY
                            && ((m.kind == Offer && old(state) == Selecting && m.serverId.Some?)
                                || (m.kind == Ack && old(state) == Requesting));
              sound == (old(sound) && !takes0)
      ensures Look(this) == Answered(arpCheck, old(Look(this)), m)
    {
      if m.kind == Ack {
        if state == Requesting {
          HandleAck(m);
          if arpCheck {
            Check();
          } else {
            Bind();
          }
        } else if state == Rebooting || state == Rebinding || state == Renewing {
          Bind();
        }
      } else if m.kind == Nak
                && (state == Rebooting || state == Requesting || state == Rebinding || state == Renewing) {
        HandleNak();
      } else if m.kind == Offer && state == Selecting {
        HandleOffer(m);
      }
    }

    /** dhcp_arp_reply. */
    method ArpReply(addr: nat)
      requires Valid()
      modifies this
      ensures Valid() && up == old(up) && offered == old(offered) && sound == old(sound)
      ensures state == if old(state) == Checking && addr == old(offered) then BackingOff else old(state)
      ensures Look(this) == Next(arpCheck, old(Look(this)), Arp(addr))
    {
      if state == Checking && addr == offered {
        Decline();
      }
    }

    /** dhcp_network_changed. */
    method NetworkChanged()
      requires Valid()
      modifies this
      ensures Valid() && !up && sound == old(sound)
      ensures var leased := old(state) == Rebinding || old(state) == Renewing || old(state) == Bound
                            || old(state) == Rebooting;
              if leased then state == Rebooting && offered == old(offered)
              else state == if old(state) == Off then Off else Selecting
      ensures Look(this) == Moved(old(Look(this)))
    {
      if state == Rebinding || state == Renewing || state == Bound || state == Rebooting {
        up := false;
        tries := 0;
        Reboot();
      } else if state != Off {
        tries := 0;
        Discover();
      }
    }
  }

  /** The event makes the client believe in 0.0.0.0: it takes it from an offer or from the answer to
    * its request, or the application has it renew when nothing was offered. */
  predicate Spoils(v: View, e: Event) {
    match e
    case Received(m) =>
      && m.yiaddr == ANY
      && ((m.kind == Offer && v.state == Selecting && m.serverId.Some?) || (m.kind == Ack && v.state == Requesting))
    case AskRenewal => v.offered == ANY
    case _ => false
  }

  /** The event binds the interface, and what it binds it to is 0.0.0.0. */
  predicate BindsToAny(arpCheck: bool, v: View, e: Event) {
    match e
    case Received(m) =>
      && m.kind == Ack
      && if v.state == Requesting then !arpCheck && m.yiaddr == ANY
         else (v.state == Rebooting || v.state == Rebinding || v.state == Renewing) && v.offered == ANY
    case Fine => v.state == Checking && v.requestTimeout == 1 && v.tries > 1 && v.offered == ANY
    case _ => false
  }

  predicate UpAsAny(v: View) {
    v.up && v.ip == ANY
  }

  method Handle(c: Client, e: Event)
    requires c.Valid()
    modifies c
    ensures c.Valid() && Look(c) == Next(c.arpCheck, old(Look(c)), e)
    ensures c.sound == (old(c.sound) && !Spoils(old(Look(c)), e))
    ensures BindsToAny(c.arpCheck, old(Look(c)), e) ==> UpAsAny(Look(c))
    ensures UpAsAny(Look(c)) ==> BindsToAny(c.arpCheck, old(Look(c)), e) || UpAsAny(old(Look(c)))
  {
    match e
    case Fine => c.FineTmr();
    case Coarse => c.CoarseTmr();
    case Received(m) => c.Recv(m);
    case Arp(addr) => c.ArpReply(addr);
    case LinkChanged => c.NetworkChanged();
    case AskRenewal => c.Renew();
    case GiveBack => c.Release();
  }

  /** A client after `k` events. */
  function After(arpCheck: bool, events: seq<Event>, k: nat): View
    requires k <= |events|
  {
    if k == 0 then START else Next(arpCheck, After(arpCheck, events, k - 1), events[k - 1])
  }

  /** None of the first `k` events makes the client believe in 0.0.0.0. */
  predicate NoneSpoils(arpCheck: bool, events: seq<Event>, k: nat)
    requires k <= |events|
  {
    k == 0 || (NoneSpoils(arpCheck, events, k - 1) && !Spoils(After(arpCheck, events, k - 1), events[k - 1]))
  }

  /** Event `k` binds the interface to 0.0.0.0. */
  predicate BindsAt(arpCheck: bool, events: seq<Event>, k: nat)
    requires k < |events|
  {
    BindsToAny(arpCheck, After(arpCheck, events, k), events[k])
  }

  /** One of the first `k` events does. */
  predicate SomeBinds(arpCheck: bool, events: seq<Event>, k: nat)
    requires k <= |events|
  {
    k > 0 && (BindsAt(arpCheck, events, k - 1) || SomeBinds(arpCheck, events, k - 1))
  }

  /** `c` has been through the first `k` events. */
  ghost predicate Went(c: Client, arpCheck: bool, events: seq<Event>, k: nat)
    requires k <= |events|
    reads c
  {
    && c.Valid() && c.arpCheck == arpCheck && Look(c) == After(arpCheck, events, k)
    && (c.sound <==> NoneSpoils(arpCheck, events, k))
    && (k > 0 && BindsAt(arpCheck, events, k - 1) ==> UpAsAny(Look(c)))
    && (UpAsAny(Look(c)) ==> SomeBinds(arpCheck, events, k))
  }

  method Step(c: Client, arpCheck: bool, events: seq<Event>, k: nat)
    requires k < |events| && Went(c, arpCheck, events, k)
    modifies c
    ensures Went(c, arpCheck, events, k + 1)
  {
    ghost var next := k + 1;
    assert After(arpCheck, events, next) == Next(arpCheck, Look(c), events[k]);
    Handle(c, events[k]);
  }

  /** Any run from a start on an interface that is down; since it may end anywhere, this is said of every
    * moment. The client is as the events make it. Its interface is up only with a lease, under the address
    * that was offered. It is up as 0.0.0.0 after an event that binds it to that, never without one, and
    * never unless an event made the client believe in 0.0.0.0. */
  method Run(arpCheck: bool, events: seq<Event>) returns (c: Client)
    ensures Went(c, arpCheck, events, |events|)
    ensures c.up ==>
              (c.state == Bound || c.state == Renewing || c.state == Rebinding) && c.ip == c.offered
    ensures UpAsAny(Look(c)) ==> !NoneSpoils(arpCheck, events, |events|)
  {
    c := new Client(arpCheck);
    for k := 0 to |events|
      invariant fresh(c) && Went(c, arpCheck, events, k)
    {
      Step(c, arpCheck, events, k);
    }
  }

  // ---------------------------------------------------------------- when things happen

  /** A client after `n` half seconds. */
  function HalfSeconds(v: View, n: nat): View {
    if n == 0 then v else FineTick(HalfSeconds(v, n - 1))
  }

  /** And after `n` minutes. */
  function MinutesOn(v: View, n: nat): View {
    if n == 0 then v else CoarseTick(MinutesOn(v, n - 1))
  }

  /** A discovery that gets no offer is repeated when its time is up and not before: the first, as which every
    * discovery begins that comes from another state, after 4 half seconds, the next after 8, 16, 32 and 64,
    * and then every minute; when the 8-bit counter of tries comes round to 0, once after 2. */
  lemma {:induction false} DiscoveryRepeats(v: View, n: nat)
    requires v.state == Selecting && 1 <= n <= v.requestTimeout
    ensures n < v.requestTimeout ==> HalfSeconds(v, n) == v.(requestTimeout := v.requestTimeout - n)
    ensures n == v.requestTimeout ==>
              var w, k := HalfSeconds(v, n), (v.tries + 1) % 0x100;
              && w.state == Selecting && w.tries == k && w.offered == ANY
              && w.requestTimeout == if k == 0 then 2 else if k == 1 then 4 else if k == 2 then 8 else if k == 3 then 16
                                     else if k == 4 then 32 else if k == 5 then 64 else 120
  {
    if n > 1 {
      DiscoveryRepeats(v, n - 1);
    } else {
      assert HalfSeconds(v, 0) == v;
    }
  }

  /** What the end of a wait for an answer leads to, state by state: the next try, or giving up. */
  lemma WaitMeaning(v: View)
    requires Waits(v.state)
    ensures var w := TimedOut(v);
            match v.state
            case Requesting =>
              if v.tries <= 5
              then w == v.(tries := v.tries + 1, requestTimeout := w.requestTimeout) && w.requestTimeout >= 2
              else w.state == Selecting && !w.up && w.ip == ANY && w.offered == ANY
            case Rebinding =>
              if v.tries <= 8 then w == v.(tries := v.tries + 1, requestTimeout := 2 * (v.tries + 1))
              else w.state == Selecting && !w.up && w.ip == ANY && w.offered == ANY
            case Rebooting =>
              if v.tries < 2 then w == v.(tries := v.tries + 1, requestTimeout := 2 * (v.tries + 1))
              else w.state == Selecting && w.offered == ANY && w.up == v.up
            case Checking =>
              if v.tries <= 1 then w == v.(tries := v.tries + 1, requestTimeout := 1)
              else w.state == Bound && w.up && w.ip == v.offered && w.offered == v.offered
            case _ => true
  {
  }

  /** And in the other states: a discovery or a renewal is repeated, a declined offer leads to a discovery. */
  lemma TimeoutMeaning(v: View)
    requires !Waits(v.state) && v.tries <= 0xFF
    ensures var w, k := TimedOut(v), (v.tries + 1) % 0x100;
            match v.state
            case BackingOff => w.state == Selecting && w.offered == ANY && w.tries == 1 && w.up == v.up
            case Selecting => w.state == Selecting && w.offered == ANY && w.tries == k && w.up == v.up
            case Renewing => w == v.(tries := k, requestTimeout := if k < 10 then 4 * k else 40)
            case _ => w == v
  {
  }

  lemma FirstDiscovery(v: View)
    requires v.state != Selecting
    ensures Discovered(v).requestTimeout == 4 && Discovered(v).tries == 1
  {
  }

  /** The counters of a lease are its times in minutes, rounded; they have 16 bits and start at 1 at least.
    * Times within half a minute of 2^32 seconds wrap to 1. */
  lemma MinutesMeaning(secs: nat)
    requires secs < 0x1_0000_0000
    ensures var m := Minutes(secs);
            if secs + 30 >= 0x1_0000_0000 || secs < 30 then m == 1
            else if secs >= 0xFFFF * 60 + 30 then m == 0xFFFF
            else 60 * m <= secs + 30 < 60 * m + 60
  {
  }

  /** A bound client renews its lease when `t1` minutes are over and not before, unless it is time to rebind
    * by then. */
  lemma {:induction false} RenewsInTime(v: View, n: nat)
    requires v.state == Bound && 1 <= n <= v.t1 && (v.t2 == 0 || n < v.t2) && v.t1 <= 0xFFFF
    ensures var w := MinutesOn(v, n);
            && w.t1 == v.t1 - n && w.t2 == (if v.t2 == 0 then 0x1_0000 - n else v.t2 - n)
            && w.offered == v.offered && w.up == v.up
            && if n < v.t1 then w.state == Bound else w.state == Renewing && w.tries == 1 && w.requestTimeout == 4
  {
    if n > 1 {
      RenewsInTime(v, n - 1);
    } else {
      assert MinutesOn(v, 0) == v;
    }
  }

  /** And rebinds it when `t2` minutes are over, if it is bound all the time, that is, without a `t1` of its
    * own. */
  lemma {:induction false} RebindsInTime(v: View, n: nat)
    requires v.state == Bound && 1 <= n <= v.t2 <= 0xFFFF && v.t1 == 0
    ensures var w := MinutesOn(v, n);
            && w.t2 == v.t2 - n && w.offered == v.offered && w.up == v.up
            && if n < v.t2 then w.state == Bound && w.t1 == 0x1_0000 - n
               else w.state == Rebinding && w.tries == 1 && w.requestTimeout == 2
  {
    if n > 1 {
      RebindsInTime(v, n - 1);
    } else {
      assert MinutesOn(v, 0) == v;
    }
  }

  /** A client that waits and gets no answer stops waiting after as many fine ticks as it is patient,
    * and not before: 122 seconds for a lease, 45 for a rebinding, counted from the first try. */
  method Unanswered(c: Client, n: nat)
    requires c.Valid() && Waits(c.state)
    requires n == Patience(c.state, c.tries, c.requestTimeout)
    modifies c
    ensures c.Valid() && n >= 1
    ensures if old(c.state) == Checking then c.state == Bound && c.up && c.ip == old(c.offered)
            else c.state == Selecting && !c.up
  {
    ghost var state, offered := c.state, c.offered;
    c.FineTmr();
    for k := 1 to n
      invariant c.Valid()
      invariant if k < n then
                  c.state == state && Patience(c.state, c.tries, c.requestTimeout) == n - k && c.offered == offered
                else if state == Checking then c.state == Bound && c.offered == offered
                else c.state == Selecting && !c.up
    {
      c.FineTmr();
    }
  }

  /** dhcp_renew during discovery, and then an acknowledgement, bind the interface to 0.0.0.0. */
  method RenewTooEarly() returns (c: Client)
    ensures c.up && c.ip == ANY
  {
    c := new Client(true);
    c.Renew();
    c.Recv(Reply(Ack, 1, None, None, None, None));
  }

  /** An offer without a server identifier stops the timer, and time alone does not start it again,
    * however the two timers take turns. */
  method Stalled(coarse: seq<bool>) returns (c: Client)
    ensures c.state == Selecting && c.requestTimeout == 0
  {
    c := new Client(true);
    c.Recv(Reply(Offer, 1, None, None, None, None));
    for k := 0 to |coarse|
      invariant c.Valid() && c.state == Selecting && c.requestTimeout == 0
    {
      if coarse[k] {
        c.CoarseTmr();
      } else {
        c.FineTmr();
      }
    }
  }

  /** When a renewal has been tried 256 times, it is not tried again. Here that is so after a day's lease
    * was renewed for the first time after a minute, though the rebinding time is far off. */
  method RenewalGivenUp() returns (c: Client)
    ensures c.Valid() && c.up && c.state == Renewing && c.requestTimeout == 0 && c.t2 > 1000
  {
    c := RenewalBegun();
    for k := 1 to 256
      invariant c.Valid() && c.up && c.state == Renewing && c.tries == k % 0x100
      invariant c.t2 == 1440 - k && c.t1 == if k == 1 then 0 else 0x1_0001 - k
    {
      WaitForTry(c);
      c.CoarseTmr();
    }
  }

  method RenewalBegun() returns (c: Client)
    ensures fresh(c) && c.Valid() && c.up && c.state == Renewing && c.tries == 1 && c.t1 == 0 && c.t2 == 1439
  {
    c := new Client(false);
    c.Recv(Reply(Offer, 1, Some(2), None, None, None));
    assert c.state == Requesting;
    c.Recv(Reply(Ack, 1, None, None, Some(60), Some(86400)));
    assert c.state == Bound && c.t1 == 1 && c.t2 == 1440;
    c.CoarseTmr();
  }

  /** Time passes until the next try to renew. */
  method WaitForTry(c: Client)
    requires c.Valid() && c.state == Renewing && c.up && c.tries > 0
    modifies c
    ensures c.Valid() && c.state == Renewing && c.up && c.tries == (old(c.tries) + 1) % 0x100
    ensures c.t1 == old(c.t1) && c.t2 == old(c.t2)
  {
    while c.requestTimeout > 1
      invariant c.Valid() && c.state == Renewing && c.up && c.tries == old(c.tries) && c.requestTimeout >= 1
      invariant c.t1 == old(c.t1) && c.t2 == old(c.t2)
      decreases c.requestTimeout
    {
      c.FineTmr();
    }
    c.FineTmr();
  }
}
