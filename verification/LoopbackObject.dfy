/** The loopback functions of utils.c in their own form: globals updated around calls into the
    event loop, each function tied to the transition of module Loopback that it performs. */
module LoopbackObject {
  import opened TimerQueue
  import opened EventLoop
  import opened EventLoopObject
  import L = Loopback

  /** `loopback_socket` and the global `loopback`.  The sets are the open descriptors. */
  class Loopbacks {
    const el: Eloop
    var server: int
    var sock: int
    var icmp: bool
    var sent: int
    var rcvd: int
    ghost var servers: set<int>
    ghost var others: set<int>
    ghost var senders: set<int>

    ghost predicate Valid()
      reads this, el, el.timers, el.timers.nodes, el.readers, el.readers.buf
    {
      el.Valid() && this !in el.Repr()
    }

    ghost function State(): L.App
      reads this, el, el.timers, el.readers, el.readers.buf
      requires el.readers.Valid()
    {
      L.App(el.State(), servers, others, senders, server, sock, icmp, sent, rcvd)
    }

    constructor (ghost clock: int)
      ensures Valid() && fresh(el.Repr()) && State() == L.Init(clock)
    {
      el := new Eloop(clock);
      server, sock, icmp, sent, rcvd := 0, 0, false, 0, 0;
      servers, others, senders := {}, {}, {};
    }

    /** Returns -1 when no socket could be opened and bound. */
    method LoopbackServerStart(opening: L.Opening, now: Time, timeout: nat) returns (status: int)
      requires Valid() && !opening.Leaked?
      modifies this, el.Repr()
      ensures Valid() && fresh(el.Repr() - old(el.Repr()))
      ensures State() == L.ServerStart(old(State()), opening, now, timeout)
      ensures status == if opening.Opened? then 0 else -1
    {
      if !opening.Opened? {
        return -1;
      }
      var s := opening.fd;
      el.RegisterReadSock(Reader(s, L.SERVER_RECEIVE, L.NULL, L.NULL));
      server := s;
      servers := servers + {s};
      el.RegisterTimeout(now, timeout, 0, L.SERVER_TIMEOUT, s, L.NULL);
      return 0;
    }

    method LoopbackServerStop()
      requires Valid()
      modifies this, el.Repr()
      ensures Valid() && fresh(el.Repr() - old(el.Repr()))
      ensures State() == L.ServerStop(old(State()))
    {
      if server != 0 {
        var _ := el.CancelTimeout(L.SERVER_TIMEOUT, server, L.NULL);
        el.UnregisterReadSock(server);
        servers := servers - {server};
        server := 0;
      }
    }

    method LoopbackServerTimeout(s: int)
      requires Valid()
      modifies this, el.Repr()
      ensures Valid() && fresh(el.Repr() - old(el.Repr()))
      ensures State() == L.ServerTimeout(old(State()), s)
    {
      el.UnregisterReadSock(s);
      servers := servers - {s};
      server := 0;
    }

    /** The continuous case of send_udp_data and send_icmp_data. */
    method SendContinuously(opening: L.Opening, isIcmp: bool, now: Time) returns (status: int)
      requires Valid()
      modifies this, el.Repr()
      ensures Valid() && fresh(el.Repr() - old(el.Repr()))
      ensures State() == L.SenderStart(old(State()), opening, isIcmp, now)
      ensures status == if opening.Opened? then 0 else -1
    {
      match opening {
        case Opened(fd) =>
          others, senders := others + {fd}, senders + {fd};
          sock, icmp, sent, rcvd := fd, isIcmp, 0, 0;
          el.RegisterTimeout(now, 0, 0, L.SEND_CONTINUOUS, L.LOOPBACK, L.NULL);
          return 0;
        case Leaked(fd) =>
          others, senders := others + {fd}, senders + {fd};
          return -1;
        case _ =>
          return -1;
      }
    }

    method SendOneIcmp(ex: L.Exchange)
      requires Valid() && icmp
      modifies this, el.Repr()
      ensures Valid() && fresh(el.Repr() - old(el.Repr()))
      ensures State() == L.SendOne(old(State()), ex)
    {
      sent := sent + 1;
      if ex.sendOk && ex.recvOk && ex.echoReply {
        rcvd := rcvd + 1;
      }
      el.RegisterTimeout(ex.now, 0, ex.usecs, L.SEND_CONTINUOUS, L.LOOPBACK, L.NULL);
    }

    method SendOneUdp(ex: L.Exchange)
      requires Valid() && !icmp
      modifies this, el.Repr()
      ensures Valid() && fresh(el.Repr() - old(el.Repr()))
      ensures State() == L.SendOne(old(State()), ex)
    {
      sent := sent + 1;
      if !ex.sendOk {
        if sent < 1000 {
          el.RegisterTimeout(ex.now, 0, ex.usecs, L.SEND_CONTINUOUS, L.LOOPBACK, L.NULL);
        }
        return;
      }
      if !ex.recvOk {
        if sent < 1000 {
          el.RegisterTimeout(ex.now, 0, ex.usecs, L.SEND_CONTINUOUS, L.LOOPBACK, L.NULL);
        }
        return;
      }
      rcvd := rcvd + 1;
      el.RegisterTimeout(ex.now, 0, ex.usecs, L.SEND_CONTINUOUS, L.LOOPBACK, L.NULL);
    }

    /** send_continuous_loopback_packet. */
    method SendContinuousPacket(ex: L.Exchange)
      requires Valid()
      modifies this, el.Repr()
      ensures Valid() && fresh(el.Repr() - old(el.Repr()))
      ensures State() == L.SendOne(old(State()), ex)
    {
      if icmp {
        SendOneIcmp(ex);
      } else {
        SendOneUdp(ex);
      }
    }

    /** Returns the packets answered and, if a sender was active, the packets sent. */
    method StopLoopbackData(pktSent: int) returns (received: int, pktSent': int)
      requires Valid()
      modifies this, el.Repr()
      ensures Valid() && fresh(el.Repr() - old(el.Repr()))
      ensures State() == L.SenderStop(old(State()))
      ensures (received, pktSent') == if old(sock) <= 0 then (0, pktSent) else (old(rcvd), old(sent))
    {
      if sock <= 0 {
        return 0, pktSent;
      }
      var _ := el.CancelTimeout(L.SEND_CONTINUOUS, L.LOOPBACK, L.NULL);
      others, senders := others - {sock}, senders - {sock};
      sock := 0;
      return rcvd, sent;
    }

    /** The call through the handler pointer of a fired timer, for the handlers of this file. */
    method CallHandler(t: Timer, ex: L.Exchange)
      requires Valid()
      modifies this, el.Repr()
      ensures Valid() && fresh(el.Repr() - old(el.Repr()))
      ensures State() == L.Handler(old(State()), t, ex)
    {
      if t.handler == L.SERVER_TIMEOUT {
        LoopbackServerTimeout(t.ctx);
      } else if t.handler == L.SEND_CONTINUOUS {
        SendContinuousPacket(ex);
      }
    }
  }
}
