/** The two users of the event loop in utils.c: the loopback echo server and the continuous sender.

    Their calls, the timers that fire and the calls of all other code interleave freely. */
module Loopback {
  import opened TimerQueue
  import opened EventTrace
  import opened EventLoop

  // Handler functions and context pointers, as numbers.
  const NULL := 0
  const SERVER_TIMEOUT := 1    // loopback_server_timeout
  const SEND_CONTINUOUS := 2   // send_continuous_loopback_packet
  const SERVER_RECEIVE := 3    // loopback_server_receive_message
  const LOOPBACK := 4          // &loopback

  /** `servers` are the descriptors that loopback_server_start opened and nobody closed, `others`
      all other open ones, `senders` those among them that a continuous sender opened.  `server` is
      loopback_socket; `sock`, `icmp`, `sent`, `rcvd` are fields of the global `loopback`. */
  datatype App = App(
    loop: Loop, servers: set<int>, others: set<int>, senders: set<int>, server: int,
    sock: int, icmp: bool, sent: int, rcvd: int)

  /** How far opening a socket gets.  Binding a sender, not a server, to its device may fail, and
      then the descriptor stays open. */
  datatype Opening = NoSocket | Closed(fd: int) | Leaked(fd: int) | Opened(fd: int)

  /** What one send and receive meet, and when and how soon the sender re-arms itself. */
  datatype Exchange = Exchange(sendOk: bool, recvOk: bool, echoReply: bool, now: Time, usecs: nat)

  datatype Action =
    | StartServer(opening: Opening, now: Time, timeout: nat)
    | StopServer
    | StartSender(opening: Opening, isIcmp: bool, now: Time)
    | StopSender
    | Fire(now: Time, ex: Exchange)  // the timer check of the loop
    | Foreign(op: Op)                // a call made by other code
    | OpenOther(fd: int)
    | CloseOther(fd: int)

  // ---------- the functions of utils.c ----------

  function ServerStart(s: App, o: Opening, now: Time, timeout: nat): App {
    if !o.Opened? then s
    else
      var a := Step(s.loop, RegisterReadSock(Reader(o.fd, SERVER_RECEIVE, NULL, NULL)));
      var b := Step(a, RegisterTimeout(now, timeout, 0, SERVER_TIMEOUT, o.fd, NULL));
      s.(loop := b, servers := s.servers + {o.fd}, server := o.fd)
  }

  function ServerStop(s: App): App {
    if s.server == 0 then s
    else
      var a := Step(s.loop, CancelTimeout(SERVER_TIMEOUT, s.server, NULL));
      var b := Step(a, UnregisterReadSock(s.server));
      s.(loop := b, servers := s.servers - {s.server}, server := 0)
  }

  function ServerTimeout(s: App, fd: int): App {
    s.(loop := Step(s.loop, UnregisterReadSock(fd)), servers := s.servers - {fd}, server := 0)
  }

  function SenderStart(s: App, o: Opening, isIcmp: bool, now: Time): App {
    if o.Opened? then
      s.(loop := Step(s.loop, RegisterTimeout(now, 0, 0, SEND_CONTINUOUS, LOOPBACK, NULL)),
         others := s.others + {o.fd}, senders := s.senders + {o.fd}, sock := o.fd, icmp := isIcmp, sent := 0, rcvd := 0)
    else if o.Leaked? then s.(others := s.others + {o.fd}, senders := s.senders + {o.fd})
    else s
  }

  function SenderStop(s: App): App {
    if s.sock <= 0 then s
    else s.(loop := Step(s.loop, CancelTimeout(SEND_CONTINUOUS, LOOPBACK, NULL)),
            others := s.others - {s.sock}, senders := s.senders - {s.sock}, sock := 0)
  }

  predicate Answered(icmp: bool, ex: Exchange) {
    ex.sendOk && ex.recvOk && (icmp ==> ex.echoReply)
  }

  /** One packet.  After 1000 packets the UDP sender re-arms only if it was answered. */
  function SendOne(s: App, ex: Exchange): App {
    var ok := Answered(s.icmp, ex);
    var again := s.icmp || ok || s.sent + 1 < 1000;
    var rearm := RegisterTimeout(ex.now, 0, ex.usecs, SEND_CONTINUOUS, LOOPBACK, NULL);
    s.(sent := s.sent + 1, rcvd := s.rcvd + (if ok then 1 else 0),
       loop := if again then Step(s.loop, rearm) else s.loop)
  }

  function Handler(s: App, t: Timer, ex: Exchange): App {
    if t.handler == SERVER_TIMEOUT then ServerTimeout(s, t.ctx)
    else if t.handler == SEND_CONTINUOUS then SendOne(s, ex)
    else s
  }

  function CheckTimer(s: App, now: Time, ex: Exchange): App {
    var r := ReadClock(s.loop, now);
    if HeadDue(r, now) then Handler(s.(loop := Unlink(r, now)), r.timers[0], ex) else s.(loop := r)
  }

  function Next(s: App, a: Action): App {
    match a
    case StartServer(o, now, timeout) => ServerStart(s, o, now, timeout)
    case StopServer => ServerStop(s)
    case StartSender(o, i, now) => SenderStart(s, o, i, now)
    case StopSender => SenderStop(s)
    case Fire(now, ex) => CheckTimer(s, now, ex)
    case Foreign(op) => s.(loop := Step(s.loop, op))
    case OpenOther(fd) => s.(others := s.others + {fd})
    case CloseOther(fd) => s.(others := s.others - {fd})
  }

  /** What the system owes: a new descriptor is positive and not open. */
  predicate Fresh(s: App, fd: int) {
    fd > 0 && fd !in s.servers && fd !in s.others
  }

  predicate OpeningAllowed(s: App, o: Opening) {
    o.NoSocket? || Fresh(s, o.fd)
  }

  /** Other code uses its own handlers, registers only sockets it has open, and unregisters them
      before it closes them. */
  predicate ForeignAllowed(s: App, op: Op) {
    && Allowed(s.loop, op)
    && match op
       case RegisterTimeout(_, _, _, h, _, _) => h != SERVER_TIMEOUT && h != SEND_CONTINUOUS
       case CancelTimeout(h, _, _) => h != SERVER_TIMEOUT && h != SEND_CONTINUOUS
       case RegisterReadSock(r) => r.handler != SERVER_RECEIVE && r.sock in s.others && r.sock != s.sock
       case UnregisterReadSock(sock) => sock !in s.servers
       case Terminate => true
  }

  predicate ActionAllowed(s: App, a: Action) {
    match a
    case StartServer(o, now, _) => OpeningAllowed(s, o) && !o.Leaked? && s.loop.clock <= Micros(now)
    case StartSender(o, _, now) => OpeningAllowed(s, o) && s.loop.clock <= Micros(now)
    case Fire(now, ex) => s.loop.clock <= Micros(now) <= Micros(ex.now)
    case Foreign(op) => ForeignAllowed(s, op)
    case OpenOther(fd) => Fresh(s, fd)
    case CloseOther(fd) => fd in s.others && fd !in s.senders && fd !in Socks(s.loop.readers)
    case _ => true
  }

  function Run(s: App, acts: seq<Action>): App
    decreases |acts|
  {
    if acts == [] then s else Run(Next(s, acts[0]), acts[1..])
  }

  predicate RunAllowed(s: App, acts: seq<Action>)
    decreases |acts|
  {
    acts == [] || (ActionAllowed(s, acts[0]) && RunAllowed(Next(s, acts[0]), acts[1..]))
  }

  function Init(clock: int): App {
    App(EventLoop.Init(clock), {}, {}, {}, 0, 0, false, 0, 0)
  }

  // ---------- the invariant ----------

  /** The sockets that have a reader with the loopback handler. */
  function ServerReaders(rs: seq<Reader>): set<int> {
    set r | r in rs && r.handler == SERVER_RECEIVE :: r.sock
  }

  /** The contexts of the pending loopback timeouts. */
  function ServerTimers(ts: seq<Timer>): set<int> {
    set t | t in ts && t.handler == SERVER_TIMEOUT :: t.ctx
  }

  ghost predicate OneTimerEach(ts: seq<Timer>) {
    forall t, u :: t in ts && u in ts && t.handler == SERVER_TIMEOUT && u.handler == SERVER_TIMEOUT ==>
      t.ctx == u.ctx ==> t == u
  }

  /** Each open server has one pending timeout, and there are send timers only for an open sender. */
  ghost predicate TimersInv(ts: seq<Timer>, servers: set<int>, sending: bool) {
    && ServerTimers(ts) == servers
    && OneTimerEach(ts)
    && (forall t :: t in ts && t.handler == SERVER_TIMEOUT ==> t.user == NULL)
    && (forall t :: t in ts && t.handler == SEND_CONTINUOUS ==> sending && t.ctx == LOOPBACK && t.user == NULL)
  }

  /** Each open server has its reader, and no reader names a closed socket. */
  ghost predicate ReadersInv(rs: seq<Reader>, servers: set<int>, others: set<int>, sock: int) {
    && ServerReaders(rs) == servers
    && Socks(rs) <= servers + others
    && (sock > 0 ==> sock in others && sock !in Socks(rs))
  }

  ghost predicate Inv(s: App) {
    && EventLoop.Inv(s.loop)
    && TimersInv(s.loop.timers, s.servers, s.sock > 0)
    && ReadersInv(s.loop.readers, s.servers, s.others, s.sock)
    && (s.server != 0 ==> s.server in s.servers)
    && (forall fd :: fd in s.servers ==> fd > 0 && fd !in s.others)
    && 0 <= s.rcvd <= s.sent
    && s.senders <= s.others
    && (s.sock > 0 ==> s.sock in s.senders)
  }

  lemma InitInv(clock: int)
    ensures Inv(Init(clock))
  {
  }

  // ---------- how the calls change the two lists ----------

  lemma InsertTimers(ts: seq<Timer>, t: Timer, servers: set<int>, sending: bool)
    requires TimersInv(ts, servers, sending)
    requires t.handler == SERVER_TIMEOUT ==> t.user == NULL && t.ctx !in servers
    requires t.handler == SEND_CONTINUOUS ==> t.ctx == LOOPBACK && t.user == NULL
    ensures TimersInv(Insert(ts, t), if t.handler == SERVER_TIMEOUT then servers + {t.ctx} else servers,
                      sending || t.handler == SEND_CONTINUOUS)
  {
    InsertMultiset(ts, t);
    forall u | u in ts && u.handler == SERVER_TIMEOUT ensures u.ctx in servers {
    }
  }

  lemma CancelTimers(ts: seq<Timer>, h: int, c: int, servers: set<int>, sending: bool)
    requires TimersInv(ts, servers, sending)
    requires h == SERVER_TIMEOUT ==> c in servers && c != ALL_CTX
    requires h == SEND_CONTINUOUS ==> c == LOOPBACK
    ensures TimersInv(Keep(ts, h, c, NULL), if h == SERVER_TIMEOUT then servers - {c} else servers,
                      sending && h != SEND_CONTINUOUS)
  {
    KeepDropMembers(ts, h, c, NULL);
  }

  lemma ForeignCancel(ts: seq<Timer>, h: int, c: int, u: int, servers: set<int>, sending: bool)
    requires TimersInv(ts, servers, sending)
    requires h != SERVER_TIMEOUT && h != SEND_CONTINUOUS
    ensures TimersInv(Keep(ts, h, c, u), servers, sending)
  {
    KeepDropMembers(ts, h, c, u);
  }

  lemma UnlinkTimers(ts: seq<Timer>, servers: set<int>, sending: bool)
    requires TimersInv(ts, servers, sending) && Sorted(ts) && ts != []
    ensures TimersInv(ts[1..], if ts[0].handler == SERVER_TIMEOUT then servers - {ts[0].ctx} else servers, sending)
    ensures ts[0].handler == SERVER_TIMEOUT ==> ts[0].ctx in servers
    ensures ts[0].handler == SEND_CONTINUOUS ==> sending
  {
    SortedTail(ts);
    assert ts == [ts[0]] + ts[1..];
    assert ts[0] !in ts[1..];
  }

  lemma FewerReaders(rs: seq<Reader>, w: seq<Reader>, fd: int)
    requires forall r :: r in w <==> r in rs && r.sock != fd
    ensures ServerReaders(w) == ServerReaders(rs) - {fd}
    ensures Socks(w) == Socks(rs) - {fd}
  {
  }

  lemma CloseReader(rs: seq<Reader>, fd: int, servers: set<int>, others: set<int>, sock: int)
    requires Unique(rs) && ReadersInv(rs, servers, others, sock)
    ensures ReadersInv(Without(rs, fd), servers - {fd}, others, sock)
  {
    WithoutMembers(rs, fd);
    FewerReaders(rs, Without(rs, fd), fd);
  }

  lemma ServerIsRegistered(rs: seq<Reader>, servers: set<int>, others: set<int>, sock: int)
    requires ReadersInv(rs, servers, others, sock)
    ensures servers <= Socks(rs)
  {
  }

  lemma MoreReaders(rs: seq<Reader>, r: Reader)
    ensures ServerReaders(rs + [r]) == ServerReaders(rs) + (if r.handler == SERVER_RECEIVE then {r.sock} else {})
    ensures Socks(rs + [r]) == Socks(rs) + {r.sock}
  {
    SocksAppend(rs, r);
    var w := rs + [r];
    assert forall x :: x in w <==> x in rs || x == r;
  }

  lemma AddReader(rs: seq<Reader>, r: Reader, servers: set<int>, others: set<int>, sock: int)
    requires ReadersInv(rs, servers, others, sock) && r.sock != sock
    requires r.handler != SERVER_RECEIVE ==> r.sock in others
    ensures ReadersInv(rs + [r], if r.handler == SERVER_RECEIVE then servers + {r.sock} else servers, others, sock)
  {
    MoreReaders(rs, r);
  }

  // ---------- every action keeps the invariant ----------

  lemma ServerReaderAdded(s: App, fd: int)
    requires Inv(s) && Fresh(s, fd)
    ensures var a := Step(s.loop, RegisterReadSock(Reader(fd, SERVER_RECEIVE, NULL, NULL)));
            EventLoop.Inv(a) && ReadersInv(a.readers, s.servers + {fd}, s.others, s.sock)
  {
    var r := Reader(fd, SERVER_RECEIVE, NULL, NULL);
    assert fd !in Socks(s.loop.readers);
    StepInv(s.loop, RegisterReadSock(r));
    AddReader(s.loop.readers, r, s.servers, s.others, s.sock);
  }

  lemma ServerTimerAdded(l: Loop, servers: set<int>, fd: int, now: Time, timeout: nat, sending: bool)
    requires EventLoop.Inv(l) && TimersInv(l.timers, servers, sending) && fd !in servers && l.clock <= Micros(now)
    ensures var b := Step(l, RegisterTimeout(now, timeout, 0, SERVER_TIMEOUT, fd, NULL));
            EventLoop.Inv(b) && TimersInv(b.timers, servers + {fd}, sending)
  {
    StepInv(l, RegisterTimeout(now, timeout, 0, SERVER_TIMEOUT, fd, NULL));
    InsertTimers(l.timers, Timer(l.nextId, Deadline(now, timeout, 0), SERVER_TIMEOUT, fd, NULL), servers, sending);
  }

  lemma ServerStartInv(s: App, o: Opening, now: Time, timeout: nat)
    requires Inv(s) && OpeningAllowed(s, o) && s.loop.clock <= Micros(now)
    ensures Inv(ServerStart(s, o, now, timeout))
  {
    if o.Opened? {
      ServerReaderAdded(s, o.fd);
      var a := Step(s.loop, RegisterReadSock(Reader(o.fd, SERVER_RECEIVE, NULL, NULL)));
      ServerTimerAdded(a, s.servers, o.fd, now, timeout, s.sock > 0);
    }
  }

  lemma ServerStopInv(s: App)
    requires Inv(s)
    ensures Inv(ServerStop(s))
  {
    if s.server != 0 {
      var a := Step(s.loop, CancelTimeout(SERVER_TIMEOUT, s.server, NULL));
      StepInv(s.loop, CancelTimeout(SERVER_TIMEOUT, s.server, NULL));
      StepInv(a, UnregisterReadSock(s.server));
      CancelTimers(s.loop.timers, SERVER_TIMEOUT, s.server, s.servers, s.sock > 0);
      CloseReader(a.readers, s.server, s.servers, s.others, s.sock);
    }
  }

  lemma SenderStartInv(s: App, o: Opening, isIcmp: bool, now: Time)
    requires Inv(s) && OpeningAllowed(s, o) && s.loop.clock <= Micros(now)
    ensures Inv(SenderStart(s, o, isIcmp, now))
  {
    if o.Opened? {
      StepInv(s.loop, RegisterTimeout(now, 0, 0, SEND_CONTINUOUS, LOOPBACK, NULL));
      var t := Timer(s.loop.nextId, Deadline(now, 0, 0), SEND_CONTINUOUS, LOOPBACK, NULL);
      InsertTimers(s.loop.timers, t, s.servers, s.sock > 0);
    }
  }

  lemma SenderStopInv(s: App)
    requires Inv(s)
    ensures Inv(SenderStop(s))
  {
    if s.sock > 0 {
      StepInv(s.loop, CancelTimeout(SEND_CONTINUOUS, LOOPBACK, NULL));
      CancelTimers(s.loop.timers, SEND_CONTINUOUS, LOOPBACK, s.servers, s.sock > 0);
    }
  }

  /** When the handler runs, the timer is already gone. */
  lemma TimeoutInv(s: App, fd: int)
    requires fd in s.servers && TimersInv(s.loop.timers, s.servers - {fd}, s.sock > 0)
    requires EventLoop.Inv(s.loop) && ReadersInv(s.loop.readers, s.servers, s.others, s.sock)
    requires forall x :: x in s.servers ==> x > 0 && x !in s.others
    requires 0 <= s.rcvd <= s.sent && s.senders <= s.others && (s.sock > 0 ==> s.sock in s.senders)
    ensures Inv(ServerTimeout(s, fd))
  {
    StepInv(s.loop, UnregisterReadSock(fd));
    ServerIsRegistered(s.loop.readers, s.servers, s.others, s.sock);
    CloseReader(s.loop.readers, fd, s.servers, s.others, s.sock);
  }

  lemma SendOneInv(s: App, ex: Exchange)
    requires Inv(s) && s.sock > 0 && s.loop.clock <= Micros(ex.now)
    ensures Inv(SendOne(s, ex))
  {
    StepInv(s.loop, RegisterTimeout(ex.now, 0, ex.usecs, SEND_CONTINUOUS, LOOPBACK, NULL));
    var t := Timer(s.loop.nextId, Deadline(ex.now, 0, ex.usecs), SEND_CONTINUOUS, LOOPBACK, NULL);
    InsertTimers(s.loop.timers, t, s.servers, true);
  }

  lemma FireInv(s: App, now: Time, ex: Exchange)
    requires Inv(s) && s.loop.clock <= Micros(now) <= Micros(ex.now)
    ensures Inv(CheckTimer(s, now, ex))
  {
    var r := ReadClock(s.loop, now);
    if HeadDue(r, now) {
      var t, v := r.timers[0], Unlink(r, now);
      UnlinkInv(r, now);
      UnlinkTimers(r.timers, s.servers, s.sock > 0);
      var u := s.(loop := v);
      if t.handler == SERVER_TIMEOUT {
        TimeoutInv(u, t.ctx);
      } else if t.handler == SEND_CONTINUOUS {
        SendOneInv(u, ex);
      }
    }
  }

  lemma ForeignInv(s: App, op: Op)
    requires Inv(s) && ForeignAllowed(s, op)
    ensures Inv(Next(s, Foreign(op)))
  {
    StepInv(s.loop, op);
    match op
    case RegisterTimeout(now, secs, usecs, h, c, u) =>
      InsertTimers(s.loop.timers, Timer(s.loop.nextId, Deadline(now, secs, usecs), h, c, u), s.servers, s.sock > 0);
    case CancelTimeout(h, c, u) => ForeignCancel(s.loop.timers, h, c, u, s.servers, s.sock > 0);
    case RegisterReadSock(r) => AddReader(s.loop.readers, r, s.servers, s.others, s.sock);
    case UnregisterReadSock(sock) => CloseReader(s.loop.readers, sock, s.servers, s.others, s.sock);
    case Terminate =>
  }

  lemma NextInv(s: App, a: Action)
    requires Inv(s) && ActionAllowed(s, a)
    ensures Inv(Next(s, a))
  {
    match a
    case StartServer(o, now, timeout) => ServerStartInv(s, o, now, timeout);
    case StopServer => ServerStopInv(s);
    case StartSender(o, i, now) => SenderStartInv(s, o, i, now);
    case StopSender => SenderStopInv(s);
    case Fire(now, ex) => FireInv(s, now, ex);
    case Foreign(op) => ForeignInv(s, op);
    case _ =>
  }

  lemma {:induction false} RunInv(s: App, acts: seq<Action>)
    requires Inv(s) && RunAllowed(s, acts)
    ensures Inv(Run(s, acts))
    decreases |acts|
  {
    if acts == [] {
    } else {
      NextInv(s, acts[0]);
      RunInv(Next(s, acts[0]), acts[1..]);
    }
  }

  // ---------- the lifecycle over whole runs ----------

  /** For every interleaving, overlapping starts included: the open servers, the readers with the
      loopback handler and the pending loopback timeouts are the same set; no reader and no
      loopback timer names a closed socket; a non-zero loopback_socket is an open server; without
      an open sender no send timer is pending; and the sender never counts more answers than packets. */
  lemma Lifecycle(clock: int, acts: seq<Action>)
    requires RunAllowed(Init(clock), acts)
    ensures var s := Run(Init(clock), acts);
            && s.servers == ServerReaders(s.loop.readers) == ServerTimers(s.loop.timers)
            && Socks(s.loop.readers) <= s.servers + s.others
            && (s.server != 0 ==> s.server in s.servers)
            && (s.sock <= 0 ==> forall t :: t in s.loop.timers ==> t.handler != SEND_CONTINUOUS)
            && 0 <= s.rcvd <= s.sent
  {
    InitInv(clock);
    RunInv(Init(clock), acts);
  }

  /** However many starts preceded it, stopping an active sender leaves no send timer, closes its
      socket and touches no other timer. */
  lemma StopSilencesSender(clock: int, acts: seq<Action>)
    requires RunAllowed(Init(clock), acts) && Run(Init(clock), acts).sock > 0
    ensures var s := Run(Init(clock), acts);
            var e := SenderStop(s);
            && (forall t :: t in e.loop.timers <==> t in s.loop.timers && t.handler != SEND_CONTINUOUS)
            && s.sock in s.others && e.others == s.others - {s.sock}
  {
    InitInv(clock);
    RunInv(Init(clock), acts);
    KeepDropMembers(Run(Init(clock), acts).loop.timers, SEND_CONTINUOUS, LOOPBACK, NULL);
  }

  // ---------- a sender goes on sending ----------

  ghost predicate HasSendTimer(ts: seq<Timer>) {
    exists t :: t in ts && t.handler == SEND_CONTINUOUS
  }

  /** An active sender that is not a UDP sender with 1000 packets behind it has its next packet scheduled. */
  ghost predicate Scheduled(s: App) {
    s.sock > 0 && (s.icmp || s.sent < 1000) ==> HasSendTimer(s.loop.timers)
  }

  lemma InsertSends(ts: seq<Timer>, t: Timer)
    ensures HasSendTimer(Insert(ts, t)) <==> HasSendTimer(ts) || t.handler == SEND_CONTINUOUS
  {
    InsertMultiset(ts, t);
    assert t in Insert(ts, t);
    forall u | u in ts ensures u in Insert(ts, t) {
    }
  }

  lemma KeepSends(ts: seq<Timer>, h: int, c: int, u: int)
    requires h != SEND_CONTINUOUS
    ensures HasSendTimer(ts) ==> HasSendTimer(Keep(ts, h, c, u))
  {
    KeepDropMembers(ts, h, c, u);
    forall t | t in ts && t.handler == SEND_CONTINUOUS ensures t in Keep(ts, h, c, u) {
    }
  }

  /** All that a due timer does when the loop fires it: a send timer sends one packet and is replaced
      by one due the given delay later, unless the sender is a UDP sender that got no answer to its
      1000th or a later packet; a server's timeout closes that server. */
  lemma FireAsPrescribed(s: App, now: Time, ex: Exchange) returns (n: Timer)
    requires s.loop.timers != [] && Micros(s.loop.timers[0].time) <= Micros(now)
    ensures var t, e := s.loop.timers[0], Next(s, Fire(now, ex));
            && e.sock == s.sock && e.icmp == s.icmp && e.senders == s.senders && e.others == s.others
            && (t.handler == SEND_CONTINUOUS ==>
                 var answered := ex.sendOk && ex.recvOk;
                 && e.sent == s.sent + 1
                 && e.rcvd == s.rcvd + (if answered && (s.icmp ==> ex.echoReply) then 1 else 0)
                 && e.servers == s.servers && e.server == s.server && e.loop.readers == s.loop.readers
                 && multiset(e.loop.timers) == multiset(s.loop.timers[1..]) +
                      (if !s.icmp && !answered && s.sent + 1 >= 1000 then multiset{} else multiset{n})
                 && n.handler == SEND_CONTINUOUS && n.ctx == LOOPBACK && n.user == NULL
                 && Micros(n.time) == Micros(ex.now) + ex.usecs)
            && (t.handler == SERVER_TIMEOUT ==>
                 && e.loop.timers == s.loop.timers[1..] && e.sent == s.sent && e.rcvd == s.rcvd
                 && e.servers == s.servers - {t.ctx} && e.server == 0)
            && (t.handler != SEND_CONTINUOUS && t.handler != SERVER_TIMEOUT ==>
                 e.loop.timers == s.loop.timers[1..] && e.(loop := s.loop) == s)
  {
    var r := ReadClock(s.loop, now);
    BeforeIsEarlier(now, s.loop.timers[0].time);
    n := Timer(r.nextId, Deadline(ex.now, 0, ex.usecs), SEND_CONTINUOUS, LOOPBACK, NULL);
    InsertMultiset(r.timers[1..], n);
  }

  /** A firing leaves no send timer, where one fired, exactly when there was no second one and the
      sender is a UDP sender that got no answer to its 1000th or a later packet. */
  lemma SenderStopsExactly(s: App, now: Time, ex: Exchange)
    requires s.loop.timers != [] && Micros(s.loop.timers[0].time) <= Micros(now)
    requires s.loop.timers[0].handler == SEND_CONTINUOUS
    ensures !HasSendTimer(Next(s, Fire(now, ex)).loop.timers) <==>
            !HasSendTimer(s.loop.timers[1..]) && !s.icmp && !(ex.sendOk && ex.recvOk) && s.sent + 1 >= 1000
  {
    var n := FireAsPrescribed(s, now, ex);
    var q, e := s.loop.timers[1..], Next(s, Fire(now, ex)).loop.timers;
    assert forall t :: t in e <==> t in multiset(e);
    assert forall t :: t in q <==> t in multiset(q);
  }

  lemma FireSchedules(s: App, now: Time, ex: Exchange)
    requires Scheduled(s)
    ensures Scheduled(Next(s, Fire(now, ex)))
  {
    var q := s.loop.timers;
    if q != [] {
      BeforeIsEarlier(now, q[0].time);
      if HeadDue(s.loop, now) {
        var n := FireAsPrescribed(s, now, ex);
        if q[0].handler == SEND_CONTINUOUS {
          SenderStopsExactly(s, now, ex);
        } else {
          assert q == [q[0]] + q[1..];
        }
      }
    }
  }

  lemma NextSchedules(s: App, a: Action)
    requires ActionAllowed(s, a) && Scheduled(s)
    ensures Scheduled(Next(s, a))
  {
    match a
    case StartServer(o, now, timeout) =>
      if o.Opened? {
        InsertSends(s.loop.timers, Timer(s.loop.nextId, Deadline(now, timeout, 0), SERVER_TIMEOUT, o.fd, NULL));
      }
    case StopServer => KeepSends(s.loop.timers, SERVER_TIMEOUT, s.server, NULL);
    case StartSender(o, i, now) =>
      InsertSends(s.loop.timers, Timer(s.loop.nextId, Deadline(now, 0, 0), SEND_CONTINUOUS, LOOPBACK, NULL));
    case Fire(now, ex) => FireSchedules(s, now, ex);
    case Foreign(op) =>
      match op {
        case RegisterTimeout(now, secs, usecs, h, c, u) =>
          InsertSends(s.loop.timers, Timer(s.loop.nextId, Deadline(now, secs, usecs), h, c, u));
        case CancelTimeout(h, c, u) => KeepSends(s.loop.timers, h, c, u);
        case _ =>
      }
    case _ =>
  }

  lemma {:induction false} SchedulesAlong(s: App, acts: seq<Action>)
    requires RunAllowed(s, acts) && Scheduled(s)
    ensures Scheduled(Run(s, acts))
    decreases |acts|
  {
    if acts == [] {
    } else {
      NextSchedules(s, acts[0]);
      SchedulesAlong(Next(s, acts[0]), acts[1..]);
    }
  }

  /** Over every run, an active sender always has its next packet scheduled, unless it is a UDP
      sender that has sent 1000 packets. */
  lemma SenderGoesOn(clock: int, acts: seq<Action>)
    requires RunAllowed(Init(clock), acts)
    ensures var s := Run(Init(clock), acts);
            s.sock > 0 && (s.icmp || s.sent < 1000) ==> exists t :: t in s.loop.timers && t.handler == SEND_CONTINUOUS
  {
    SchedulesAlong(Init(clock), acts);
  }

  /** What a start leaves behind: a server has its reader and a timeout due the given seconds after
      the start; a sender of the given kind has counted nothing and sends at once. */
  lemma StartAsAsked(s: App, fd: int, now: Time, timeout: nat, isIcmp: bool) returns (t: Timer, u: Timer)
    requires Inv(s) && Fresh(s, fd)
    ensures var e := Next(s, StartServer(Opened(fd), now, timeout));
            && e.server == fd && e.servers == s.servers + {fd} && e.sock == s.sock
            && (forall r :: r in e.loop.readers <==> r in s.loop.readers || r == Reader(fd, SERVER_RECEIVE, NULL, NULL))
            && multiset(e.loop.timers) == multiset(s.loop.timers) + multiset{t}
            && t.handler == SERVER_TIMEOUT && t.ctx == fd && Micros(t.time) == Micros(now) + 1_000_000 * timeout
    ensures var e := Next(s, StartSender(Opened(fd), isIcmp, now));
            && e.sock == fd && e.icmp == isIcmp && e.sent == 0 && e.rcvd == 0 && e.servers == s.servers
            && multiset(e.loop.timers) == multiset(s.loop.timers) + multiset{u}
            && u.handler == SEND_CONTINUOUS && Micros(u.time) == Micros(now)
  {
    t := Timer(s.loop.nextId, Deadline(now, timeout, 0), SERVER_TIMEOUT, fd, NULL);
    u := Timer(s.loop.nextId, Deadline(now, 0, 0), SEND_CONTINUOUS, LOOPBACK, NULL);
    InsertMultiset(s.loop.timers, t);
    InsertMultiset(s.loop.timers, u);
    SocksAppend(s.loop.readers, Reader(fd, SERVER_RECEIVE, NULL, NULL));
  }

  // ---------- the senders' descriptors ----------

  /** The descriptors of senders that are open are that of the active sender, if there is one. */
  predicate NoneStranded(s: App) {
    s.senders == if s.sock > 0 then {s.sock} else {}
  }

  /** A start that strands a descriptor: it leaks its own, or overwrites that of an active sender. */
  predicate Strands(s: App, a: Action) {
    a.StartSender? && (a.opening.Leaked? || (a.opening.Opened? && s.sock > 0))
  }

  predicate NeverStrands(s: App, acts: seq<Action>)
    decreases |acts|
  {
    acts == [] || (!Strands(s, acts[0]) && NeverStrands(Next(s, acts[0]), acts[1..]))
  }

  /** A stranded descriptor is never closed again. */
  lemma StrandedStep(s: App, a: Action)
    requires Inv(s) && ActionAllowed(s, a)
    ensures NoneStranded(Next(s, a)) <==> NoneStranded(s) && !Strands(s, a)
  {
    var t := Next(s, a);
    if Strands(s, a) {
      var fd := if a.opening.Leaked? then a.opening.fd else s.sock;
      assert fd in t.senders && !(t.sock > 0 && fd == t.sock);
    } else if NoneStranded(t) {
      forall fd | fd in s.senders ensures s.sock > 0 && fd == s.sock {
        assert fd in t.senders || (a.StopSender? && fd == s.sock);
      }
    }
  }

  lemma {:induction false} StrandedAlong(s: App, acts: seq<Action>)
    requires Inv(s) && RunAllowed(s, acts)
    ensures NoneStranded(Run(s, acts)) <==> NoneStranded(s) && NeverStrands(s, acts)
    decreases |acts|
  {
    if acts == [] {
    } else {
      StrandedStep(s, acts[0]);
      NextInv(s, acts[0]);
      StrandedAlong(Next(s, acts[0]), acts[1..]);
    }
  }

  /** After any run, a stop leaves no descriptor of a sender open if and only if no start of the run
      leaked one and none came while a sender was active. */
  lemma StopClosesAllSenders(clock: int, acts: seq<Action>)
    requires RunAllowed(Init(clock), acts)
    ensures SenderStop(Run(Init(clock), acts)).senders == {} <==> NeverStrands(Init(clock), acts)
  {
    InitInv(clock);
    RunInv(Init(clock), acts);
    StrandedAlong(Init(clock), acts);
    var s := Run(Init(clock), acts);
    assert s.sock > 0 && SenderStop(s).senders == {} ==> s.senders == {s.sock};
  }

  /** Two starts without a stop between them: the stop closes the second descriptor only. */
  lemma SecondStartStrands()
    ensures exists acts :: RunAllowed(Init(0), acts) && SenderStop(Run(Init(0), acts)).senders == {3}
  {
    var t0: Time := TimeVal(0, 0);
    var a0, a1 := StartSender(Opened(3), true, t0), StartSender(Opened(4), true, t0);
    var s1 := Next(Init(0), a0);
    var s2 := Next(s1, a1);
    assert s1.senders == {3} && s2.senders == {3, 4} && s2.sock == 4;
    assert [a1][1..] == [] && [a0, a1][1..] == [a1];
    assert Run(s1, [a1]) == s2 && RunAllowed(s1, [a1]);
    assert Run(Init(0), [a0, a1]) == s2 && RunAllowed(Init(0), [a0, a1]);
  }

  /** A server is started only when none is open. */
  predicate OneAtATime(s: App, acts: seq<Action>)
    decreases |acts|
  {
    acts == [] || ((acts[0].StartServer? ==> s.servers == {}) && OneAtATime(Next(s, acts[0]), acts[1..]))
  }

  lemma {:induction false} SingleServer(s: App, acts: seq<Action>)
    requires Inv(s) && RunAllowed(s, acts) && OneAtATime(s, acts)
    requires s.servers == if s.server == 0 then {} else {s.server}
    ensures var e := Run(s, acts); e.servers == if e.server == 0 then {} else {e.server}
    decreases |acts|
  {
    if acts == [] {
    } else {
      NextInv(s, acts[0]);
      if acts[0].Fire? && HeadDue(ReadClock(s.loop, acts[0].now), acts[0].now) {
        UnlinkTimers(s.loop.timers, s.servers, s.sock > 0);
      }
      SingleServer(Next(s, acts[0]), acts[1..]);
    }
  }

  /** Without overlapping starts, loopback_server_status tells whether a server is open, and a
      stop closes whatever is open. */
  lemma StatusIsExact(clock: int, acts: seq<Action>)
    requires RunAllowed(Init(clock), acts) && OneAtATime(Init(clock), acts)
    ensures var s := Run(Init(clock), acts);
            (s.server != 0 <==> s.servers != {}) && ServerStop(s).servers == {}
  {
    InitInv(clock);
    SingleServer(Init(clock), acts);
  }

  /** loopback_server_status is right: non-zero exactly while some server is open. */
  predicate StatusRight(s: App) {
    s.server != 0 <==> s.servers != {}
  }

  /** The two actions after which the status is wrong: a stop that closes one of several servers,
      and a server's timeout while another one is open. */
  predicate Misleads(s: App, a: Action) {
    || (a.StopServer? && s.server != 0 && s.servers != {s.server})
    || (a.Fire? && HeadDue(s.loop, a.now) && s.loop.timers[0].handler == SERVER_TIMEOUT &&
        s.servers != {s.loop.timers[0].ctx})
  }

  /** One action spoils a right status if and only if it is one of these. */
  lemma StatusStep(s: App, a: Action)
    requires Inv(s) && ActionAllowed(s, a) && StatusRight(s)
    ensures StatusRight(Next(s, a)) <==> !Misleads(s, a)
  {
    if a.Fire? && HeadDue(s.loop, a.now) {
      UnlinkTimers(s.loop.timers, s.servers, s.sock > 0);
    }
  }

  predicate AlwaysRight(s: App, acts: seq<Action>)
    decreases |acts|
  {
    StatusRight(s) && (acts == [] || AlwaysRight(Next(s, acts[0]), acts[1..]))
  }

  predicate NeverMisled(s: App, acts: seq<Action>)
    decreases |acts|
  {
    acts == [] || (!Misleads(s, acts[0]) && NeverMisled(Next(s, acts[0]), acts[1..]))
  }

  lemma {:induction false} StatusAlong(s: App, acts: seq<Action>)
    requires Inv(s) && RunAllowed(s, acts) && StatusRight(s)
    ensures AlwaysRight(s, acts) <==> NeverMisled(s, acts)
    decreases |acts|
  {
    if acts == [] {
    } else {
      StatusStep(s, acts[0]);
      NextInv(s, acts[0]);
      if !Misleads(s, acts[0]) {
        StatusAlong(Next(s, acts[0]), acts[1..]);
      }
    }
  }

  /** Over any run from the start, overlapping starts included, the status is right throughout if
      and only if no stop and no timeout happens while a server other than the one it closes is open. */
  lemma StatusThroughout(clock: int, acts: seq<Action>)
    requires RunAllowed(Init(clock), acts)
    ensures AlwaysRight(Init(clock), acts) <==> NeverMisled(Init(clock), acts)
  {
    InitInv(clock);
    StatusAlong(Init(clock), acts);
  }

  /** With overlapping starts it does not: the first server's timeout hides the second one. */
  lemma OverlapHidesServer()
    ensures exists acts :: RunAllowed(Init(0), acts) && HidesServer(Run(Init(0), acts))
  {
    var t0: Time, t1: Time := TimeVal(0, 0), TimeVal(1, 0);
    var ex := Exchange(true, true, true, t1, 0);
    var a0, a1, a2 := StartServer(Opened(3), t0, 1), StartServer(Opened(4), t0, 9), Fire(t1, ex);
    var s1 := Next(Init(0), a0);
    var s2 := Next(s1, a1);
    assert s1.loop.timers == [Timer(0, TimeVal(1, 0), SERVER_TIMEOUT, 3, NULL)];
    assert s2.loop.timers == [s1.loop.timers[0], Timer(1, TimeVal(9, 0), SERVER_TIMEOUT, 4, NULL)];
    var s3 := Next(s2, a2);
    assert HidesServer(s3);
    assert Run(s2, [a2]) == s3 && RunAllowed(s2, [a2]);
    assert [a1, a2][1..] == [a2];
    assert Run(s1, [a1, a2]) == s3 && RunAllowed(s1, [a1, a2]);
    assert [a0, a1, a2][1..] == [a1, a2];
    assert Run(Init(0), [a0, a1, a2]) == s3 && RunAllowed(Init(0), [a0, a1, a2]);
  }

  /** A server is open, but the status is 0 and stopping does nothing. */
  predicate HidesServer(s: App) {
    s.servers != {} && s.server == 0 && ServerStop(s) == s
  }
}
