// The relay server's session protocol (strelaysrv) as a transition system. Every goroutine step
// that takes a lock, touches a channel or changes shared state is one event, so a run is an
// arbitrary interleaving of handlers, session servers and proxies.
module Relay {
  import opened Common
  import opened SliceUtil

  type Device = nat
  type Key = nat
  type Conn = nat
  type SessionId = nat
  type HandlerId = nat

  // Where a session's Serve is.
  datatype Phase =
    | Created            // not at its select
    | Waiting            // blocked in the select
    | Holding(conn: Conn)// received a connection, not yet appended
    | Full               // two connections, channel still open
    | Joined             // channel closed, proxies started, not yet in activeSessions
    | Active             // in activeSessions, waiting for the proxies
    | Done               // at the done label
    | Cleaned            // keys and activeSessions entry removed
    | Returned           // connections closed, Serve has returned

  datatype Session = Session(serverkey: Key, clientkey: Key, serverid: Device, clientid: Device,
                             phase: Phase, conns: seq<Conn>, chanClosed: bool)
  {
    predicate HasKey(k: Key) { k == serverkey || k == clientkey }
    predicate HasParticipant(id: Device) { clientid == id || serverid == id }
  }

  // A connection that redeemed a key, and what became of its AddConnection.
  datatype Status = Redeemed | Accepted | Rejected
  datatype Ticket = Ticket(sid: SessionId, key: Key, status: Status)

  datatype Proxy = Proxy(sid: SessionId, forward: bool)

  datatype Handler = Handler(id: Device, live: bool, checked: bool, joined: bool)

  datatype State = State(
    sessions: map<SessionId, Session>,
    pendingSessions: map<Key, SessionId>,
    activeSessions: seq<SessionId>,
    tickets: map<Conn, Ticket>,
    closed: set<Conn>,
    running: set<Proxy>,
    finished: set<Proxy>,
    numProxies: int,
    handlers: map<HandlerId, Handler>,
    outboxes: map<Device, HandlerId>,
    panicked: bool)

  const INITIAL := State(map[], map[], [], map[], {}, {}, {}, 0, map[], map[], false)

  datatype Event =
    | NewSession(sid: SessionId, serverkey: Key, clientkey: Key, serverid: Device, clientid: Device)
    | Redeem(conn: Conn, key: Key)
    | Offer(conn: Conn)
    | Select(sid: SessionId)
    | Append(sid: SessionId)
    | CloseChan(sid: SessionId)
    | StartProxy(sid: SessionId, forward: bool)
    | Activate(sid: SessionId)
    | EndProxy(sid: SessionId, forward: bool)
    | ProxiesDone(sid: SessionId)
    | Timeout(sid: SessionId)
    | CleanUp(sid: SessionId)
    | CloseConns(sid: SessionId)
    | Accept(hid: HandlerId, id: Device)
    | JoinCheck(hid: HandlerId)
    | JoinSet(hid: HandlerId)
    | Exit(hid: HandlerId)
    | DropSessions(id: Device)

  // ---------- steps ----------

  predicate At(s: State, sid: SessionId, phase: Phase) {
    sid in s.sessions && s.sessions[sid].phase == phase
  }

  function Move(s: State, sid: SessionId, phase: Phase): State
    requires sid in s.sessions
  {
    s.(sessions := s.sessions[sid := s.sessions[sid].(phase := phase)])
  }

  // AddConnection's select: a send succeeds only while Serve is waiting, the default branch closes
  // the connection, and a send on a closed channel panics.
  function OfferStep(s: State, conn: Conn): State
    requires conn in s.tickets && s.tickets[conn].sid in s.sessions
  {
    var sid := s.tickets[conn].sid;
    var session := s.sessions[sid];
    if session.chanClosed then s.(panicked := true)
    else if session.phase == Waiting then
      Move(s, sid, Holding(conn)).(tickets := s.tickets[conn := s.tickets[conn].(status := Accepted)])
    else
      s.(tickets := s.tickets[conn := s.tickets[conn].(status := Rejected)], closed := s.closed + {conn})
  }

  // CloseConns of every active session that involves id.
  function DropStep(s: State, id: Device): State {
    s.(closed := s.closed + ConnsOf(s.sessions, s.activeSessions, id))
  }

  function ConnsOf(sessions: map<SessionId, Session>, ids: seq<SessionId>, id: Device): set<Conn> {
    set sid, c | sid in ids && sid in sessions && sessions[sid].HasParticipant(id) && c in sessions[sid].conns :: c
  }

  // The state after e, or None when e cannot happen in s.
  function Step(s: State, e: Event): Option<State> {
    match e
    case NewSession(sid, serverkey, clientkey, serverid, clientid) =>
      if sid in s.sessions then None
      else Some(s.(
        sessions := s.sessions[sid := Session(serverkey, clientkey, serverid, clientid, Created, [], false)],
        pendingSessions := s.pendingSessions[serverkey := sid][clientkey := sid]))
    case Redeem(conn, key) =>
      if conn in s.tickets || conn in s.closed then None
      else if key !in s.pendingSessions then Some(s.(closed := s.closed + {conn}))
      else Some(s.(tickets := s.tickets[conn := Ticket(s.pendingSessions[key], key, Redeemed)],
                   pendingSessions := s.pendingSessions - {key}))
    case Offer(conn) =>
      if conn in s.tickets && s.tickets[conn].status == Redeemed && s.tickets[conn].sid in s.sessions
      then Some(OfferStep(s, conn)) else None
    case Select(sid) =>
      if At(s, sid, Created) then Some(Move(s, sid, Waiting)) else None
    case Append(sid) =>
      if sid in s.sessions && s.sessions[sid].phase.Holding? then
        var session := s.sessions[sid];
        var conns := session.conns + [session.phase.conn];
        var phase := if |conns| < 2 then Created else Full;
        Some(s.(sessions := s.sessions[sid := session.(conns := conns, phase := phase)]))
      else None
    case CloseChan(sid) =>
      if !At(s, sid, Full) then None
      else if s.sessions[sid].chanClosed then Some(s.(panicked := true))
      else Some(s.(sessions := s.sessions[sid := s.sessions[sid].(chanClosed := true, phase := Joined)]))
    case StartProxy(sid, forward) =>
      if (At(s, sid, Joined) || At(s, sid, Active)) && Proxy(sid, forward) !in s.running + s.finished then
        Some(s.(running := s.running + {Proxy(sid, forward)}, numProxies := s.numProxies + 1))
      else None
    case Activate(sid) =>
      if At(s, sid, Joined) then Some(Move(s, sid, Active).(activeSessions := s.activeSessions + [sid])) else None
    case EndProxy(sid, forward) =>
      if Proxy(sid, forward) in s.running then
        Some(s.(running := s.running - {Proxy(sid, forward)}, finished := s.finished + {Proxy(sid, forward)},
                numProxies := s.numProxies - 1))
      else None
    case ProxiesDone(sid) =>
      if At(s, sid, Active) && {Proxy(sid, true), Proxy(sid, false)} <= s.finished then Some(Move(s, sid, Done))
      else None
    case Timeout(sid) =>
      if At(s, sid, Waiting) then Some(Move(s, sid, Done)) else None
    case CleanUp(sid) =>
      if At(s, sid, Done) then
        Some(Move(s, sid, Cleaned).(
          pendingSessions := s.pendingSessions - {s.sessions[sid].serverkey, s.sessions[sid].clientkey},
          activeSessions := SwapRemove(s.activeSessions, sid)))
      else None
    case CloseConns(sid) =>
      if At(s, sid, Cleaned) then
        Some(Move(s, sid, Returned).(closed := s.closed + set c | c in s.sessions[sid].conns))
      else None
    case Accept(hid, id) =>
      if hid in s.handlers then None
      else Some(s.(handlers := s.handlers[hid := Handler(id, true, false, false)]))
    case JoinCheck(hid) =>
      if hid in s.handlers && s.handlers[hid].live && s.handlers[hid].id !in s.outboxes then
        Some(s.(handlers := s.handlers[hid := s.handlers[hid].(checked := true)]))
      else None
    case JoinSet(hid) =>
      if hid in s.handlers && s.handlers[hid].live && s.handlers[hid].checked then
        Some(s.(handlers := s.handlers[hid := s.handlers[hid].(checked := false, joined := true)],
                outboxes := s.outboxes[s.handlers[hid].id := hid]))
      else None
    case Exit(hid) =>
      if hid in s.handlers && s.handlers[hid].live && !s.handlers[hid].checked then
        var h := s.handlers[hid];
        Some(s.(handlers := s.handlers[hid := h.(live := false)],
                outboxes := if h.joined then s.outboxes - {h.id} else s.outboxes))
      else None
    case DropSessions(id) => Some(DropStep(s, id))
  }

  // ---------- invariant ----------

  predicate PendingOk(s: State) {
    forall k :: k in s.pendingSessions ==>
      var sid := s.pendingSessions[k];
      && sid in s.sessions && s.sessions[sid].HasKey(k)
      && s.sessions[sid].phase != Cleaned && s.sessions[sid].phase != Returned
      && (forall c :: c in s.tickets && s.tickets[c].sid == sid ==> s.tickets[c].key != k)
  }

  // A rejected connection is closed; an accepted one is in the hands of its session.
  predicate Settled(s: State, c: Conn)
    requires c in s.tickets && s.tickets[c].sid in s.sessions
  {
    && (s.tickets[c].status == Rejected ==> c in s.closed)
    && (s.tickets[c].status == Accepted ==>
          c in s.sessions[s.tickets[c].sid].conns || s.sessions[s.tickets[c].sid].phase == Holding(c))
  }

  predicate TicketsOk(s: State) {
    && (forall c :: c in s.tickets ==>
          var t := s.tickets[c];
          && t.sid in s.sessions && s.sessions[t.sid].HasKey(t.key)
          && Settled(s, c))
    && (forall c, d :: c in s.tickets && d in s.tickets && c != d && s.tickets[c].sid == s.tickets[d].sid
          ==> s.tickets[c].key != s.tickets[d].key)
  }

  predicate AcceptedBy(s: State, sid: SessionId, c: Conn) {
    c in s.tickets && s.tickets[c].sid == sid && s.tickets[c].status == Accepted
  }

  predicate SessionOk(s: State, sid: SessionId)
    requires sid in s.sessions
  {
    var session := s.sessions[sid];
    var n := |session.conns|;
    && (forall c :: c in session.conns ==> AcceptedBy(s, sid, c))
    && n <= 2 && (n == 2 ==> session.conns[0] != session.conns[1])
    && (match session.phase
        case Created => n < 2 && !session.chanClosed
        case Waiting => n < 2 && !session.chanClosed
        case Holding(c) => n < 2 && !session.chanClosed && AcceptedBy(s, sid, c) && c !in session.conns
        case Full => n == 2 && !session.chanClosed
        case Joined => n == 2 && session.chanClosed
        case Active => n == 2 && session.chanClosed
        case _ => session.chanClosed <==> n == 2)
    && (session.phase == Returned ==> forall c :: c in session.conns ==> c in s.closed)
  }

  predicate SessionsOk(s: State) {
    forall sid :: sid in s.sessions ==> SessionOk(s, sid)
  }

  predicate InActive(s: State, sid: SessionId) {
    sid in s.sessions &&
    (s.sessions[sid].phase == Active || (s.sessions[sid].phase == Done && s.sessions[sid].chanClosed))
  }

  ghost predicate ActiveOk(s: State) {
    && NoDuplicates(s.activeSessions)
    && (forall sid :: sid in s.activeSessions <==> InActive(s, sid))
  }

  predicate ProxiesOk(s: State) {
    && s.numProxies == |s.running| && s.running !! s.finished
    && (forall p :: p in s.running ==> At(s, p.sid, Joined) || At(s, p.sid, Active))
  }

  predicate OutboxesOk(s: State) {
    forall id :: id in s.outboxes ==>
      var hid := s.outboxes[id];
      hid in s.handlers && s.handlers[hid].live && s.handlers[hid].joined && s.handlers[hid].id == id
  }

  ghost predicate Inv(s: State) {
    PendingOk(s) && TicketsOk(s) && SessionsOk(s) && ActiveOk(s) && ProxiesOk(s) && OutboxesOk(s) && !s.panicked
  }

  // ---------- preservation ----------

  // What each part of the invariant depends on.

  predicate SameKeys(s: State, s': State) {
    forall sid :: sid in s.sessions ==>
      && sid in s'.sessions
      && s'.sessions[sid].serverkey == s.sessions[sid].serverkey
      && s'.sessions[sid].clientkey == s.sessions[sid].clientkey
  }

  predicate Gone(s: State, sid: SessionId)
    requires sid in s.sessions
  {
    s.sessions[sid].phase == Cleaned || s.sessions[sid].phase == Returned
  }

  lemma PendingFrame(s: State, s': State)
    requires PendingOk(s) && SameKeys(s, s')
    requires forall k :: k in s'.pendingSessions ==>
               k in s.pendingSessions && s'.pendingSessions[k] == s.pendingSessions[k]
    requires forall k :: k in s'.pendingSessions ==> !Gone(s', s'.pendingSessions[k])
    requires forall c :: c in s'.tickets ==>
               c in s.tickets && s'.tickets[c].sid == s.tickets[c].sid && s'.tickets[c].key == s.tickets[c].key
    ensures PendingOk(s')
  {
  }

  lemma TicketsFrame(s: State, s': State)
    requires TicketsOk(s) && SameKeys(s, s') && s'.tickets.Keys == s.tickets.Keys
    requires forall c :: c in s.tickets ==>
               s'.tickets[c].sid == s.tickets[c].sid && s'.tickets[c].key == s.tickets[c].key
    requires forall c :: c in s'.tickets && s'.tickets[c].sid in s'.sessions ==> Settled(s', c)
    ensures TicketsOk(s')
  {
  }

  // Every session but sid is untouched, and what it accepted stays accepted.
  predicate OthersKept(s: State, s': State, sid: SessionId) {
    && s'.sessions.Keys <= s.sessions.Keys + {sid}
    && (forall x :: x in s.sessions && x != sid ==> x in s'.sessions && s'.sessions[x] == s.sessions[x])
    && (forall c :: c in s.tickets && s.tickets[c].status == Accepted ==>
          c in s'.tickets && s'.tickets[c] == s.tickets[c])
    && s.closed <= s'.closed
  }

  lemma SessionsFrame(s: State, s': State, sid: SessionId)
    requires SessionsOk(s) && OthersKept(s, s', sid)
    requires sid in s'.sessions ==> SessionOk(s', sid)
    ensures SessionsOk(s')
  {
    forall x | x in s'.sessions ensures SessionOk(s', x) {
      if x != sid {
        assert SessionOk(s, x);
        assert forall c :: AcceptedBy(s, x, c) ==> AcceptedBy(s', x, c);
      }
    }
  }

  lemma ActiveFrame(s: State, s': State)
    requires ActiveOk(s) && s'.activeSessions == s.activeSessions
    requires forall sid :: InActive(s, sid) <==> InActive(s', sid)
    ensures ActiveOk(s')
  {
  }

  lemma ProxiesFrame(s: State, s': State)
    requires ProxiesOk(s) && s'.running == s.running && s'.finished == s.finished && s'.numProxies == s.numProxies
    requires forall p :: p in s.running ==> At(s', p.sid, Joined) || At(s', p.sid, Active)
    ensures ProxiesOk(s')
  {
  }

  // A step that changes session sid and nothing of any other session: its phase, connections or
  // channel, the status of its tickets, and possibly fewer pending keys or more closed connections.
  ghost predicate OneSession(s: State, s': State, sid: SessionId) {
    && sid in s.sessions && sid in s'.sessions && s'.sessions == s.sessions[sid := s'.sessions[sid]]
    && s'.sessions[sid].serverkey == s.sessions[sid].serverkey
    && s'.sessions[sid].clientkey == s.sessions[sid].clientkey
    && s'.pendingSessions.Items <= s.pendingSessions.Items
    && s'.tickets.Keys == s.tickets.Keys
    && (forall c :: c in s.tickets ==> s'.tickets[c].sid == s.tickets[c].sid && s'.tickets[c].key == s.tickets[c].key)
    && (forall c :: c in s.tickets && (s.tickets[c].sid != sid || s.tickets[c].status == Accepted) ==>
          s'.tickets[c] == s.tickets[c])
    && s.closed <= s'.closed
    && s'.running == s.running && s'.finished == s.finished && s'.numProxies == s.numProxies
  }

  lemma SessionStep(s: State, s': State, sid: SessionId)
    requires Inv(s) && OneSession(s, s', sid)
    requires SessionOk(s', sid)
    requires Gone(s', sid) ==> forall k :: k in s'.pendingSessions ==> s'.pendingSessions[k] != sid
    requires forall c :: c in s.tickets && s.tickets[c].sid == sid ==> Settled(s', c)
    requires At(s', sid, Joined) || At(s', sid, Active) || (!At(s, sid, Joined) && !At(s, sid, Active)) ||
             (Proxy(sid, true) !in s.running && Proxy(sid, false) !in s.running)
    ensures PendingOk(s') && TicketsOk(s') && SessionsOk(s') && ProxiesOk(s')
  {
    SessionStepKeys(s, s', sid);
    SessionStepProxies(s, s', sid);
    hide SessionOk, ActiveOk, ProxiesOk, PendingOk, TicketsOk, OutboxesOk;
    SessionsFrame(s, s', sid);
  }

  lemma SessionStepKeys(s: State, s': State, sid: SessionId)
    requires PendingOk(s) && TicketsOk(s) && OneSession(s, s', sid)
    requires Gone(s', sid) ==> forall k :: k in s'.pendingSessions ==> s'.pendingSessions[k] != sid
    requires forall c :: c in s.tickets && s.tickets[c].sid == sid ==> Settled(s', c)
    ensures PendingOk(s') && TicketsOk(s')
  {
    forall k | k in s'.pendingSessions ensures k in s.pendingSessions && s'.pendingSessions[k] == s.pendingSessions[k] {
      assert (k, s'.pendingSessions[k]) in s'.pendingSessions.Items;
    }
    PendingFrame(s, s');
    TicketsFrame(s, s');
  }

  lemma SessionStepProxies(s: State, s': State, sid: SessionId)
    requires ProxiesOk(s) && OneSession(s, s', sid)
    requires At(s', sid, Joined) || At(s', sid, Active) || (!At(s, sid, Joined) && !At(s, sid, Active)) ||
             (Proxy(sid, true) !in s.running && Proxy(sid, false) !in s.running)
    ensures ProxiesOk(s')
  {
    forall p | p in s.running ensures At(s', p.sid, Joined) || At(s', p.sid, Active) {
      assert p == Proxy(p.sid, true) || p == Proxy(p.sid, false);
      assert At(s, p.sid, Joined) || At(s, p.sid, Active);
    }
    ProxiesFrame(s, s');
  }

  lemma ActiveUnchanged(s: State, s': State, sid: SessionId)
    requires ActiveOk(s) && s'.activeSessions == s.activeSessions
    requires s'.sessions.Keys == s.sessions.Keys
    requires forall x :: x in s.sessions && x != sid ==> s'.sessions[x] == s.sessions[x]
    requires InActive(s, sid) <==> InActive(s', sid)
    ensures ActiveOk(s')
  {
    forall x ensures InActive(s, x) <==> InActive(s', x) {
      SameSessionSameActive(s, s', x, sid);
    }
    ActiveFrame(s, s');
  }

  lemma SameSessionSameActive(s: State, s': State, x: SessionId, sid: SessionId)
    requires x != sid ==>
               (x in s.sessions <==> x in s'.sessions) && (x in s.sessions ==> s.sessions[x] == s'.sessions[x])
    requires InActive(s, sid) <==> InActive(s', sid)
    ensures InActive(s, x) <==> InActive(s', x)
  {
  }

  lemma NoThirdTicket(s: State, sid: SessionId, a: Conn, b: Conn, c: Conn)
    requires TicketsOk(s) && a in s.tickets && b in s.tickets && c in s.tickets
    requires s.tickets[a].sid == s.tickets[b].sid == s.tickets[c].sid == sid
    ensures a == b || b == c || a == c
  {
  }

  // No session is touched, and what was accepted stays accepted.
  lemma SessionsKept(s: State, s': State)
    requires SessionsOk(s) && s'.sessions == s.sessions && s.closed <= s'.closed
    requires forall c :: c in s.tickets && s.tickets[c].status == Accepted ==>
               c in s'.tickets && s'.tickets[c] == s.tickets[c]
    ensures SessionsOk(s')
  {
    forall sid | sid in s'.sessions ensures SessionOk(s', sid) {
      assert SessionOk(s, sid);
      assert forall c :: AcceptedBy(s, sid, c) ==> AcceptedBy(s', sid, c);
    }
  }

  lemma NewSessionKeepsInv(s: State, e: Event, s': State)
    requires Inv(s) && e.NewSession? && Step(s, e) == Some(s')
    ensures Inv(s')
  {
    NewSessionStep(s, e, s');
    hide Step, PendingOk, TicketsOk, SessionOk, NoDuplicates, InActive;
    SessionRegistered(s, e, s');
    SessionsFrame(s, s', e.sid);
    forall x ensures InActive(s, x) <==> InActive(s', x) {
      NewIsNotActive(s, s', e.sid);
      SameSessionSameActive(s, s', x, e.sid);
    }
    ActiveFrame(s, s');
    forall p | p in s.running ensures At(s', p.sid, Joined) || At(s', p.sid, Active) {
      assert At(s, p.sid, Joined) || At(s, p.sid, Active);
    }
    ProxiesFrame(s, s');
  }

  lemma NewSessionStep(s: State, e: Event, s': State)
    requires e.NewSession? && Step(s, e) == Some(s')
    ensures e.sid !in s.sessions
    ensures s' == s.(
      sessions := s.sessions[e.sid := Session(e.serverkey, e.clientkey, e.serverid, e.clientid, Created, [], false)],
      pendingSessions := s.pendingSessions[e.serverkey := e.sid][e.clientkey := e.sid])
  {
  }

  lemma NewIsNotActive(s: State, s': State, sid: SessionId)
    requires sid !in s.sessions && At(s', sid, Created)
    ensures !InActive(s, sid) && !InActive(s', sid)
  {
  }

  lemma SessionRegistered(s: State, e: Event, s': State)
    requires PendingOk(s) && TicketsOk(s) && e.NewSession? && Step(s, e) == Some(s')
    ensures PendingOk(s') && TicketsOk(s') && SessionOk(s', e.sid)
  {
    NewSessionStep(s, e, s');
    hide Step;
    TicketsFrame(s, s');
    hide TicketsOk;
    assert forall c :: c in s.tickets ==> s.tickets[c].sid != e.sid by { TicketsKnown(s); }
  }

  lemma TicketsKnown(s: State)
    requires TicketsOk(s)
    ensures forall c :: c in s.tickets ==> s.tickets[c].sid in s.sessions
  {
  }

  lemma RedeemKeepsInv(s: State, e: Event, s': State)
    requires Inv(s) && e.Redeem? && Step(s, e) == Some(s')
    ensures Inv(s')
  {
    RedeemStep(s, e, s');
    hide Step, SessionOk, SessionsOk, ActiveOk, ProxiesOk, PendingOk, TicketsOk;
    if e.key in s.pendingSessions {
      TicketIssued(s, e, s');
    } else {
      NothingRedeemed(s, s');
    }
    SessionsKept(s, s');
    ActiveSame(s, s');
    ProxiesSame(s, s');
  }

  lemma RedeemStep(s: State, e: Event, s': State)
    requires e.Redeem? && Step(s, e) == Some(s')
    ensures s' == s.(pendingSessions := s'.pendingSessions, tickets := s'.tickets, closed := s'.closed)
    ensures s.closed <= s'.closed && forall c :: c in s.tickets ==> c in s'.tickets && s'.tickets[c] == s.tickets[c]
    ensures e.key !in s.pendingSessions ==> s'.pendingSessions == s.pendingSessions && s'.tickets == s.tickets
  {
  }

  lemma NothingRedeemed(s: State, s': State)
    requires PendingOk(s) && TicketsOk(s) && s.closed <= s'.closed
    requires s'.sessions == s.sessions && s'.pendingSessions == s.pendingSessions && s'.tickets == s.tickets
    ensures PendingOk(s') && TicketsOk(s')
  {
    PendingFrame(s, s');
    TicketsFrame(s, s');
  }

  lemma TicketIssued(s: State, e: Event, s': State)
    requires PendingOk(s) && TicketsOk(s) && e.Redeem? && e.key in s.pendingSessions && Step(s, e) == Some(s')
    ensures PendingOk(s') && TicketsOk(s')
  {
  }

  lemma ActiveSame(s: State, s': State)
    requires ActiveOk(s) && s'.sessions == s.sessions && s'.activeSessions == s.activeSessions
    ensures ActiveOk(s')
  {
    forall sid ensures InActive(s, sid) <==> InActive(s', sid) {
    }
    ActiveFrame(s, s');
  }

  lemma ProxiesSame(s: State, s': State)
    requires ProxiesOk(s) && s'.sessions == s.sessions
    requires s'.running == s.running && s'.finished == s.finished && s'.numProxies == s.numProxies
    ensures ProxiesOk(s')
  {
    ProxiesFrame(s, s');
  }

  lemma OfferKeepsInv(s: State, e: Event, s': State)
    requires Inv(s) && e.Offer? && Step(s, e) == Some(s')
    ensures Inv(s')
  {
    var conn := e.conn;
    var sid := s.tickets[conn].sid;
    var session := s.sessions[sid];
    assert s' == OfferStep(s, conn) && s.tickets[conn].status == Redeemed;
    hide Step, PendingOk;
    assert SessionOk(s, sid);
    if session.chanClosed {
      // both accepted connections hold the session's two keys, so there is no third ticket
      assert AcceptedBy(s, sid, session.conns[0]) && AcceptedBy(s, sid, session.conns[1]);
      NoThirdTicket(s, sid, conn, session.conns[0], session.conns[1]);
    } else if session.phase == Waiting {
      OfferAccepted(s, conn, s');
    } else {
      OfferRejected(s, conn, s');
    }
  }

  lemma OfferRejected(s: State, conn: Conn, s': State)
    requires Inv(s) && conn in s.tickets && s.tickets[conn].status == Redeemed
    requires s' == s.(tickets := s.tickets[conn := s.tickets[conn].(status := Rejected)], closed := s.closed + {conn})
    ensures Inv(s')
  {
    hide SessionOk, ActiveOk, ProxiesOk;
    PendingFrame(s, s');
    TicketsFrame(s, s');
    SessionsKept(s, s');
    ActiveSame(s, s');
    ProxiesSame(s, s');
  }

  lemma OfferAccepted(s: State, conn: Conn, s': State)
    requires Inv(s) && conn in s.tickets && s.tickets[conn].status == Redeemed
    requires At(s, s.tickets[conn].sid, Waiting) && !s.sessions[s.tickets[conn].sid].chanClosed
    requires s' == OfferStep(s, conn)
    ensures Inv(s')
  {
    var sid := s.tickets[conn].sid;
    HoldingIsOk(s, conn, s');
    OfferIsOneSession(s, conn, s');
    ActiveUnchanged(s, s', sid);
    hide OfferStep, OneSession, SessionOk, ActiveOk, InActive, PendingOk, ProxiesOk, TicketsOk, SessionsOk;
    SessionStep(s, s', sid);
  }

  lemma OfferIsOneSession(s: State, conn: Conn, s': State)
    requires TicketsOk(s) && conn in s.tickets && s.tickets[conn].status == Redeemed
    requires At(s, s.tickets[conn].sid, Waiting) && !s.sessions[s.tickets[conn].sid].chanClosed
    requires s' == OfferStep(s, conn)
    ensures OneSession(s, s', s.tickets[conn].sid)
    ensures s'.sessions.Keys == s.sessions.Keys && !Gone(s', s.tickets[conn].sid)
    ensures forall c :: c in s.tickets && s.tickets[c].sid == s.tickets[conn].sid ==> Settled(s', c)
  {
  }

  lemma HoldingIsOk(s: State, conn: Conn, s': State)
    requires SessionsOk(s) && conn in s.tickets && s.tickets[conn].status == Redeemed
    requires At(s, s.tickets[conn].sid, Waiting) && !s.sessions[s.tickets[conn].sid].chanClosed
    requires s' == OfferStep(s, conn)
    ensures SessionOk(s', s.tickets[conn].sid)
  {
    var sid := s.tickets[conn].sid;
    assert SessionOk(s, sid);
    assert forall c :: AcceptedBy(s, sid, c) ==> AcceptedBy(s', sid, c);
    assert AcceptedBy(s', sid, conn) && !AcceptedBy(s, sid, conn);
  }

  lemma ServeStepIsOk(s: State, e: Event, s': State)
    requires SessionsOk(s) && Step(s, e) == Some(s')
    requires e.Select? || e.Append? || e.CloseChan? || e.Timeout? || e.CloseConns?
    ensures e.sid in s'.sessions && SessionOk(s', e.sid)
    ensures InActive(s, e.sid) <==> InActive(s', e.sid)
  {
    assert SessionOk(s, e.sid);
    assert forall c :: AcceptedBy(s, e.sid, c) ==> AcceptedBy(s', e.sid, c);
  }

  // A step of Serve concerns nothing but its session, and takes no connection from it.
  ghost predicate IsLocal(s: State, s': State, sid: SessionId) {
    && OneSession(s, s', sid) && !At(s, sid, Joined) && !At(s, sid, Active)
    && s' == s.(sessions := s'.sessions, closed := s'.closed, panicked := s'.panicked)
    && (Gone(s', sid) ==> Gone(s, sid))
    && (forall c :: c in s.sessions[sid].conns || s.sessions[sid].phase == Holding(c) ==>
          c in s'.sessions[sid].conns || s'.sessions[sid].phase == Holding(c))
  }

  lemma ServeStepIsLocal(s: State, e: Event, s': State)
    requires Step(s, e) == Some(s')
    requires e.Select? || e.Append? || e.CloseChan? || e.Timeout? || e.CloseConns?
    ensures IsLocal(s, s', e.sid)
  {
    hide Step, IsLocal;
    match e
    case Select(_) => SelectIsLocal(s, e, s');
    case Timeout(_) => SelectIsLocal(s, e, s');
    case Append(_) => AppendIsLocal(s, e, s');
    case CloseChan(_) => CloseChanIsLocal(s, e, s');
    case CloseConns(_) => CloseConnsIsLocal(s, e, s');
  }

  lemma SelectIsLocal(s: State, e: Event, s': State)
    requires (e.Select? || e.Timeout?) && Step(s, e) == Some(s')
    ensures IsLocal(s, s', e.sid)
  {
  }

  lemma AppendIsLocal(s: State, e: Event, s': State)
    requires e.Append? && Step(s, e) == Some(s')
    ensures IsLocal(s, s', e.sid)
  {
  }

  lemma CloseChanIsLocal(s: State, e: Event, s': State)
    requires e.CloseChan? && Step(s, e) == Some(s')
    ensures IsLocal(s, s', e.sid)
  {
  }

  lemma CloseConnsIsLocal(s: State, e: Event, s': State)
    requires e.CloseConns? && Step(s, e) == Some(s')
    ensures IsLocal(s, s', e.sid)
  {
  }

  // Serve closes its channel once.
  lemma ServeDoesNotPanic(s: State, e: Event, s': State)
    requires SessionsOk(s) && !s.panicked && Step(s, e) == Some(s')
    requires e.Select? || e.Append? || e.CloseChan? || e.Timeout? || e.CloseConns?
    ensures !s'.panicked
  {
    assert SessionOk(s, e.sid);
  }

  lemma ServeStepKeepsInv(s: State, e: Event, s': State)
    requires Inv(s) && Step(s, e) == Some(s')
    requires e.Select? || e.Append? || e.CloseChan? || e.Timeout? || e.CloseConns?
    ensures Inv(s')
  {
    hide Step, PendingOk, ActiveOk, ProxiesOk, SessionOk, InActive;
    ServeStepIsOk(s, e, s');
    ServeStepIsLocal(s, e, s');
    ServeDoesNotPanic(s, e, s');
    if Gone(s, e.sid) {
      GoneIsNotPending(s, e.sid);
    }
    SessionStep(s, s', e.sid);
    ActiveUnchanged(s, s', e.sid);
  }

  lemma GoneIsNotPending(s: State, sid: SessionId)
    requires PendingOk(s) && sid in s.sessions && Gone(s, sid)
    ensures forall k :: k in s.pendingSessions ==> s.pendingSessions[k] != sid
  {
  }

  lemma ProxiesDoneKeepsInv(s: State, e: Event, s': State)
    requires Inv(s) && e.ProxiesDone? && Step(s, e) == Some(s')
    ensures Inv(s')
  {
    assert At(s, e.sid, Active) && s' == Move(s, e.sid, Done);
    assert Proxy(e.sid, true) in s.finished && Proxy(e.sid, false) in s.finished;
    hide Step;
    MoveIsOk(s, e.sid, Done, s');
    ActiveUnchanged(s, s', e.sid) by { assert SessionOk(s, e.sid); }
    hide SessionOk, ActiveOk, InActive, PendingOk;
    SessionStep(s, s', e.sid);
  }

  lemma ActivateKeepsInv(s: State, e: Event, s': State)
    requires Inv(s) && e.Activate? && Step(s, e) == Some(s')
    ensures Inv(s')
  {
    hide Step;
    ActivateStep(s, e, s');
    MoveIsOk(s, e.sid, Active, s');
    assert !InActive(s, e.sid) && InActive(s', e.sid);
    ActiveAfter(s, s', e.sid);
    hide SessionOk, ActiveOk, InActive, PendingOk, ProxiesOk, NoDuplicates;
    SessionStep(s, s', e.sid);
  }

  lemma ActivateStep(s: State, e: Event, s': State)
    requires e.Activate? && Step(s, e) == Some(s')
    ensures At(s, e.sid, Joined)
    ensures s' == Move(s, e.sid, Active).(activeSessions := s.activeSessions + [e.sid])
  {
  }

  lemma MoveIsOk(s: State, sid: SessionId, phase: Phase, s': State)
    requires SessionsOk(s) && sid in s.sessions
    requires (At(s, sid, Joined) && phase == Active) || (At(s, sid, Active) && phase == Done)
          || (At(s, sid, Done) && phase == Cleaned)
    requires s'.sessions == Move(s, sid, phase).sessions && s'.tickets == s.tickets && s'.closed == s.closed
    ensures SessionOk(s', sid)
  {
    assert SessionOk(s, sid);
    assert forall c :: AcceptedBy(s, sid, c) ==> AcceptedBy(s', sid, c);
  }

  // activeSessions changes by exactly the session whose membership changes.
  lemma ActiveAfter(s: State, s': State, sid: SessionId)
    requires ActiveOk(s) && s'.sessions.Keys == s.sessions.Keys && NoDuplicates(s'.activeSessions)
    requires forall x :: x in s.sessions && x != sid ==> s'.sessions[x] == s.sessions[x]
    requires forall x :: x != sid ==> (x in s'.activeSessions <==> x in s.activeSessions)
    requires sid in s'.activeSessions <==> InActive(s', sid)
    ensures ActiveOk(s')
  {
    forall x ensures x in s'.activeSessions <==> InActive(s', x) {
      assert x != sid ==> (InActive(s, x) <==> InActive(s', x));
    }
  }

  lemma ProxyKeepsInv(s: State, e: Event, s': State)
    requires Inv(s) && (e.StartProxy? || e.EndProxy?) && Step(s, e) == Some(s')
    ensures Inv(s')
  {
    hide Step, SessionOk, ProxiesOk, ActiveOk;
    ProxiesCounted(s, e, s');
    PendingFrame(s, s');
    TicketsFrame(s, s');
    SessionsKept(s, s');
    ActiveSame(s, s');
  }

  lemma ProxiesCounted(s: State, e: Event, s': State)
    requires ProxiesOk(s) && (e.StartProxy? || e.EndProxy?) && Step(s, e) == Some(s')
    ensures ProxiesOk(s') && s' == s.(running := s'.running, finished := s'.finished, numProxies := s'.numProxies)
  {
    hide ProxiesOk;
    if e.StartProxy? {
      ProxyStarted(s, e, s');
    } else {
      ProxyEnded(s, e, s');
    }
  }

  lemma ProxyStarted(s: State, e: Event, s': State)
    requires ProxiesOk(s) && e.StartProxy? && Step(s, e) == Some(s')
    ensures ProxiesOk(s') && s' == s.(running := s'.running, numProxies := s'.numProxies)
  {
    var p := Proxy(e.sid, e.forward);
    assert At(s, e.sid, Joined) || At(s, e.sid, Active);
    assert p !in s.running && p !in s.finished;
    assert s' == s.(running := s.running + {p}, numProxies := s.numProxies + 1);
    hide Step;
    Counted(s.running, s.finished, p);
  }

  lemma ProxyEnded(s: State, e: Event, s': State)
    requires ProxiesOk(s) && e.EndProxy? && Step(s, e) == Some(s')
    ensures ProxiesOk(s') && s' == s.(running := s'.running, finished := s'.finished, numProxies := s'.numProxies)
  {
    var p := Proxy(e.sid, e.forward);
    assert p in s.running;
    assert s' == s.(running := s.running - {p}, finished := s.finished + {p}, numProxies := s.numProxies - 1);
    hide Step;
    Counted(s.running, s.finished, p);
  }

  lemma Counted(running: set<Proxy>, finished: set<Proxy>, p: Proxy)
    requires running !! finished
    ensures p in running ==> |running - {p}| == |running| - 1 && running - {p} !! finished + {p}
    ensures p !in running + finished ==> |running + {p}| == |running| + 1 && running + {p} !! finished
  {
  }

  lemma CleanUpKeepsInv(s: State, e: Event, s': State)
    requires Inv(s) && e.CleanUp? && Step(s, e) == Some(s')
    ensures Inv(s')
  {
    hide Step;
    CleanUpStep(s, e, s');
    MoveIsOk(s, e.sid, Cleaned, s');
    ActiveWithout(s, s', e.sid);
    KeysDeleted(s, s', e.sid);
    hide NoDuplicates, TicketsOk, SessionOk, ActiveOk, InActive, PendingOk, ProxiesOk;
    SessionStep(s, s', e.sid);
  }

  lemma CleanUpStep(s: State, e: Event, s': State)
    requires e.CleanUp? && Step(s, e) == Some(s')
    ensures At(s, e.sid, Done)
    ensures s' == Move(s, e.sid, Cleaned).(
                    pendingSessions := s.pendingSessions - {s.sessions[e.sid].serverkey, s.sessions[e.sid].clientkey},
                    activeSessions := SwapRemove(s.activeSessions, e.sid))
  {
  }

  lemma ActiveWithout(s: State, s': State, sid: SessionId)
    requires ActiveOk(s) && s'.sessions.Keys == s.sessions.Keys && sid in s.sessions && !InActive(s', sid)
    requires forall x :: x in s.sessions && x != sid ==> s'.sessions[x] == s.sessions[x]
    requires s'.activeSessions == SwapRemove(s.activeSessions, sid)
    ensures ActiveOk(s')
  {
    hide InActive, SwapRemove;
    SwapRemoveElements(s.activeSessions, sid);
    forall x ensures x != sid ==> (InActive(s, x) <==> InActive(s', x)) {
      SameActive(s, s', x);
    }
  }

  lemma SameActive(s: State, s': State, x: SessionId)
    requires s'.sessions.Keys == s.sessions.Keys
    ensures (x in s.sessions ==> s'.sessions[x] == s.sessions[x]) ==> (InActive(s, x) <==> InActive(s', x))
  {
  }

  lemma KeysDeleted(s: State, s': State, sid: SessionId)
    requires PendingOk(s) && sid in s.sessions
    requires s'.pendingSessions == s.pendingSessions - {s.sessions[sid].serverkey, s.sessions[sid].clientkey}
    ensures s'.pendingSessions.Items <= s.pendingSessions.Items
    ensures forall k :: k in s'.pendingSessions ==> s'.pendingSessions[k] != sid
  {
  }

  lemma HandlerKeepsInv(s: State, e: Event, s': State)
    requires Inv(s) && (e.Accept? || e.JoinCheck? || e.JoinSet? || e.Exit? || e.DropSessions?) && Step(s, e) == Some(s')
    ensures Inv(s')
  {
    hide Step, SessionOk, ActiveOk, ProxiesOk, OutboxesOk;
    OutboxesKept(s, e, s');
    PendingFrame(s, s');
    TicketsFrame(s, s');
    SessionsKept(s, s');
    ActiveSame(s, s');
    ProxiesSame(s, s');
  }

  lemma OutboxesKept(s: State, e: Event, s': State)
    requires OutboxesOk(s) && Step(s, e) == Some(s')
    requires e.Accept? || e.JoinCheck? || e.JoinSet? || e.Exit? || e.DropSessions?
    ensures OutboxesOk(s') && s.closed <= s'.closed
    ensures s' == s.(handlers := s'.handlers, outboxes := s'.outboxes, closed := s'.closed)
  {
  }

  lemma StepKeepsInv(s: State, e: Event, s': State)
    requires Inv(s) && Step(s, e) == Some(s')
    ensures Inv(s')
  {
    hide Inv, Step;
    match e
    case NewSession(_, _, _, _, _) => NewSessionKeepsInv(s, e, s');
    case Redeem(_, _) => RedeemKeepsInv(s, e, s');
    case Offer(_) => OfferKeepsInv(s, e, s');
    case Select(_) => ServeStepKeepsInv(s, e, s');
    case Append(_) => ServeStepKeepsInv(s, e, s');
    case CloseChan(_) => ServeStepKeepsInv(s, e, s');
    case StartProxy(_, _) => ProxyKeepsInv(s, e, s');
    case Activate(_) => ActivateKeepsInv(s, e, s');
    case EndProxy(_, _) => ProxyKeepsInv(s, e, s');
    case ProxiesDone(_) => ProxiesDoneKeepsInv(s, e, s');
    case Timeout(_) => ServeStepKeepsInv(s, e, s');
    case CleanUp(_) => CleanUpKeepsInv(s, e, s');
    case CloseConns(_) => ServeStepKeepsInv(s, e, s');
    case Accept(_, _) => HandlerKeepsInv(s, e, s');
    case JoinCheck(_) => HandlerKeepsInv(s, e, s');
    case JoinSet(_) => HandlerKeepsInv(s, e, s');
    case Exit(_) => HandlerKeepsInv(s, e, s');
    case DropSessions(_) => HandlerKeepsInv(s, e, s');
  }

  // ---------- the range loop over a shrinking slice ----------

  function Pointers(ids: seq<SessionId>): seq<Option<SessionId>> {
    seq(|ids|, i requires 0 <= i < |ids| => Some(ids[i]))
  }

  // The loop at the end of Serve. It ranges over the slice as it was when the loop began, n long,
  // while its body shrinks the slice and clears the vacated slot; it does not stop at a match.
  method RemoveActive(backing: array<Option<SessionId>>, n: nat, sid: SessionId, ghost active: seq<SessionId>)
    returns (m: nat)
    requires n <= backing.Length && backing[..n] == Pointers(active) && NoDuplicates(active)
    modifies backing
    ensures m <= n && backing[..m] == Pointers(SwapRemove(active, sid))
    ensures forall i :: m <= i < n ==> backing[i] == None
    ensures backing[n..] == old(backing[n..])
  {
    m := n;
    ghost var found := -1;
    for i := 0 to n
      invariant backing[n..] == old(backing[n..])
      invariant found == -1 ==> m == n && backing[..n] == Pointers(active) && sid !in active[..i]
      invariant found != -1 ==> 0 <= found < n && active[found] == sid && sid !in active[..found]
      invariant found != -1 ==> m == n - 1 && backing[n - 1] == None
      invariant found != -1 ==> forall k :: 0 <= k < n - 1 ==>
                  backing[k] == Some(if k == found then active[n - 1] else active[k])
    {
      if backing[i] == Some(sid) {
        assert found == -1;
        var l := m - 1;
        backing[i] := backing[l];
        backing[l] := None;
        m := l;
        found := i;
      }
    }
    if found == -1 {
      assert active[..n] == active;
    } else {
      SwapRemoveAt(active, sid, found);
      assert |backing[..m]| == |Pointers(SwapRemove(active, sid))|;
      assert forall k :: 0 <= k < m ==> backing[..m][k] == Pointers(SwapRemove(active, sid))[k];
    }
  }

  function Registration(sid: SessionId, session: Session): Event {
    NewSession(sid, session.serverkey, session.clientkey, session.serverid, session.clientid)
  }

  // The global variables of session.go and the sections of code that hold sessionMut. Each performs
  // the step of the transition system it belongs to; the ghost argument is the state it starts in.
  class Registry {
    var pendingSessions: map<Key, SessionId>
    // activeSessions is the slice backing[:count].
    var backing: array<Option<SessionId>>
    var count: nat

    ghost predicate Shows(s: State)
      reads this, backing
    {
      && pendingSessions == s.pendingSessions
      && count <= backing.Length && backing[..count] == Pointers(s.activeSessions)
    }

    constructor ()
      ensures Shows(INITIAL) && fresh(backing)
    {
      pendingSessions, backing, count := map[], new Option<SessionId>[0], 0;
    }

    method NewSession(sid: SessionId, session: Session, ghost s: State)
      requires Shows(s) && sid !in s.sessions
      modifies this`pendingSessions
      ensures Step(s, Registration(sid, session)).Some? && Shows(Step(s, Registration(sid, session)).value)
    {
      pendingSessions := pendingSessions[session.serverkey := sid];
      pendingSessions := pendingSessions[session.clientkey := sid];
    }

    // The caller closes the connection when no session is found.
    method FindSession(key: Key, ghost s: State, ghost conn: Conn) returns (ses: Option<SessionId>)
      requires Shows(s) && conn !in s.tickets && conn !in s.closed
      modifies this`pendingSessions
      ensures Step(s, Redeem(conn, key)).Some? && Shows(Step(s, Redeem(conn, key)).value)
      ensures var s' := Step(s, Redeem(conn, key)).value;
        match ses
        case None => conn in s'.closed && conn !in s'.tickets
        case Some(sid) =>
          && conn in s'.tickets && s'.tickets[conn] == Ticket(sid, key, Redeemed)
          && key !in s'.pendingSessions
    {
      if key !in pendingSessions {
        return None;
      }
      ses := Some(pendingSessions[key]);
      pendingSessions := pendingSessions - {key};
    }

    // activeSessions = append(activeSessions, s)
    method AddActive(sid: SessionId, ghost s: State)
      requires Shows(s) && At(s, sid, Joined)
      modifies this`backing, this`count, backing
      ensures backing == old(backing) || fresh(backing)
      ensures Step(s, Activate(sid)).Some? && Shows(Step(s, Activate(sid)).value)
    {
      hide Step, Pointers, At;
      if count == backing.Length {
        var grown := new Option<SessionId>[2 * count + 1](_ => None);
        for i := 0 to count
          invariant grown[..i] == backing[..i]
          modifies grown
        {
          grown[i] := backing[i];
        }
        backing := grown;
      }
      backing[count] := Some(sid);
      count := count + 1;
      assert backing[..count] == Pointers(s.activeSessions) + [Some(sid)];
      Activated(s, sid);
    }

    // The locked section at the label done.
    method RemoveSession(sid: SessionId, session: Session, ghost s: State)
      requires Shows(s) && Inv(s) && At(s, sid, Done) && s.sessions[sid] == session
      modifies this`pendingSessions, this`count, backing
      ensures Step(s, CleanUp(sid)).Some? && Shows(Step(s, CleanUp(sid)).value)
    {
      hide Step, Inv, SwapRemove, Pointers, At, NoDuplicates;
      ActiveIsDistinct(s);
      ghost var s' := CleanedUp(s, sid, session);
      pendingSessions := pendingSessions - {session.serverkey};
      pendingSessions := pendingSessions - {session.clientkey};
      count := RemoveActive(backing, count, sid, s.activeSessions);
    }

    // The connections that dropSessions closes.
    method DropSessions(id: Device, sessions: map<SessionId, Session>, ghost s: State) returns (closed: set<Conn>)
      requires Shows(s) && Inv(s) && sessions == s.sessions
      ensures Step(s, Event.DropSessions(id)) == Some(s.(closed := s.closed + closed))
      ensures forall c :: c in closed <==> IsOfDevice(sessions, s.activeSessions, id, c)
    {
      hide IsOfDevice;
      ConnsAre(sessions, s.activeSessions, id);
      hide ConnsOf;
      closed := {};
      ghost var active := s.activeSessions;
      ConnsOfNone(sessions, id);
      for i := 0 to count
        invariant closed == ConnsOf(sessions, active[..i], id)
      {
        assert backing[i] == Pointers(active)[i] == Some(active[i]);
        var sid := backing[i].value;
        assert sid in active && InActive(s, sid);
        if sessions[sid].HasParticipant(id) {
          closed := closed + set c | c in sessions[sid].conns;
        }
        ConnsOfAppend(sessions, active[..i], sid, id);
        assert active[..i + 1] == active[..i] + [sid];
      }
      assert active[..count] == active;
    }
  }

  lemma Activated(s: State, sid: SessionId)
    requires At(s, sid, Joined)
    ensures Step(s, Activate(sid)).Some?
    ensures var s' := Step(s, Activate(sid)).value;
      s'.pendingSessions == s.pendingSessions && Pointers(s'.activeSessions) == Pointers(s.activeSessions) + [Some(sid)]
  {
  }

  lemma ActiveIsDistinct(s: State)
    requires Inv(s)
    ensures NoDuplicates(s.activeSessions)
  {
  }

  lemma CleanedUp(s: State, sid: SessionId, session: Session) returns (s': State)
    requires At(s, sid, Done) && s.sessions[sid] == session
    ensures Step(s, CleanUp(sid)) == Some(s')
    ensures s'.pendingSessions == s.pendingSessions - {session.serverkey} - {session.clientkey}
    ensures s'.activeSessions == SwapRemove(s.activeSessions, sid)
  {
    hide SwapRemove;
    s' := Step(s, CleanUp(sid)).value;
    assert s.pendingSessions - {session.serverkey, session.clientkey}
        == s.pendingSessions - {session.serverkey} - {session.clientkey};
  }

  // c belongs to a listed session in which the device is the server or the client.
  ghost predicate IsOfDevice(sessions: map<SessionId, Session>, ids: seq<SessionId>, id: Device, c: Conn) {
    exists sid ::
      && sid in ids && sid in sessions && c in sessions[sid].conns
      && (sessions[sid].serverid == id || sessions[sid].clientid == id)
  }

  lemma ConnsAre(sessions: map<SessionId, Session>, ids: seq<SessionId>, id: Device)
    ensures forall c :: c in ConnsOf(sessions, ids, id) <==> IsOfDevice(sessions, ids, id, c)
  {
  }

  // When a device goes, the connections of the sessions it takes part in are closed, on both sides,
  // and no others.
  lemma DeviceGone(s: State, id: Device, s': State)
    requires Step(s, Event.DropSessions(id)) == Some(s')
    ensures forall c :: c in s'.closed <==> c in s.closed || IsOfDevice(s.sessions, s.activeSessions, id, c)
    ensures s' == s.(closed := s'.closed)
  {
    assert s' == DropStep(s, id);
    hide Step, ConnsOf, IsOfDevice;
    ConnsAre(s.sessions, s.activeSessions, id);
  }

  lemma ConnsOfNone(sessions: map<SessionId, Session>, id: Device)
    ensures ConnsOf(sessions, [], id) == {}
  {
  }

  lemma ConnsOfAppend(sessions: map<SessionId, Session>, ids: seq<SessionId>, sid: SessionId, id: Device)
    requires sid in sessions
    ensures ConnsOf(sessions, ids + [sid], id) == ConnsOf(sessions, ids, id) +
              if sessions[sid].HasParticipant(id) then set c | c in sessions[sid].conns else {}
  {
  }

  // ---------- every run ----------

  ghost predicate Run(events: seq<Event>, states: seq<State>) {
    && |states| == |events| + 1 && states[0] == INITIAL
    && forall i :: 0 <= i < |events| ==> Step(states[i], events[i]) == Some(states[i + 1])
  }

  lemma {:induction false} RunKeepsInv(events: seq<Event>, states: seq<State>, n: nat)
    requires Run(events, states) && n < |states|
    ensures Inv(states[n])
    decreases n
  {
    hide Step;
    if n > 0 {
      RunKeepsInv(events, states, n - 1);
      assert Step(states[n - 1], events[n - 1]) == Some(states[n - 1 + 1]);
      StepKeepsInv(states[n - 1], events[n - 1], states[n]);
    }
  }

  // Nobody ever sends on, or closes, a closed channel, and no session is offered a third connection.
  lemma ChannelSafety(events: seq<Event>, states: seq<State>, n: nat)
    requires Run(events, states) && n < |states|
    ensures !states[n].panicked
    ensures forall a, b, c :: a in states[n].tickets && b in states[n].tickets && c in states[n].tickets
              && states[n].tickets[a].sid == states[n].tickets[b].sid == states[n].tickets[c].sid
              ==> a == b || b == c || a == c
  {
    RunKeepsInv(events, states, n);
    forall a, b, c | a in states[n].tickets && b in states[n].tickets && c in states[n].tickets
                     && states[n].tickets[a].sid == states[n].tickets[b].sid == states[n].tickets[c].sid
      ensures a == b || b == c || a == c
    {
      NoThirdTicket(states[n], states[n].tickets[a].sid, a, b, c);
    }
  }

  // A session that proxies joins two different connections, one admitted by the server's key and
  // one by the client's key.
  lemma Pairing(events: seq<Event>, states: seq<State>, n: nat, sid: SessionId)
    requires Run(events, states) && n < |states|
    requires sid in states[n].sessions && (states[n].sessions[sid].chanClosed || |states[n].sessions[sid].conns| == 2)
    ensures var s, session := states[n], states[n].sessions[sid];
      && |session.conns| == 2 && session.conns[0] != session.conns[1]
      && session.conns[0] in s.tickets && session.conns[1] in s.tickets
      && s.tickets[session.conns[0]].sid == s.tickets[session.conns[1]].sid == sid
      && {s.tickets[session.conns[0]].key, s.tickets[session.conns[1]].key} == {session.serverkey, session.clientkey}
      && session.serverkey != session.clientkey
  {
    RunKeepsInv(events, states, n);
    var s := states[n];
    var session := s.sessions[sid];
    assert SessionOk(s, sid);
    assert AcceptedBy(s, sid, session.conns[0]) && AcceptedBy(s, sid, session.conns[1]);
    assert session.HasKey(s.tickets[session.conns[0]].key) && session.HasKey(s.tickets[session.conns[1]].key);
  }

  // Such sessions exist: under any two different keys, a session can get as far as proxying.
  lemma SessionCanProxy(sid: SessionId, session: Session, a: Conn, b: Conn)
    returns (events: seq<Event>, states: seq<State>)
    requires session.serverkey != session.clientkey && a != b
    ensures Run(events, states) && |events| == 11
    ensures At(states[11], sid, Active) && states[11].sessions[sid].conns == [a, b]
    ensures states[11].activeSessions == [sid] && states[11].running + states[11].finished == {}
  {
    hide Step, OfferStep;
    var first := NewSession(sid, session.serverkey, session.clientkey, session.serverid, session.clientid);
    var s1 := Registered(sid, first);
    var s2 := Redeeming(s1, a, session.serverkey);
    var s3 := Redeeming(s2, b, session.clientkey);
    var s4, s5, s6 := Taking(s3, sid, a);
    var s7, s8, s9 := Taking(s6, sid, b);
    var s10, s11 := Starting(s9, sid);
    hide Move, At;
    events := [first, Redeem(a, session.serverkey), Redeem(b, session.clientkey), Select(sid), Offer(a), Append(sid),
               Select(sid), Offer(b), Append(sid), CloseChan(sid), Activate(sid)];
    states := [INITIAL, s1, s2, s3, s4, s5, s6, s7, s8, s9, s10, s11];
  }

  lemma Registered(sid: SessionId, e: Event) returns (s': State)
    requires e.NewSession? && e.sid == sid && e.serverkey != e.clientkey
    ensures Step(INITIAL, e) == Some(s')
    ensures s' == INITIAL.(
      sessions := map[sid := Session(e.serverkey, e.clientkey, e.serverid, e.clientid, Created, [], false)],
      pendingSessions := map[e.serverkey := sid, e.clientkey := sid])
  {
    s' := Step(INITIAL, e).value;
  }

  lemma Redeeming(s: State, conn: Conn, key: Key) returns (s': State)
    requires key in s.pendingSessions && conn !in s.tickets && conn !in s.closed
    ensures Step(s, Redeem(conn, key)) == Some(s')
    ensures s' == s.(tickets := s.tickets[conn := Ticket(s.pendingSessions[key], key, Redeemed)],
                     pendingSessions := s.pendingSessions - {key})
  {
    s' := Step(s, Redeem(conn, key)).value;
  }

  // Serve waits, is offered a connection, and appends it.
  lemma Taking(s: State, sid: SessionId, conn: Conn) returns (s1: State, s2: State, s3: State)
    requires At(s, sid, Created) && !s.sessions[sid].chanClosed
    requires conn in s.tickets && s.tickets[conn].sid == sid && s.tickets[conn].status == Redeemed
    ensures Step(s, Select(sid)) == Some(s1) && Step(s1, Offer(conn)) == Some(s2) && Step(s2, Append(sid)) == Some(s3)
    ensures var conns := s.sessions[sid].conns + [conn];
      s3 == s.(sessions := s.sessions[sid := s.sessions[sid].(conns := conns, phase := s3.sessions[sid].phase)],
               tickets := s.tickets[conn := s.tickets[conn].(status := Accepted)])
      && s3.sessions[sid].phase == if |conns| < 2 then Created else Full
  {
    s1 := Move(s, sid, Waiting);
    s2 := OfferStep(s1, conn);
    s3 := Step(s2, Append(sid)).value;
  }

  lemma Starting(s: State, sid: SessionId) returns (s1: State, s2: State)
    requires At(s, sid, Full) && !s.sessions[sid].chanClosed
    ensures Step(s, CloseChan(sid)) == Some(s1) && Step(s1, Activate(sid)) == Some(s2)
    ensures At(s2, sid, Active) && s2.sessions[sid].conns == s.sessions[sid].conns
    ensures s2.running == s.running && s2.finished == s.finished
    ensures s2.activeSessions == s.activeSessions + [sid]
  {
    s1 := Step(s, CloseChan(sid)).value;
    s2 := Step(s1, Activate(sid)).value;
  }

  // A session that proxies ends with its proxies: Serve returns, with both connections closed. By
  // RegistriesAreExact it is in neither registry then.
  lemma ProxyingSessionEnds(s: State, sid: SessionId, a: Conn, b: Conn) returns (events: seq<Event>, states: seq<State>)
    requires At(s, sid, Active) && s.sessions[sid].conns == [a, b]
    requires Proxy(sid, true) !in s.running + s.finished && Proxy(sid, false) !in s.running + s.finished
    ensures |events| == 7 && |states| == 8 && states[0] == s
    ensures forall i :: 0 <= i < 7 ==> Step(states[i], events[i]) == Some(states[i + 1])
    ensures At(states[7], sid, Returned) && a in states[7].closed && b in states[7].closed
    ensures states[2].numProxies == s.numProxies + 2 && states[7].numProxies == s.numProxies
  {
    hide Step, At;
    var s1, s2, s3, s4 := Proxying(s, sid);
    var s5, s6, s7 := Finishing(s4, sid);
    events := [StartProxy(sid, true), StartProxy(sid, false), EndProxy(sid, true), EndProxy(sid, false),
               ProxiesDone(sid), CleanUp(sid), CloseConns(sid)];
    states := [s, s1, s2, s3, s4, s5, s6, s7];
  }

  lemma Proxying(s: State, sid: SessionId) returns (s1: State, s2: State, s3: State, s4: State)
    requires At(s, sid, Active)
    requires Proxy(sid, true) !in s.running + s.finished && Proxy(sid, false) !in s.running + s.finished
    ensures Step(s, StartProxy(sid, true)) == Some(s1) && Step(s1, StartProxy(sid, false)) == Some(s2)
    ensures Step(s2, EndProxy(sid, true)) == Some(s3) && Step(s3, EndProxy(sid, false)) == Some(s4)
    ensures s2.numProxies == s.numProxies + 2 && s4.numProxies == s.numProxies
    ensures s4.sessions == s.sessions && At(s4, sid, Active)
    ensures Proxy(sid, true) in s4.finished && Proxy(sid, false) in s4.finished
  {
    hide Step;
    s1 := ProxyStarts(s, sid, true);
    s2 := ProxyStarts(s1, sid, false);
    s3 := ProxyStops(s2, sid, true);
    s4 := ProxyStops(s3, sid, false);
  }

  lemma ProxyStarts(s: State, sid: SessionId, forward: bool) returns (s': State)
    requires At(s, sid, Active) && Proxy(sid, forward) !in s.running + s.finished
    ensures Step(s, StartProxy(sid, forward)) == Some(s')
    ensures s' == s.(running := s.running + {Proxy(sid, forward)}, numProxies := s.numProxies + 1)
  {
    s' := Step(s, StartProxy(sid, forward)).value;
  }

  lemma ProxyStops(s: State, sid: SessionId, forward: bool) returns (s': State)
    requires Proxy(sid, forward) in s.running
    ensures Step(s, EndProxy(sid, forward)) == Some(s')
    ensures s' == s.(running := s.running - {Proxy(sid, forward)}, finished := s.finished + {Proxy(sid, forward)},
                     numProxies := s.numProxies - 1)
  {
    s' := Step(s, EndProxy(sid, forward)).value;
  }

  lemma Finishing(s: State, sid: SessionId) returns (s1: State, s2: State, s3: State)
    requires At(s, sid, Active) && Proxy(sid, true) in s.finished && Proxy(sid, false) in s.finished
    ensures Step(s, ProxiesDone(sid)) == Some(s1) && Step(s1, CleanUp(sid)) == Some(s2)
    ensures Step(s2, CloseConns(sid)) == Some(s3)
    ensures At(s3, sid, Returned) && s3.numProxies == s.numProxies
    ensures s3.closed == s.closed + set c | c in s.sessions[sid].conns
  {
    hide SwapRemove;
    s1 := Step(s, ProxiesDone(sid)).value;
    s2 := Step(s1, CleanUp(sid)).value;
    s3 := Step(s2, CloseConns(sid)).value;
  }

  // A session that nobody joins times out, and its keys with it.
  lemma LonelySessionTimesOut(sid: SessionId, session: Session) returns (events: seq<Event>, states: seq<State>)
    requires session.serverkey != session.clientkey
    ensures Run(events, states) && |events| == 5
    ensures At(states[5], sid, Returned) && states[5].pendingSessions == map[] && states[5].activeSessions == []
  {
    hide Step;
    var first := NewSession(sid, session.serverkey, session.clientkey, session.serverid, session.clientid);
    var s1 := Registered(sid, first);
    var s2, s3, s4, s5 := TimingOut(s1, sid);
    events := [first, Select(sid), Timeout(sid), CleanUp(sid), CloseConns(sid)];
    states := [INITIAL, s1, s2, s3, s4, s5];
  }

  lemma TimingOut(s: State, sid: SessionId) returns (s1: State, s2: State, s3: State, s4: State)
    requires At(s, sid, Created) && s.activeSessions == []
    ensures Step(s, Select(sid)) == Some(s1) && Step(s1, Timeout(sid)) == Some(s2)
    ensures Step(s2, CleanUp(sid)) == Some(s3) && Step(s3, CloseConns(sid)) == Some(s4)
    ensures At(s4, sid, Returned) && s4.activeSessions == []
    ensures s4.pendingSessions == s.pendingSessions - {s.sessions[sid].serverkey, s.sessions[sid].clientkey}
  {
    s1 := Step(s, Select(sid)).value;
    s2 := Step(s1, Timeout(sid)).value;
    s3 := Step(s2, CleanUp(sid)).value;
    s4 := Step(s3, CloseConns(sid)).value;
  }

  // The registries, exactly: what may still be redeemed, which sessions are listed as active, and
  // who is reachable through an outbox.
  lemma RegistriesAreExact(events: seq<Event>, states: seq<State>, n: nat)
    requires Run(events, states) && n < |states|
    ensures var s := states[n];
      && (forall k :: k in s.pendingSessions ==>
            s.pendingSessions[k] in s.sessions && s.sessions[s.pendingSessions[k]].phase != Returned)
      && NoDuplicates(s.activeSessions)
      && (forall sid :: sid in s.activeSessions <==> InActive(s, sid))
      && (forall id :: id in s.outboxes ==>
            && s.outboxes[id] in s.handlers
            && var h := s.handlers[s.outboxes[id]]; h.live && h.joined && h.id == id)
      && s.numProxies == |s.running|
  {
    RunKeepsInv(events, states, n);
  }

  // When Serve has returned, every connection the session took is closed.
  lemma ReturnedSessionsAreClosed(events: seq<Event>, states: seq<State>, n: nat, c: Conn)
    requires Run(events, states) && n < |states| && c in states[n].tickets
    requires states[n].tickets[c].status == Accepted
    requires states[n].tickets[c].sid in states[n].sessions
    requires states[n].sessions[states[n].tickets[c].sid].phase == Returned
    ensures c in states[n].closed
  {
    RunKeepsInv(events, states, n);
    var s := states[n];
    assert Settled(s, c);
    assert SessionOk(s, s.tickets[c].sid);
  }

  // ---------- one handler per device ----------

  // Every joined handler is the one its device's outbox belongs to; so there is at most one.
  ghost predicate JoinedOnce(s: State) {
    forall hid :: hid in s.handlers && s.handlers[hid].live && s.handlers[hid].joined ==>
      s.handlers[hid].id in s.outboxes && s.outboxes[s.handlers[hid].id] == hid
  }

  // Whether the check before a join would still succeed when the outbox is assigned.
  predicate StillFree(s: State, hid: HandlerId)
    requires hid in s.handlers
  {
    var id := s.handlers[hid].id;
    id !in s.outboxes || s.outboxes[id] == hid
  }

  // A join keeps one handler per device exactly if no other handler has joined since the check.
  lemma JoinIsSafeIff(s: State, hid: HandlerId, s': State)
    requires Inv(s) && JoinedOnce(s) && Step(s, JoinSet(hid)) == Some(s')
    ensures JoinedOnce(s') <==> StillFree(s, hid)
  {
    var id := s.handlers[hid].id;
    if !StillFree(s, hid) {
      var other := s.outboxes[id];
      assert other != hid && s'.handlers[other] == s.handlers[other] && s'.handlers[other].joined;
    } else {
      forall h | h in s'.handlers && s'.handlers[h].live && s'.handlers[h].joined
        ensures s'.handlers[h].id in s'.outboxes && s'.outboxes[s'.handlers[h].id] == h
      {
        assert h != hid ==> s'.handlers[h] == s.handlers[h];
      }
    }
  }

  lemma OtherStepsKeepJoinedOnce(s: State, e: Event, s': State)
    requires JoinedOnce(s) && Step(s, e) == Some(s') && !e.JoinSet?
    ensures JoinedOnce(s')
  {
    if e.Accept? || e.JoinCheck? || e.Exit? {
      HandlerStepKeepsJoinedOnce(s, e, s');
    } else {
      HandlersUntouched(s, e, s');
    }
  }

  lemma HandlersUntouched(s: State, e: Event, s': State)
    requires Step(s, e) == Some(s') && !e.JoinSet? && !e.Accept? && !e.JoinCheck? && !e.Exit?
    ensures s'.handlers == s.handlers && s'.outboxes == s.outboxes
  {
    if e.NewSession? || e.Redeem? || e.Offer? {
      KeysTouchNoHandler(s, e, s');
    } else if e.Select? || e.Append? || e.CloseChan? {
      ServingTouchesNoHandler(s, e, s');
    }
  }

  lemma KeysTouchNoHandler(s: State, e: Event, s': State)
    requires Step(s, e) == Some(s') && (e.NewSession? || e.Redeem? || e.Offer?)
    ensures s'.handlers == s.handlers && s'.outboxes == s.outboxes
  {
  }

  lemma ServingTouchesNoHandler(s: State, e: Event, s': State)
    requires Step(s, e) == Some(s') && (e.Select? || e.Append? || e.CloseChan?)
    ensures s'.handlers == s.handlers && s'.outboxes == s.outboxes
  {
  }

  lemma HandlerStepKeepsJoinedOnce(s: State, e: Event, s': State)
    requires JoinedOnce(s) && Step(s, e) == Some(s') && (e.Accept? || e.JoinCheck? || e.Exit?)
    ensures JoinedOnce(s')
  {
    assert s' == s.(handlers := s'.handlers, outboxes := s'.outboxes);
    assert forall h :: h in s'.handlers && h != e.hid ==> h in s.handlers && s'.handlers[h] == s.handlers[h];
    if e.Exit? {
      var h := s.handlers[e.hid];
      assert s'.outboxes == if h.joined then s.outboxes - {h.id} else s.outboxes;
      assert !s'.handlers[e.hid].live;
    }
    hide Step;
  }

  // A join, if e is one, that happens while the check before it would still succeed.
  ghost predicate InTime(s: State, e: Event) {
    e.JoinSet? && e.hid in s.handlers ==> StillFree(s, e.hid)
  }

  lemma {:induction false} TimelyRun(events: seq<Event>, states: seq<State>, n: nat)
    requires Run(events, states) && n < |states|
    requires forall i :: 0 <= i < n ==> InTime(states[i], events[i])
    ensures JoinedOnce(states[n])
    decreases n
  {
    hide Step, Inv;
    if n > 0 {
      TimelyRun(events, states, n - 1);
      RunKeepsInv(events, states, n - 1);
      var s, e := states[n - 1], events[n - 1];
      assert Step(s, e) == Some(states[n - 1 + 1]);
      if e.JoinSet? {
        JoinNeedsHandler(s, e.hid);
        JoinIsSafeIff(s, e.hid, states[n]);
      } else {
        OtherStepsKeepJoinedOnce(s, e, states[n]);
      }
    }
  }

  // In every run, each device has at most one joined handler up to a point if and only if every join
  // before that point happens in time.
  lemma OneHandlerPerDeviceIff(events: seq<Event>, states: seq<State>, n: nat)
    requires Run(events, states) && n < |states|
    ensures (forall i :: 0 <= i <= n ==> JoinedOnce(states[i]))
       <==> (forall i :: 0 <= i < n ==> InTime(states[i], events[i]))
  {
    hide Step, Inv, JoinedOnce, StillFree;
    if forall i :: 0 <= i <= n ==> JoinedOnce(states[i]) {
      forall i | 0 <= i < n ensures InTime(states[i], events[i]) {
        if events[i].JoinSet? && events[i].hid in states[i].handlers {
          RunKeepsInv(events, states, i);
          assert Step(states[i], events[i]) == Some(states[i + 1]);
          JoinIsSafeIff(states[i], events[i].hid, states[i + 1]);
        }
      }
    }
    if forall i :: 0 <= i < n ==> InTime(states[i], events[i]) {
      forall i | 0 <= i <= n ensures JoinedOnce(states[i]) {
        TimelyRun(events, states, i);
      }
    }
  }

  lemma JoinNeedsHandler(s: State, hid: HandlerId)
    requires Step(s, JoinSet(hid)).Some?
    ensures hid in s.handlers
  {
  }

  // A handler that passed the check goes on to join, and nothing comes between.
  ghost predicate JoinsAtOnce(events: seq<Event>, n: nat)
    requires n <= |events|
  {
    forall i :: 0 <= i < n && events[i].JoinSet? ==> i > 0 && events[i - 1] == JoinCheck(events[i].hid)
  }

  // Then each device has at most one joined handler: the check is enough where it is not raced.
  lemma AtOnceIsInTime(events: seq<Event>, states: seq<State>, n: nat)
    requires Run(events, states) && n < |states| && JoinsAtOnce(events, n)
    ensures forall i :: 0 <= i <= n ==> JoinedOnce(states[i])
  {
    hide Step, JoinedOnce;
    forall i | 0 <= i < n ensures InTime(states[i], events[i]) {
      if events[i].JoinSet? {
        var before := states[i - 1];
        assert Step(before, events[i - 1]) == Some(states[i - 1 + 1]);
        CheckedIsFree(before, events[i].hid, states[i]);
      }
    }
    OneHandlerPerDeviceIff(events, states, n);
  }

  lemma CheckedIsFree(s: State, hid: HandlerId, s': State)
    requires Step(s, JoinCheck(hid)) == Some(s')
    ensures hid in s'.handlers && s'.handlers[hid].id !in s'.outboxes
  {
  }

  // The check and the assignment of outboxes are separate steps, so two handlers of one device can
  // both join; when the first exits, the second stays joined but has no outbox any more.
  lemma TwoHandlersCanJoin(id: Device) returns (events: seq<Event>, states: seq<State>)
    ensures Run(events, states) && |events| == 7
    ensures !JoinedOnce(states[6]) && forall hid :: hid in {0, 1} ==>
      hid in states[6].handlers && states[6].handlers[hid] == Handler(id, true, false, true)
    ensures 1 in states[7].handlers && states[7].handlers[1] == Handler(id, true, false, true)
    ensures id !in states[7].outboxes
  {
    events := [Accept(0, id), Accept(1, id), JoinCheck(0), JoinCheck(1), JoinSet(0), JoinSet(1), Exit(0)];
    hide Step;
    var s1 := Accepting(INITIAL, 0, id);
    var s2 := Accepting(s1, 1, id);
    var s3 := Checked(s2, 0);
    var s4 := Checked(s3, 1);
    var s5 := Assigned(s4, 0);
    var s6 := Assigned(s5, 1);
    var s7 := Exited(s6, 0);
    states := [INITIAL, s1, s2, s3, s4, s5, s6, s7];
  }

  lemma Accepting(s: State, hid: HandlerId, id: Device) returns (s': State)
    requires hid !in s.handlers
    ensures Step(s, Accept(hid, id)) == Some(s')
    ensures s' == s.(handlers := s.handlers[hid := Handler(id, true, false, false)])
  {
    s' := Step(s, Accept(hid, id)).value;
  }

  lemma Exited(s: State, hid: HandlerId) returns (s': State)
    requires hid in s.handlers && s.handlers[hid].live && s.handlers[hid].joined && !s.handlers[hid].checked
    ensures Step(s, Exit(hid)) == Some(s')
    ensures s' == s.(handlers := s.handlers[hid := s.handlers[hid].(live := false)],
                     outboxes := s.outboxes - {s.handlers[hid].id})
  {
    s' := Step(s, Exit(hid)).value;
  }

  lemma Checked(s: State, hid: HandlerId) returns (s': State)
    requires hid in s.handlers && s.handlers[hid].live && s.handlers[hid].id !in s.outboxes
    ensures Step(s, JoinCheck(hid)) == Some(s')
    ensures s' == s.(handlers := s.handlers[hid := s.handlers[hid].(checked := true)])
  {
    s' := Step(s, JoinCheck(hid)).value;
  }

  lemma Assigned(s: State, hid: HandlerId) returns (s': State)
    requires hid in s.handlers && s.handlers[hid].live && s.handlers[hid].checked
    ensures Step(s, JoinSet(hid)) == Some(s')
    ensures s' == s.(handlers := s.handlers[hid := s.handlers[hid].(checked := false, joined := true)],
                     outboxes := s.outboxes[s.handlers[hid].id := hid])
  {
    s' := Step(s, JoinSet(hid)).value;
  }
}
