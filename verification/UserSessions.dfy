/** Who is online on which socket (user_session_manager.cpp): two maps changed together under one lock, so that
    each operation is one step. */
module UserSessions {

  type UserID = nat

  /** A client's socket; `sent` is what has been sent on it. */
  class Connection {
    var sent: seq<string>

    constructor ()
      ensures sent == []
    {
      sent := [];
    }

    method Send(payload: string)
      modifies this
      ensures sent == old(sent) + [payload]
    {
      sent := sent + [payload];
    }
  }

  datatype UserSession = UserSession(userId: UserID, username: string, ws: Connection?, referenceCount: int)

  class UserSessionManager {
    var sessions: map<UserID, UserSession>
    var wsIndex: map<Connection, UserID>

    constructor ()
      ensures Valid() && Exact() && Online() == map[] && wsIndex == map[]
    {
      sessions, wsIndex := map[], map[];
    }

    /** Every session has a socket and is counted once: the branches for other counts are dead. */
    ghost predicate SessionsOk()
      reads `sessions
    {
      forall u <- sessions :: sessions[u].userId == u && sessions[u].ws != null && sessions[u].referenceCount == 1
    }

    /** Who is online, on which socket. */
    ghost function Online(): map<UserID, Connection>
      requires SessionsOk()
      reads `sessions
    {
      map u | u in sessions :: (var w: Connection := sessions[u].ws; w)
    }

    /** In every run: an index entry leads to a session that holds this very socket. */
    ghost predicate Valid()
      reads this
    {
      SessionsOk() && Leads(Online(), wsIndex)
    }

    /** Every session can be found from its socket. */
    ghost predicate Exact()
      requires Valid()
      reads this
    {
      Complete(Online(), wsIndex)
    }

    method UnindexWs(ws: Connection?)
      modifies `wsIndex
      ensures wsIndex == if ws == null then old(wsIndex) else old(wsIndex) - {ws}
    {
      if ws != null {
        wsIndex := wsIndex - {ws};
      }
    }

    /** Puts a user online on a socket. The socket the user was on before, if another, is told and forgotten. The
        index stays complete just when nobody else is online on the new socket. */
    method AttachSession(userId: UserID, username: string, ws: Connection, kickPayload: string)
      requires Valid()
      modifies this, Online().Values
      ensures Valid() && Online() == old(Online())[userId := ws]
      ensures wsIndex == Reindexed(old(Online()), old(wsIndex), userId, ws)
      ensures ws in wsIndex && wsIndex[ws] == userId
      ensures forall w: Connection :: w != ws ==>
                (w in wsIndex <==> w in old(wsIndex) && !(userId in old(Online()) && w == old(Online())[userId]))
                && (w in wsIndex ==> wsIndex[w] == old(wsIndex)[w])
      ensures var was := old(Online());
              userId in was && was[userId] != ws ==> was[userId].sent == old(was[userId].sent) + [kickPayload]
      ensures var was := old(Online());
              forall w: Connection <- was.Values :: !(userId in was && w == was[userId] && w != ws) ==> w.sent == old(w.sent)
      ensures forall w: Connection <- old(Online()).Values ::
                w.sent == old(w.sent) + if Kicked(old(Online()), userId, ws, w) then [kickPayload] else []
      ensures old(Exact()) ==> (Exact() <==> !HeldByOther(old(Online()), userId, ws))
      ensures old(Exact()) ==> (Exact() <==> forall u <- old(Online()) :: u != userId ==> old(Online())[u] != ws)
    {
      hide Leads, Complete, HeldByOther;
      ghost var online, index := Online(), wsIndex;
      if userId !in sessions {
        sessions := sessions[userId := UserSession(userId, username, ws, 1)];
        wsIndex := wsIndex[ws := userId];
      } else {
        var session := sessions[userId];
        if session.ws != null && session.ws != ws {
          assert online[userId] == session.ws && session.ws in online.Values;
          session.ws.Send(kickPayload);
          UnindexWs(session.ws);
        }
        sessions := sessions[userId := session.(ws := ws)];
        wsIndex := wsIndex[ws := userId];
      }
      assert Online() == online[userId := ws];
      Attaching(online, index, userId, ws);
      HeldByNobody(online, userId, ws);
    }

    /** True if the user is online; the payload has then gone out on the user's socket and on no other. */
    method SendToUser(userId: UserID, payload: string) returns (sent: bool)
      requires Valid()
      modifies Online().Values
      ensures sent <==> userId in Online()
      ensures forall w: Connection <- Online().Values ::
                w.sent == old(w.sent) + if sent && w == Online()[userId] then [payload] else []
    {
      if userId !in sessions || sessions[userId].ws == null {
        return false;
      }
      assert Online()[userId] in Online().Values;
      sessions[userId].ws.Send(payload);
      return true;
    }

    method RemoveSession(userId: UserID) returns (removed: bool)
      requires Valid()
      modifies this
      ensures Valid() && Online() == old(Online()) - {userId}
      ensures removed <==> userId in old(Online())
      ensures wsIndex == if removed then old(wsIndex) - {old(Online())[userId]} else old(wsIndex)
      ensures old(Exact()) ==> Exact()
    {
      hide Leads, Complete;
      ghost var online, index := Online(), wsIndex;
      if userId !in sessions {
        assert online - {userId} == online;
        return false;
      }
      if sessions[userId].referenceCount > 1 {
        assert false;
      } else {
        UnindexWs(sessions[userId].ws);
        sessions := sessions - {userId};
        assert Online() == online - {userId};
        Removing(online, index, userId);
      }
      return true;
    }

    /** A socket is gone. Whoever is online on another socket stays so, also if this one was kicked before. With a
        complete index this is a scan over all sessions. */
    method RemoveSessionByWs(ws: Connection) returns (removed: bool)
      requires Valid()
      modifies this
      ensures Valid() && removed == (ws in old(wsIndex))
      ensures Online() == old(Online()) - if removed then {old(wsIndex)[ws]} else {}
      ensures wsIndex == old(wsIndex) - {ws}
      ensures forall u <- old(Online()) :: old(Online())[u] != ws ==> u in Online() && Online()[u] == old(Online())[u]
      ensures old(Exact()) ==> Exact() && Online() == Elsewhere(old(Online()), ws) && (removed <==> ws in old(Online()).Values)
      ensures old(Exact()) ==> forall u :: u in Online() <==> u in old(Online()) && old(Online())[u] != ws
    {
      ghost var online, index := Online(), wsIndex;
      Scan(online, index, ws);
      if ws !in wsIndex {
        assert online - {} == online;
        return false;
      }
      var userId := wsIndex[ws];
      if userId !in sessions {
        assert false;
      } else if sessions[userId].referenceCount > 1 {
        assert false;
      } else {
        assert online[userId] == ws;
        hide Leads, Complete, Elsewhere;
        wsIndex := wsIndex - {ws};
        sessions := sessions - {userId};
        assert Online() == online - {userId};
        Removing(online, index, userId);
      }
      return true;
    }
  }

  // ---------------------------------------------------------------- the two maps

  ghost predicate Leads(online: map<UserID, Connection>, index: map<Connection, UserID>) {
    forall w <- index :: index[w] in online && online[index[w]] == w
  }

  ghost predicate Complete(online: map<UserID, Connection>, index: map<Connection, UserID>) {
    forall u <- online :: online[u] in index && index[online[u]] == u
  }

  predicate Kicked(online: map<UserID, Connection>, user: UserID, ws: Connection, w: Connection) {
    user in online && online[user] == w && w != ws
  }

  /** The index after a user has been put on a socket: the one before is forgotten, whoever else is on it. */
  function Reindexed(online: map<UserID, Connection>, index: map<Connection, UserID>, user: UserID, ws: Connection)
    : map<Connection, UserID>
  {
    (if user in online && online[user] != ws then index - {online[user]} else index)[ws := user]
  }

  predicate HeldByOther(online: map<UserID, Connection>, user: UserID, ws: Connection) {
    exists u <- online :: u != user && online[u] == ws
  }

  lemma HeldByNobody(online: map<UserID, Connection>, user: UserID, ws: Connection)
    ensures !HeldByOther(online, user, ws) <==> forall u <- online :: u != user ==> online[u] != ws
  {
  }

  lemma Attaching(online: map<UserID, Connection>, index: map<Connection, UserID>, user: UserID, ws: Connection)
    requires Leads(online, index)
    ensures var then_, index' := online[user := ws], Reindexed(online, index, user, ws);
            Leads(then_, index') && (Complete(online, index) ==> (Complete(then_, index') <==> !HeldByOther(online, user, ws)))
  {
    if HeldByOther(online, user, ws) {
      var u :| u in online && u != user && online[u] == ws;
      assert online[user := ws][u] == ws;
    }
  }

  lemma Removing(online: map<UserID, Connection>, index: map<Connection, UserID>, user: UserID)
    requires Leads(online, index) && user in online
    ensures Leads(online - {user}, index - {online[user]})
    ensures Complete(online, index) ==> Complete(online - {user}, index - {online[user]})
  {
  }

  /** Everybody who is online on another socket: what a scan over all sessions leaves. */
  function Elsewhere(online: map<UserID, Connection>, ws: Connection): map<UserID, Connection> {
    map u | u in online && online[u] != ws :: online[u]
  }

  lemma Scan(online: map<UserID, Connection>, index: map<Connection, UserID>, ws: Connection)
    requires Leads(online, index)
    ensures Complete(online, index) ==>
              && (ws in index <==> ws in online.Values)
              && Elsewhere(online, ws) == if ws in index then online - {index[ws]} else online
  {
  }

  // ---------------------------------------------------------------- runs

  datatype Op =
    | Attach(user: UserID, name: string, ws: Connection, kick: string)
    | Send(user: UserID, payload: string)
    | Remove(user: UserID)
    | Disconnect(ws: Connection)

  /** Who is online where, and the reverse index. */
  datatype Registry = Registry(online: map<UserID, Connection>, index: map<Connection, UserID>)

  /** What a call does to both maps. */
  function Next(r: Registry, op: Op): Registry {
    match op
    case Attach(user, _, ws, _) => Registry(r.online[user := ws], Reindexed(r.online, r.index, user, ws))
    case Send(_, _) => r
    case Remove(user) => if user in r.online then Registry(r.online - {user}, r.index - {r.online[user]}) else r
    case Disconnect(ws) => if ws in r.index then Registry(r.online - {r.index[ws]}, r.index - {ws}) else r
  }

  /** What a call sends on the socket `w`. */
  function Told(r: Registry, op: Op, w: Connection): seq<string> {
    match op
    case Attach(user, _, ws, kick) => if Kicked(r.online, user, ws, w) then [kick] else []
    case Send(user, payload) => if user in r.online && r.online[user] == w then [payload] else []
    case _ => []
  }

  function NextAll(r: Registry, ops: seq<Op>): Registry
    decreases |ops|
  {
    if ops == [] then r else NextAll(Next(r, ops[0]), ops[1..])
  }

  /** What a run sends on the socket `w`, in order. */
  function ToldAll(r: Registry, ops: seq<Op>, w: Connection): seq<string>
    decreases |ops|
  {
    if ops == [] then [] else Told(r, ops[0], w) + ToldAll(Next(r, ops[0]), ops[1..], w)
  }

  /** One plain map, in which a disconnect scans. */
  function After(online: map<UserID, Connection>, op: Op): map<UserID, Connection> {
    match op
    case Attach(user, _, ws, _) => online[user := ws]
    case Send(_, _) => online
    case Remove(user) => online - {user}
    case Disconnect(ws) => Elsewhere(online, ws)
  }

  function AfterAll(online: map<UserID, Connection>, ops: seq<Op>): map<UserID, Connection>
    decreases |ops|
  {
    if ops == [] then online else AfterAll(After(online, ops[0]), ops[1..])
  }

  /** Nobody is put online on a socket that somebody else is on. */
  predicate OneUserASocket(online: map<UserID, Connection>, ops: seq<Op>)
    decreases |ops|
  {
    ops == [] || ((ops[0].Attach? ==> !HeldByOther(online, ops[0].user, ops[0].ws)) && OneUserASocket(After(online, ops[0]), ops[1..]))
  }

  lemma NextKeeps(r: Registry, op: Op)
    requires Leads(r.online, r.index)
    ensures Leads(Next(r, op).online, Next(r, op).index)
    ensures Complete(r.online, r.index) && (op.Attach? ==> !HeldByOther(r.online, op.user, op.ws)) ==>
              Complete(Next(r, op).online, Next(r, op).index) && Next(r, op).online == After(r.online, op)
  {
    hide Leads, Complete, HeldByOther, Reindexed, Elsewhere;
    match op {
      case Attach(user, _, ws, _) => Attaching(r.online, r.index, user, ws);
      case Send(_, _) =>
      case Remove(user) =>
        if user in r.online {
          Removing(r.online, r.index, user);
        } else {
          assert r.online - {user} == r.online;
        }
      case Disconnect(ws) =>
        Scan(r.online, r.index, ws);
        if ws in r.index {
          LeadsTo(r.online, r.index, ws);
          Removing(r.online, r.index, r.index[ws]);
        }
    }
  }

  lemma LeadsTo(online: map<UserID, Connection>, index: map<Connection, UserID>, ws: Connection)
    requires Leads(online, index) && ws in index
    ensures index[ws] in online && online[index[ws]] == ws
  {
  }

  /** As long as nobody is put on somebody else's socket the two maps are as good as one that is scanned. */
  lemma {:induction false} IndexIsScan(r: Registry, ops: seq<Op>)
    requires Leads(r.online, r.index) && Complete(r.online, r.index) && OneUserASocket(r.online, ops)
    ensures var q := NextAll(r, ops);
            Leads(q.online, q.index) && Complete(q.online, q.index) && q.online == AfterAll(r.online, ops)
    decreases |ops|
  {
    hide Leads, Complete, Next, After, HeldByOther;
    if ops != [] {
      NextKeeps(r, ops[0]);
      IndexIsScan(Next(r, ops[0]), ops[1..]);
    }
  }

  /** Two users on one socket: when the first moves to another, the second can no longer be found from it and stays
      online after it is gone, where a scan would have found it. */
  lemma SharedSocketIsForgotten(first: UserID, second: UserID, shared: Connection, other: Connection)
    requires first != second && shared != other
    ensures var ops := [Attach(first, "", shared, ""), Attach(second, "", shared, ""), Attach(first, "", other, ""), Disconnect(shared)];
            && NextAll(Registry(map[], map[]), ops) == Registry(map[first := other, second := shared], map[other := first])
            && AfterAll(map[], ops) == map[first := other]
  {
    var a, b := Attach(first, "", shared, ""), Attach(second, "", shared, "");
    var c, d := Attach(first, "", other, ""), Disconnect(shared);
    var r1 := Registry(map[first := shared], map[shared := first]);
    var r2 := Registry(map[first := shared, second := shared], map[shared := second]);
    var r3 := Registry(map[first := other, second := shared], map[other := first]);
    assert Next(Registry(map[], map[]), a) == r1 && Next(r1, b) == r2 && Next(r2, c) == r3 && Next(r3, d) == r3;
    assert After(map[], a) == r1.online && After(r1.online, b) == r2.online && After(r2.online, c) == r3.online;
    assert After(r3.online, d) == map[first := other];
    hide Next, After;
    FirstOp(Registry(map[], map[]), a, [b, c, d]);
    FirstOp(r1, b, [c, d]);
    FirstOp(r2, c, [d]);
    FirstOp(r3, d, []);
  }

  lemma FirstOp(r: Registry, op: Op, rest: seq<Op>)
    ensures NextAll(r, [op] + rest) == NextAll(Next(r, op), rest)
    ensures AfterAll(r.online, [op] + rest) == AfterAll(After(r.online, op), rest)
  {
    assert ([op] + rest)[1..] == rest;
  }

  /** A user who comes back on another socket has the first one told, just once, and nobody else is. */
  lemma SecondLoginKicks(r: Registry, user: UserID, name: string, a: Connection, b: Connection, first: string, kick: string,
                         w: Connection)
    requires a != b && user !in r.online
    ensures ToldAll(r, [Attach(user, name, a, first), Attach(user, name, b, kick)], w) == if w == a then [kick] else []
  {
    var x, y := Attach(user, name, a, first), Attach(user, name, b, kick);
    var r' := Next(r, x);
    assert Told(r, x, w) == [] && Told(r', y, w) == if w == a then [kick] else [];
    assert [x, y][1..] == [y] && [y][1..] == [];
    hide Next, Told;
    assert ToldAll(Next(r', y), [], w) == [];
    assert ToldAll(r', [y], w) == Told(r', y, w) + [];
  }

  predicate SocketsAmong(ops: seq<Op>, sockets: set<Connection>) {
    forall op <- ops :: op.Attach? ==> op.ws in sockets
  }

  ghost function RegistryOf(m: UserSessionManager): Registry
    reads m
    requires m.Valid()
  {
    Registry(m.Online(), m.wsIndex)
  }

  method Perform(m: UserSessionManager, op: Op, ghost sockets: set<Connection>)
    requires m.Valid() && m.Online().Values <= sockets && (op.Attach? ==> op.ws in sockets)
    modifies m, sockets
    ensures m.Valid() && m.Online().Values <= sockets
    ensures RegistryOf(m) == Next(old(RegistryOf(m)), op)
    ensures forall w <- sockets :: w.sent == old(w.sent) + Told(old(RegistryOf(m)), op, w)
  {
    match op {
      case Attach(user, name, ws, kick) => m.AttachSession(user, name, ws, kick);
      case Send(user, payload) => var _ := m.SendToUser(user, payload);
      case Remove(user) => var _ := m.RemoveSession(user);
      case Disconnect(ws) => var _ := m.RemoveSessionByWs(ws);
    }
  }

  /** Every run does to the two maps what its calls do one by one, sends on every socket what they send there and
      nothing else, and keeps index entries leading to live sessions. */
  method Run(m: UserSessionManager, ops: seq<Op>, ghost sockets: set<Connection>)
    requires m.Valid() && m.Online().Values <= sockets && SocketsAmong(ops, sockets)
    modifies m, sockets
    ensures m.Valid() && RegistryOf(m) == NextAll(old(RegistryOf(m)), ops)
    ensures forall w <- sockets :: w.sent == old(w.sent) + ToldAll(old(RegistryOf(m)), ops, w)
    ensures old(m.Exact()) && OneUserASocket(old(m.Online()), ops) ==> m.Exact() && m.Online() == AfterAll(old(m.Online()), ops)
  {
    ghost var start := RegistryOf(m);
    if m.Exact() && OneUserASocket(m.Online(), ops) {
      IndexIsScan(start, ops);
    }
    hide Next, Told, After, AfterAll, OneUserASocket, Complete, Leads, HeldByOther;
    var i := 0;
    assert ops[0..] == ops;
    while i < |ops|
      invariant i <= |ops| && m.Valid() && m.Online().Values <= sockets
      invariant NextAll(RegistryOf(m), ops[i..]) == NextAll(start, ops)
      invariant forall w <- sockets :: w.sent + ToldAll(RegistryOf(m), ops[i..], w) == old(w.sent) + ToldAll(start, ops, w)
    {
      assert ops[i] in ops && ops[i..][0] == ops[i] && ops[i..][1..] == ops[i + 1..];
      Perform(m, ops[i], sockets);
      i := i + 1;
    }
  }
}
