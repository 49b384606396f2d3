/** The signaling relay: one process owning the `clients` registry, one
    `userId` variable per open WebSocket connection, and the sockets' send
    calls. The behaviour is given twice: as step functions over `RelayState`
    (used by the lemmas) and as the class `SignalingServer`, whose handlers,
    written the way the relay runs them, are proved to compute those steps. */
module Relay {
  import opened Json
  import opened Registry

  /** One `ws.send(JSON.stringify(m))`: the receiving socket and the value its
      peer parses out of the frame. */
  datatype Delivery = Delivery(to: SocketId, msg: Value)

  /** `clients`, the `userId` variable of every open connection, every send in
      order, and the next unused socket handle. */
  datatype RelayState = RelayState(
    clients: seq<Entry>,
    sessions: map<SocketId, Value>,
    sent: seq<Delivery>,
    nextSocket: nat)

  predicate WellFormed(st: RelayState)
  {
    && DistinctKeys(st.clients)
    && (forall ws :: ws in st.sessions ==> ws < st.nextSocket)
  }

  const Initial := RelayState([], map[], [], 0)

  /** The `type` field values the relay acts on. */
  predicate IsRoutedType(t: Value)
  {
    t == Str("offer") || t == Str("answer") || t == Str("ice-candidate")
  }

  /** `{ id, name, connected: false }`: how the relay describes a peer. */
  function PeerInfo(id: Value, name: Value): Value
  {
    Obj(map["id" := id, "name" := name, "connected" := Bool(false)])
  }

  /** The reply to `register`: every other registered user, in order. */
  function PeerListMessage(clients: seq<Entry>, userId: Value): Value
  {
    Obj(map["type" := Str("peer-list"), "peers" := Arr(PeerList(clients, userId))])
  }

  /** The notice sent to the others when `userId` registers. */
  function PeerJoined(userId: Value, name: Value): Value
  {
    Obj(map["type" := Str("peer-joined"), "peer" := PeerInfo(userId, name)])
  }

  /** The notice sent to the others when `userId`'s socket closes. */
  function PeerLeft(userId: Value): Value
  {
    Obj(map["type" := Str("peer-left"), "peerId" := userId])
  }

  /** What a client reads from a serialised peer record: the id and name as
      they survive JSON, and `connected` false. */
  lemma PeerInfoReads(id: Value, name: Value)
    ensures var r := Wire(PeerInfo(id, name));
            && Get(r, "id") == Wire(id) && Get(r, "name") == Wire(name)
            && Get(r, "connected") == Bool(false)
  {
    var fields := map["id" := id, "name" := name, "connected" := Bool(false)];
    WireGet(fields, "id");
    WireGet(fields, "name");
    WireGet(fields, "connected");
  }

  /** What a client reads from a serialised `peer-list`: its type, and one
      record per other registered user, in registry order. */
  lemma PeerListMessageReads(clients: seq<Entry>, userId: Value)
    ensures var r := Wire(PeerListMessage(clients, userId));
            && Get(r, "type") == Str("peer-list")
            && Get(r, "peers") == Wire(Arr(PeerList(clients, userId)))
            && |Get(r, "peers").items| == |PeerList(clients, userId)|
  {
    var fields := map["type" := Str("peer-list"), "peers" := Arr(PeerList(clients, userId))];
    WireGet(fields, "type");
    WireGet(fields, "peers");
  }

  /** What a client reads from a serialised `peer-joined`: its type, and the
      new user's peer record. */
  lemma PeerJoinedReads(userId: Value, name: Value)
    ensures var r := Wire(PeerJoined(userId, name));
            && Get(r, "type") == Str("peer-joined")
            && Get(r, "peer") == Wire(PeerInfo(userId, name))
  {
    var fields := map["type" := Str("peer-joined"), "peer" := PeerInfo(userId, name)];
    WireGet(fields, "type");
    WireGet(fields, "peer");
  }

  /** What a client reads from a serialised `peer-left`: its type, and the
      departed user's id as it survives JSON. */
  lemma PeerLeftReads(userId: Value)
    ensures var r := Wire(PeerLeft(userId));
            && Get(r, "type") == Str("peer-left")
            && Get(r, "peerId") == Wire(userId)
  {
    var fields := map["type" := Str("peer-left"), "peerId" := userId];
    WireGet(fields, "type");
    WireGet(fields, "peerId");
  }

  /** `{ ...data, sourceId: userId }`: the client's fields, with `sourceId`
      added or overwritten. */
  function Forwarded(fields: map<string, Value>, userId: Value): (r: Value)
    ensures Get(r, "sourceId") == userId
    ensures forall k :: k != "sourceId" ==> Get(r, k) == Get(Obj(fields), k)
  {
    Obj(fields["sourceId" := userId])
  }

  /** The registry entries whose id is not `self`, in registry order. */
  function Others(es: seq<Entry>, self: Value): (r: seq<Entry>)
    ensures |r| <= |es|
  {
    if es == [] then []
    else
      var last := es[|es| - 1];
      Others(es[..|es| - 1], self) + (if last.id != self then [last] else [])
  }

  /** `Others` keeps exactly the entries with another id. */
  lemma {:induction false} OthersMembers(es: seq<Entry>, self: Value)
    ensures forall e :: e in Others(es, self) <==> e in es && e.id != self
  {
    if es != [] {
      var init := es[..|es| - 1];
      OthersMembers(init, self);
      assert es == init + [es[|es| - 1]];
    }
  }

  /** With distinct keys, leaving out a registered id leaves out exactly one entry. */
  lemma {:induction false} OthersLength(es: seq<Entry>, self: Value)
    requires DistinctKeys(es)
    ensures |Others(es, self)| == if self in Keys(es) then |es| - 1 else |es|
  {
    if es != [] {
      var init, last := es[..|es| - 1], es[|es| - 1];
      assert DistinctKeys(init);
      OthersLength(init, self);
      OthersMembers(init, self);
      KeysIn(es, self);
      KeysIn(init, self);
      if last.id == self {
        assert self !in Keys(init);
      } else if self in Keys(es) {
        var i :| 0 <= i < |es| && es[i].id == self;
        assert i < |es| - 1 && init[i].id == self;
      }
    }
  }

  /** The `peers` array of the `peer-list` reply: `filter` out the caller, then
      `map` each remaining entry to `{ id, name, connected: false }`. */
  function PeerList(clients: seq<Entry>, userId: Value): (r: seq<Value>)
    ensures |r| <= |clients|
    ensures forall i :: 0 <= i < |r| ==> Get(r[i], "id") != userId && Get(r[i], "connected") == Bool(false)
  {
    var others := Others(clients, userId);
    OthersMembers(clients, userId);
    assert forall i :: 0 <= i < |others| ==> others[i] in others;
    seq(|others|, i requires 0 <= i < |others| =>
      PeerInfo(others[i].id, others[i].client.username))
  }

  /** The sends of `broadcastToOthers(senderId, m)`, in registry order. */
  function Broadcast(es: seq<Entry>, senderId: Value, wire: Value): (r: seq<Delivery>)
    ensures |r| <= |es|
    ensures forall i :: 0 <= i < |r| ==> r[i].msg == wire
  {
    if es == [] then []
    else
      var last := es[|es| - 1];
      Broadcast(es[..|es| - 1], senderId, wire)
        + (if last.id != senderId then [Delivery(last.client.ws, wire)] else [])
  }

  /** `register`. */
  function HandleRegister(st: RelayState, ws: SocketId, data: Value): (r: RelayState)
    requires WellFormed(st) && ws in st.sessions
    ensures WellFormed(r)
    ensures Lookup(r.clients, Get(data, "userId")) == Some(Client(ws, Get(data, "username")))
    ensures forall k :: k != Get(data, "userId") ==> Lookup(r.clients, k) == Lookup(st.clients, k)
    ensures r.sessions == st.sessions[ws := Get(data, "userId")] && r.nextSocket == st.nextSocket
    ensures |r.sent| > |st.sent| && r.sent[..|st.sent|] == st.sent
    ensures r.sent[|st.sent|] == Delivery(ws, Wire(PeerListMessage(r.clients, Get(data, "userId"))))
    ensures r.sent[|st.sent| + 1..] ==
            Broadcast(r.clients, Get(data, "userId"), Wire(PeerJoined(Get(data, "userId"), Get(data, "username"))))
  {
    var userId := Get(data, "userId");
    var name := Get(data, "username");
    var clients := Set(st.clients, userId, Client(ws, name));
    st.(clients := clients,
        sessions := st.sessions[ws := userId],
        sent := st.sent + [Delivery(ws, Wire(PeerListMessage(clients, userId)))]
                + Broadcast(clients, userId, Wire(PeerJoined(userId, name))))
  }

  /** `HandleRegister` as one record update. */
  lemma RegisterUnfolds(st: RelayState, ws: SocketId, data: Value)
    requires WellFormed(st) && ws in st.sessions
    ensures var userId, name := Get(data, "userId"), Get(data, "username");
            var clients := Set(st.clients, userId, Client(ws, name));
            HandleRegister(st, ws, data) ==
              RelayState(clients, st.sessions[ws := userId],
                         st.sent + [Delivery(ws, Wire(PeerListMessage(clients, userId)))]
                           + Broadcast(clients, userId, Wire(PeerJoined(userId, name))),
                         st.nextSocket)
  {
  }

  /** A state assembled from the three parts of `register` is its result. */
  lemma RegisterResult(st: RelayState, ws: SocketId, data: Value,
                       clients: seq<Entry>, sessions: map<SocketId, Value>, sent: seq<Delivery>)
    requires WellFormed(st) && ws in st.sessions
    requires var userId, name := Get(data, "userId"), Get(data, "username");
             && clients == Set(st.clients, userId, Client(ws, name))
             && sessions == st.sessions[ws := userId]
             && sent == st.sent + [Delivery(ws, Wire(PeerListMessage(clients, userId)))]
                          + Broadcast(clients, userId, Wire(PeerJoined(userId, name)))
    ensures RelayState(clients, sessions, sent, st.nextSocket) == HandleRegister(st, ws, data)
  {
    RegisterUnfolds(st, ws, data);
  }

  /** `register` touches only the connection's own `userId`, keeps the
      handles, and only appends to the sends. */
  lemma RegisterKeepsFrame(st: RelayState, ws: SocketId, data: Value)
    requires WellFormed(st) && ws in st.sessions
    ensures var r := HandleRegister(st, ws, data);
            && r.nextSocket == st.nextSocket && r.sessions.Keys == st.sessions.Keys
            && st.sent <= r.sent
            && forall s :: s in st.sessions && s != ws ==> r.sessions[s] == st.sessions[s]
  {
    var r := HandleRegister(st, ws, data);
    assert st.sent == r.sent[..|st.sent|];
  }

  /** `offer`, `answer`, `ice-candidate`: forwarded only to a registered target. */
  function HandleRoute(st: RelayState, ws: SocketId, fields: map<string, Value>): (r: RelayState)
    requires ws in st.sessions
    ensures r.clients == st.clients && r.sessions == st.sessions && r.nextSocket == st.nextSocket
    ensures Lookup(st.clients, Get(Obj(fields), "targetId")).None? ==> r == st
    ensures Lookup(st.clients, Get(Obj(fields), "targetId")).Some? ==>
              var target := Lookup(st.clients, Get(Obj(fields), "targetId")).value;
              var userId := st.sessions[ws];
              && |r.sent| == |st.sent| + 1 && r.sent[..|st.sent|] == st.sent
              && r.sent[|st.sent|].to == target.ws
              && Get(r.sent[|st.sent|].msg, "sourceId") == (if userId == Undefined then Undefined else Wire(userId))
              && forall k :: k != "sourceId" ==> Get(r.sent[|st.sent|].msg, k) == Get(Wire(Obj(fields)), k)
  {
    var target := Lookup(st.clients, Get(Obj(fields), "targetId"));
    if target.None? then st
    else
      var userId := st.sessions[ws];
      WireGet(fields["sourceId" := userId], "sourceId");
      forall k | k != "sourceId"
        ensures Get(Wire(Forwarded(fields, userId)), k) == Get(Wire(Obj(fields)), k)
      {
        WireGet(fields["sourceId" := userId], k);
        WireGet(fields, k);
      }
      st.(sent := st.sent + [Delivery(target.value.ws, Wire(Forwarded(fields, userId)))])
  }

  /** The `message` handler of connection `ws`; `frame` is `None` when
      JSON.parse throws. Only `register` touches the registry and the
      connection's `userId`; every other message at most sends one frame; a
      parse failure or any other `type` (`signal` included) changes nothing. */
  function HandleMessage(st: RelayState, ws: SocketId, frame: Option<Value>): (r: RelayState)
    requires WellFormed(st) && ws in st.sessions
    ensures WellFormed(r)
    ensures r.nextSocket == st.nextSocket && r.sessions.Keys == st.sessions.Keys
    ensures st.sent <= r.sent
    ensures forall s :: s in st.sessions && s != ws ==> r.sessions[s] == st.sessions[s]
    ensures frame.None? ==> r == st
    ensures frame.Some? && Get(frame.value, "type") != Str("register") ==>
              r.clients == st.clients && r.sessions == st.sessions
    ensures (frame.Some? && Get(frame.value, "type") != Str("register") &&
             !IsRoutedType(Get(frame.value, "type"))) ==> r == st
    ensures frame.Some? && IsRoutedType(Get(frame.value, "type")) ==> |r.sent| <= |st.sent| + 1
  {
    if frame.None? then st
    else
      var data := frame.value;
      var t := Get(data, "type");
      if t == Str("register") then
        RegisterKeepsFrame(st, ws, data);
        HandleRegister(st, ws, data)
      else if IsRoutedType(t) then
        assert data.Obj?;
        HandleRoute(st, ws, data.fields)
      else st
  }

  /** The `close` handler of connection `ws`: a set (truthy) `userId` is
      deleted from the registry, whatever socket holds it now, and `peer-left`
      goes to every remaining client; otherwise only the connection goes away. */
  function HandleClose(st: RelayState, ws: SocketId): (r: RelayState)
    requires WellFormed(st) && ws in st.sessions
    ensures WellFormed(r)
    ensures ws !in r.sessions && r.sessions == st.sessions - {ws}
    ensures st.sent <= r.sent
    ensures Truthy(st.sessions[ws]) ==>
              && Lookup(r.clients, st.sessions[ws]) == None
              && (forall k :: k != st.sessions[ws] ==> Lookup(r.clients, k) == Lookup(st.clients, k))
    ensures !Truthy(st.sessions[ws]) ==> r.clients == st.clients && r.sent == st.sent
  {
    var userId := st.sessions[ws];
    var sessions := st.sessions - {ws};
    if !Truthy(userId) then st.(sessions := sessions)
    else
      var clients := Delete(st.clients, userId);
      st.(clients := clients, sessions := sessions,
          sent := st.sent + Broadcast(clients, userId, Wire(PeerLeft(userId))))
  }

  /** A new connection: a fresh socket whose `userId` starts as `null`. */
  function HandleConnect(st: RelayState): (r: (RelayState, SocketId))
    requires WellFormed(st)
    ensures WellFormed(r.0)
    ensures r.1 !in st.sessions && r.0.sessions == st.sessions[r.1 := Null]
    ensures r.0.clients == st.clients && r.0.sent == st.sent
  {
    var ws := st.nextSocket;
    (st.(sessions := st.sessions[ws := Null], nextSocket := ws + 1), ws)
  }

  /** The relay's events, as the WebSocket server delivers them. */
  datatype Event = Connect | Message(ws: SocketId, frame: Option<Value>) | Close(ws: SocketId)

  /** One event. Only open connections produce messages and closes. */
  function Step(st: RelayState, ev: Event): (r: RelayState)
    requires WellFormed(st)
    ensures WellFormed(r)
  {
    match ev
    case Connect => HandleConnect(st).0
    case Message(ws, frame) => if ws in st.sessions then HandleMessage(st, ws, frame) else st
    case Close(ws) => if ws in st.sessions then HandleClose(st, ws) else st
  }

  function Run(st: RelayState, evs: seq<Event>): (r: RelayState)
    requires WellFormed(st)
    ensures WellFormed(r)
    decreases |evs|
  {
    if evs == [] then st else Run(Step(st, evs[0]), evs[1..])
  }

  class SignalingServer {
    var clients: seq<Entry>
    var sessions: map<SocketId, Value>
    var sent: seq<Delivery>
    var nextSocket: nat

    function State(): RelayState
      reads this
    {
      RelayState(clients, sessions, sent, nextSocket)
    }

    constructor ()
      ensures State() == Initial
    {
      clients, sessions, sent, nextSocket := [], map[], [], 0;
    }

    /** `wss.on('connection')`: a fresh socket with `userId = null`. */
    method Connect() returns (ws: SocketId)
      requires WellFormed(State())
      modifies this
      ensures (State(), ws) == HandleConnect(old(State()))
    {
      ws := nextSocket;
      sessions := sessions[ws := Null];
      nextSocket := nextSocket + 1;
    }

    /** `ws.send(JSON.stringify(message))`. */
    method Send(ws: SocketId, message: Value)
      modifies this`sent
      ensures sent == old(sent) + [Delivery(ws, Wire(message))]
    {
      sent := sent + [Delivery(ws, Wire(message))];
    }

    /** `broadcastToOthers`: a loop over the registry in insertion order. */
    method BroadcastToOthers(senderId: Value, message: Value)
      modifies this`sent
      ensures sent == old(sent) + Broadcast(clients, senderId, Wire(message))
    {
      var i := 0;
      while i < |clients|
        invariant 0 <= i <= |clients|
        invariant sent == old(sent) + Broadcast(clients[..i], senderId, Wire(message))
      {
        var entry := clients[i];
        if entry.id != senderId {
          Send(entry.client.ws, message);
        }
        assert clients[..i + 1][..i] == clients[..i];
        i := i + 1;
      }
      assert clients[..i] == clients;
    }

    /** `ws.on('message')` for connection `ws`. */
    method OnMessage(ws: SocketId, frame: Option<Value>)
      requires WellFormed(State()) && ws in sessions
      modifies this
      ensures State() == HandleMessage(old(State()), ws, frame)
    {
      if frame.None? {
        return;
      }
      var data := frame.value;
      var t := Get(data, "type");
      if t == Str("register") {
        Register(ws, data);
      } else if IsRoutedType(t) {
        Route(ws, data.fields);
      }
    }

    /** The `register` case of the message handler. */
    method Register(ws: SocketId, data: Value)
      requires WellFormed(State()) && ws in sessions
      modifies this
      ensures State() == HandleRegister(old(State()), ws, data)
    {
      ghost var before := State();
      var userId := Get(data, "userId");
      var name := Get(data, "username");
      sessions := sessions[ws := userId];
      clients := Set(clients, userId, Client(ws, name));
      Send(ws, PeerListMessage(clients, userId));
      BroadcastToOthers(userId, PeerJoined(userId, name));
      RegisterResult(before, ws, data, clients, sessions, sent);
    }

    /** The `offer` / `answer` / `ice-candidate` case of the message handler. */
    method Route(ws: SocketId, fields: map<string, Value>)
      requires ws in sessions
      modifies this
      ensures State() == HandleRoute(old(State()), ws, fields)
    {
      var target := Lookup(clients, Get(Obj(fields), "targetId"));
      if target.Some? {
        Send(target.value.ws, Forwarded(fields, sessions[ws]));
      }
    }

    /** `ws.on('close')` for connection `ws`. */
    method OnClose(ws: SocketId)
      requires WellFormed(State()) && ws in sessions
      modifies this
      ensures State() == HandleClose(old(State()), ws)
    {
      var userId := sessions[ws];
      if Truthy(userId) {
        clients := Delete(clients, userId);
        BroadcastToOthers(userId, PeerLeft(userId));
      }
      sessions := sessions - {ws};
    }
  }
}
