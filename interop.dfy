/** The browser client and the relay put together. The two sides do not
    speak the same vocabulary: the client registers without a `userId`,
    sends `signal` frames the relay does not route, and listens for
    `signal` and `peers` frames the relay never sends. */
module Interop {
  import opened Json
  import opened Registry
  import opened Relay
  import opened RelayFacts
  import opened ClientSignaling

  /** What a client can put on its socket. */
  datatype ClientFrame =
    | RegisterFrame(user: string)
    | SignalFrame(from: Value, to: string, signal: Value)

  /** The frame as the relay parses it. */
  function Encode(f: ClientFrame): Value
  {
    match f
    case RegisterFrame(user) => Wire(RegisterEnvelope(user))
    case SignalFrame(from, to, signal) => Wire(SignalEnvelope(from, to, signal))
  }

  /** A client `register(user)` is filed under the key `undefined`, and the
      connection's `userId` becomes `undefined`. */
  lemma ClientRegisterKeyedUndefined(st: RelayState, ws: SocketId, user: string)
    requires WellFormed(st) && ws in st.sessions
    ensures var r := HandleMessage(st, ws, Some(Encode(RegisterFrame(user))));
            && Lookup(r.clients, Undefined) == Some(Client(ws, Str(user)))
            && r.sessions[ws] == Undefined
  {
    WireKeepsJson(RegisterEnvelope(user));
  }

  /** A client `sendSignal` reaches the relay and goes no further. */
  lemma ClientSignalDropped(st: RelayState, ws: SocketId, from: Value, to: string, signal: Value)
    requires WellFormed(st) && ws in st.sessions
    ensures HandleMessage(st, ws, Some(Encode(SignalFrame(from, to, signal)))) == st
  {
    WireGet(map["type" := Str("signal"), "from" := from, "to" := Str(to), "signal" := signal], "type");
  }

  /** The only frame such a relay ever sends: a `peer-list` with no peers. */
  const EmptyPeerList := Obj(map["type" := Str("peer-list"), "peers" := Arr([])])

  /** What a population of these clients can make the relay do. */
  datatype ClientEvent = Open | Send(ws: SocketId, frame: ClientFrame) | Hangup(ws: SocketId)

  function AsRelayEvent(e: ClientEvent): Event
  {
    match e
    case Open => Connect
    case Send(ws, f) => Message(ws, Some(Encode(f)))
    case Hangup(ws) => Close(ws)
  }

  function AsRelayEvents(es: seq<ClientEvent>): (r: seq<Event>)
    ensures |r| == |es|
    ensures forall i :: 0 <= i < |es| ==> r[i] == AsRelayEvent(es[i])
  {
    seq(|es|, i requires 0 <= i < |es| => AsRelayEvent(es[i]))
  }

  /** The relay state such clients keep the relay in: at most one entry,
      keyed `undefined`; no connection with a set `userId`; every frame sent
      an empty `peer-list`. */
  predicate Degenerate(st: RelayState)
  {
    && WellFormed(st)
    && (st.clients == [] || (|st.clients| == 1 && st.clients[0].id == Undefined))
    && (forall s :: s in st.sessions ==> !Truthy(st.sessions[s]))
    && (forall i :: 0 <= i < |st.sent| ==> st.sent[i].msg == EmptyPeerList)
  }

  lemma EmptyPeerListWire(c: Client)
    ensures Wire(PeerListMessage([Entry(Undefined, c)], Undefined)) == EmptyPeerList
  {
    var es := [Entry(Undefined, c)];
    assert es[..0] == [];
    assert Others(es, Undefined) == [];
    assert PeerList(es, Undefined) == [];
    assert Wire(Arr([])) == Arr([]);
    assert Wire(PeerListMessage(es, Undefined)).fields == EmptyPeerList.fields;
  }

  /** At most one entry, keyed `undefined`, and it is overwritten. */
  lemma SetUndefined(es: seq<Entry>, c: Client)
    requires es == [] || (|es| == 1 && es[0].id == Undefined)
    ensures DistinctKeys(es) && Set(es, Undefined, c) == [Entry(Undefined, c)]
  {
    if es != [] {
      assert es[1..] == [];
    }
  }

  /** A client `register` adds nothing but an empty `peer-list` reply. */
  lemma RegisterDegenerate(st: RelayState, ws: SocketId, user: string)
    requires Degenerate(st) && ws in st.sessions
    ensures Degenerate(HandleMessage(st, ws, Some(Encode(RegisterFrame(user)))))
  {
    var data := Encode(RegisterFrame(user));
    WireKeepsJson(RegisterEnvelope(user));
    assert Get(data, "type") == Str("register");
    var c := Client(ws, Str(user));
    RegisterUndefined(st, ws, data, c);
    DegenerateAfterRegister(st, ws, c);
  }

  /** Registering under `undefined` over at most one `undefined` entry. */
  lemma RegisterUndefined(st: RelayState, ws: SocketId, data: Value, c: Client)
    requires WellFormed(st) && ws in st.sessions
    requires st.clients == [] || (|st.clients| == 1 && st.clients[0].id == Undefined)
    requires Get(data, "userId") == Undefined && c == Client(ws, Get(data, "username"))
    ensures HandleRegister(st, ws, data) ==
            st.(clients := [Entry(Undefined, c)], sessions := st.sessions[ws := Undefined],
                sent := st.sent + [Delivery(ws, EmptyPeerList)])
  {
    var es := [Entry(Undefined, c)];
    SetUndefined(st.clients, c);
    assert es[..0] == [];
    assert Broadcast(es, Undefined, Wire(PeerJoined(Undefined, c.username))) == [];
    EmptyPeerListWire(c);
    assert st.sent + [Delivery(ws, EmptyPeerList)] + [] == st.sent + [Delivery(ws, EmptyPeerList)];
  }

  lemma DegenerateAfterRegister(st: RelayState, ws: SocketId, c: Client)
    requires Degenerate(st) && ws in st.sessions
    ensures Degenerate(st.(clients := [Entry(Undefined, c)], sessions := st.sessions[ws := Undefined],
                           sent := st.sent + [Delivery(ws, EmptyPeerList)]))
  {
  }

  lemma StepDegenerate(st: RelayState, e: ClientEvent)
    requires Degenerate(st)
    ensures Degenerate(Step(st, AsRelayEvent(e)))
  {
    match e
    case Open =>
    case Hangup(ws) =>
    case Send(ws, f) =>
      if ws in st.sessions {
        match f
        case SignalFrame(from, to, signal) =>
          ClientSignalDropped(st, ws, from, to, signal);
        case RegisterFrame(user) =>
          RegisterDegenerate(st, ws, user);
      }
  }

  lemma {:induction false} RunDegenerate(st: RelayState, es: seq<ClientEvent>)
    requires Degenerate(st)
    ensures Degenerate(Run(st, AsRelayEvents(es)))
    decreases |es|
  {
    if es != [] {
      StepDegenerate(st, es[0]);
      assert AsRelayEvents(es)[1..] == AsRelayEvents(es[1..]);
      RunDegenerate(Step(st, AsRelayEvent(es[0])), es[1..]);
    }
  }

  /** However many of these clients connect, register, signal and leave, the
      relay holds at most one registry entry, under `undefined`, and every
      frame it sends is a `peer-list` with no peers: no one ever learns of
      another peer, and no `peer-joined`, `peer-left` or forwarded signal is
      ever sent. */
  lemma ClientsNeverMeet(es: seq<ClientEvent>)
    ensures var st := Run(Initial, AsRelayEvents(es));
            && |st.clients| <= 1
            && (forall e :: e in st.clients ==> e.id == Undefined)
            && (forall i :: 0 <= i < |st.sent| ==> st.sent[i].msg == EmptyPeerList)
  {
    RunDegenerate(Initial, es);
  }

  /** Nothing the relay sends, to any client, ever reaches the client's
      `onSignal` or `onPeerListUpdate` callback: the relay's frames are
      typed `peer-list`, `peer-joined`, `peer-left`, `offer`, `answer` or
      `ice-candidate`, never `signal` or `peers`. */
  lemma RelayNeverReachesCallbacks(evs: seq<Event>, i: nat, username: Value)
    requires i < |Run(Initial, evs).sent|
    ensures AcceptSignal(Some(Run(Initial, evs).sent[i].msg)) == None
    ensures PeerListUpdate(Some(Run(Initial, evs).sent[i].msg), username) == None
  {
    RunTyped(Initial, evs);
  }
}
