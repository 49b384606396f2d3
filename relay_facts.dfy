/** Properties of the relay: who receives `peer-list`, `peer-joined` and
    `peer-left`, what re-registration and close do to the registry, and which
    message types the relay can ever send. */
module RelayFacts {
  import opened Json
  import opened Registry
  import opened Relay

  /** How many of the sends `ds` went to socket `s`. */
  function CountTo(ds: seq<Delivery>, s: SocketId): nat
  {
    if ds == [] then 0
    else CountTo(ds[..|ds| - 1], s) + (if ds[|ds| - 1].to == s then 1 else 0)
  }

  /** No socket holds two registry entries. */
  predicate OneIdPerSocket(es: seq<Entry>)
  {
    forall i, j :: 0 <= i < j < |es| ==> es[i].client.ws != es[j].client.ws
  }

  /** `broadcastToOthers` sends one copy per registry entry whose id is not the
      sender's, in registry order, to that entry's socket, and nothing else. */
  lemma {:induction false} BroadcastIsOthers(es: seq<Entry>, senderId: Value, wire: Value)
    ensures |Broadcast(es, senderId, wire)| == |Others(es, senderId)|
    ensures forall i :: 0 <= i < |Others(es, senderId)| ==>
              Broadcast(es, senderId, wire)[i] == Delivery(Others(es, senderId)[i].client.ws, wire)
  {
    if es != [] {
      BroadcastIsOthers(es[..|es| - 1], senderId, wire);
    }
  }

  /** The recipients of a broadcast are exactly the sockets of the entries
      with another id. */
  lemma BroadcastRecipients(es: seq<Entry>, senderId: Value, wire: Value)
    ensures forall d :: d in Broadcast(es, senderId, wire) ==>
              d.msg == wire && exists e :: e in es && e.id != senderId && e.client.ws == d.to
    ensures forall e :: e in es && e.id != senderId ==>
              Delivery(e.client.ws, wire) in Broadcast(es, senderId, wire)
  {
    BroadcastIsOthers(es, senderId, wire);
    OthersMembers(es, senderId);
    var others := Others(es, senderId);
    forall d | d in Broadcast(es, senderId, wire)
      ensures d.msg == wire && exists e :: e in es && e.id != senderId && e.client.ws == d.to
    {
      var i :| 0 <= i < |Broadcast(es, senderId, wire)| && Broadcast(es, senderId, wire)[i] == d;
      assert others[i] in others;
    }
    forall e | e in es && e.id != senderId
      ensures Delivery(e.client.ws, wire) in Broadcast(es, senderId, wire)
    {
      assert e in others;
      var i :| 0 <= i < |others| && others[i] == e;
      assert Broadcast(es, senderId, wire)[i] == Delivery(e.client.ws, wire);
    }
  }

  /** Some entry at socket `s` is registered under an id other than `senderId`. */
  predicate HoldsOther(es: seq<Entry>, s: SocketId, senderId: Value)
  {
    exists e :: e in es && e.client.ws == s && e.id != senderId
  }

  lemma HoldsOtherSnoc(init: seq<Entry>, last: Entry, s: SocketId, senderId: Value)
    ensures HoldsOther(init + [last], s, senderId) <==>
            HoldsOther(init, s, senderId) || (last.client.ws == s && last.id != senderId)
  {
    var es := init + [last];
    if HoldsOther(es, s, senderId) {
      var e :| e in es && e.client.ws == s && e.id != senderId;
      if e != last {
        assert e in init;
      }
    }
    if HoldsOther(init, s, senderId) {
      var e :| e in init && e.client.ws == s && e.id != senderId;
      assert e in es;
    }
  }

  lemma CountToSnoc(ds: seq<Delivery>, d: Delivery, s: SocketId)
    ensures CountTo(ds + [d], s) == CountTo(ds, s) + (if d.to == s then 1 else 0)
  {
    assert (ds + [d])[..|ds|] == ds;
  }

  /** The last entry's socket holds no earlier entry. */
  lemma LastSocketFresh(es: seq<Entry>, senderId: Value)
    requires es != [] && OneIdPerSocket(es)
    ensures !HoldsOther(es[..|es| - 1], es[|es| - 1].client.ws, senderId)
  {
    var init := es[..|es| - 1];
    forall e | e in init ensures e.client.ws != es[|es| - 1].client.ws {
      var i :| 0 <= i < |init| && init[i] == e;
      assert es[i].client.ws != es[|es| - 1].client.ws;
    }
  }

  /** When no socket holds two entries, each socket receives a broadcast
      exactly once if it holds an entry with another id, and never otherwise;
      in particular the sender's own socket receives nothing. */
  lemma {:induction false} BroadcastOnce(es: seq<Entry>, senderId: Value, wire: Value, s: SocketId)
    requires OneIdPerSocket(es)
    ensures CountTo(Broadcast(es, senderId, wire), s) == if HoldsOther(es, s, senderId) then 1 else 0
  {
    if es != [] {
      var init, last := es[..|es| - 1], es[|es| - 1];
      assert OneIdPerSocket(init);
      BroadcastOnce(init, senderId, wire, s);
      var prev := Broadcast(init, senderId, wire);
      assert es == init + [last];
      HoldsOtherSnoc(init, last, s, senderId);
      if last.id != senderId {
        var d := Delivery(last.client.ws, wire);
        assert Broadcast(es, senderId, wire) == prev + [d];
        CountToSnoc(prev, d, s);
        if last.client.ws == s {
          LastSocketFresh(es, senderId);
        }
      } else {
        assert Broadcast(es, senderId, wire) == prev + [];
        assert prev + [] == prev;
      }
    }
  }

  /** `Others`, read from the front. */
  lemma {:induction false} OthersCons(e: Entry, rest: seq<Entry>, self: Value)
    ensures Others([e] + rest, self) == (if e.id != self then [e] else []) + Others(rest, self)
    decreases |rest|
  {
    var es := [e] + rest;
    if rest != [] {
      var init, last := rest[..|rest| - 1], rest[|rest| - 1];
      assert es[..|es| - 1] == [e] + init;
      assert es[|es| - 1] == last;
      OthersCons(e, init, self);
      var head := if e.id != self then [e] else [];
      var tail := if last.id != self then [last] else [];
      assert Others(es, self) == Others([e] + init, self) + tail;
      assert Others(rest, self) == Others(init, self) + tail;
      assert Others(es, self) == head + Others(init, self) + tail;
    } else {
      assert es[..0] == [];
      assert Others(es, self) == Others([], self) + (if e.id != self then [e] else []);
    }
  }

  /** Overwriting or adding the caller's own entry leaves everybody else's
      entries, and their order, as they were. */
  lemma {:induction false} OthersAfterSet(es: seq<Entry>, k: Value, c: Client)
    requires DistinctKeys(es)
    ensures Others(Set(es, k, c), k) == Others(es, k)
  {
    if es == [] {
      assert Set(es, k, c) == [Entry(k, c)];
      OthersCons(Entry(k, c), [], k);
    } else if es[0].id == k {
      assert Set(es, k, c) == [Entry(k, c)] + es[1..];
      OthersReplaceHead(es, Entry(k, c), k);
    } else {
      DistinctCons(es[0], es[1..]);
      OthersAfterSet(es[1..], k, c);
      var s := Set(es, k, c);
      var rest := Set(es[1..], k, c);
      assert s == [es[0]] + rest;
      OthersSameTail(es, rest, k);
      assert Others(s, k) == Others([es[0]] + rest, k);
    }
  }

  /** Replacing an entry carrying the caller's id changes nothing in `Others`. */
  lemma OthersReplaceHead(es: seq<Entry>, e: Entry, k: Value)
    requires es != [] && es[0].id == k && e.id == k
    ensures Others([e] + es[1..], k) == Others(es, k)
  {
    assert es == [es[0]] + es[1..];
    OthersCons(es[0], es[1..], k);
    OthersCons(e, es[1..], k);
  }

  lemma OthersSameTail(es: seq<Entry>, rest: seq<Entry>, k: Value)
    requires es != [] && Others(rest, k) == Others(es[1..], k)
    ensures Others([es[0]] + rest, k) == Others(es, k)
  {
    assert es == [es[0]] + es[1..];
    OthersCons(es[0], es[1..], k);
    OthersCons(es[0], rest, k);
  }

  /** The `peers` array lists every entry with another id, with its stored
      username and `connected: false`, and nothing else; with distinct ids
      that is one fewer than the registry size once the caller is in it. */
  lemma PeerListExact(es: seq<Entry>, userId: Value)
    requires DistinctKeys(es)
    ensures |PeerList(es, userId)| == if userId in Keys(es) then |es| - 1 else |es|
    ensures forall p :: p in PeerList(es, userId) <==>
              exists e :: e in es && e.id != userId && p == PeerInfo(e.id, e.client.username)
  {
    OthersLength(es, userId);
    OthersMembers(es, userId);
    var others := Others(es, userId);
    var peers := PeerList(es, userId);
    forall p | p in peers
      ensures exists e :: e in es && e.id != userId && p == PeerInfo(e.id, e.client.username)
    {
      var i :| 0 <= i < |peers| && peers[i] == p;
      assert others[i] in others;
    }
    forall e | e in es && e.id != userId
      ensures PeerInfo(e.id, e.client.username) in peers
    {
      assert e in others;
      var i :| 0 <= i < |others| && others[i] == e;
      assert peers[i] == PeerInfo(e.id, e.client.username);
    }
  }

  /** After `register` with id `u` from socket `ws`: the reply to `ws` lists
      the previously registered clients other than `u` in registry order, and
      `peer-joined` for `u` goes, in the same order, once to each of their
      sockets and to no other. */
  lemma RegisterNotifies(st: RelayState, ws: SocketId, data: Value)
    requires WellFormed(st) && ws in st.sessions
    ensures var r := HandleRegister(st, ws, data);
            var u := Get(data, "userId");
            var others := Others(st.clients, u);
            var joined := Wire(PeerJoined(u, Get(data, "username")));
            && r.sent[|st.sent|] == Delivery(ws, Wire(PeerListMessage(r.clients, u)))
            && PeerList(r.clients, u) == PeerList(st.clients, u)
            && |r.sent| == |st.sent| + 1 + |others|
            && forall i :: 0 <= i < |others| ==>
                 r.sent[|st.sent| + 1 + i] == Delivery(others[i].client.ws, joined)
  {
    RegisterReply(st, ws, data);
    RegisterJoinedOrder(st, ws, data);
  }

  /** The reply of `register` lists the same peers as before the call. */
  lemma RegisterReply(st: RelayState, ws: SocketId, data: Value)
    requires WellFormed(st) && ws in st.sessions
    ensures var r := HandleRegister(st, ws, data);
            var u := Get(data, "userId");
            && r.sent[|st.sent|] == Delivery(ws, Wire(PeerListMessage(r.clients, u)))
            && PeerList(r.clients, u) == PeerList(st.clients, u)
  {
    var u := Get(data, "userId");
    var r := HandleRegister(st, ws, data);
    assert r.clients == Set(st.clients, u, Client(ws, Get(data, "username"))) by {
      RegisterUnfolds(st, ws, data);
    }
    OthersAfterSet(st.clients, u, Client(ws, Get(data, "username")));
  }

  /** The `peer-joined` sends of `register`, by index. */
  lemma RegisterJoinedOrder(st: RelayState, ws: SocketId, data: Value)
    requires WellFormed(st) && ws in st.sessions
    ensures var r := HandleRegister(st, ws, data);
            var u := Get(data, "userId");
            var others := Others(st.clients, u);
            var joined := Wire(PeerJoined(u, Get(data, "username")));
            && |r.sent| == |st.sent| + 1 + |others|
            && forall i :: 0 <= i < |others| ==>
                 r.sent[|st.sent| + 1 + i] == Delivery(others[i].client.ws, joined)
  {
    var u := Get(data, "userId");
    var name := Get(data, "username");
    var clients := Set(st.clients, u, Client(ws, name));
    var joined := Wire(PeerJoined(u, name));
    var head := st.sent + [Delivery(ws, Wire(PeerListMessage(clients, u)))];
    var r := HandleRegister(st, ws, data);
    assert r.sent == head + Broadcast(clients, u, joined) by {
      RegisterUnfolds(st, ws, data);
    }
    OthersAfterSet(st.clients, u, Client(ws, name));
    BroadcastIsOthers(clients, u, joined);
    AfterHead(head, Broadcast(clients, u, joined), Others(st.clients, u), joined);
  }

  /** A block of one delivery per entry, placed after `head`, read by index. */
  lemma AfterHead(head: seq<Delivery>, block: seq<Delivery>, es: seq<Entry>, wire: Value)
    requires |block| == |es|
    requires forall i :: 0 <= i < |es| ==> block[i] == Delivery(es[i].client.ws, wire)
    ensures |head + block| == |head| + |es|
    ensures forall i :: 0 <= i < |es| ==> (head + block)[|head| + i] == Delivery(es[i].client.ws, wire)
  {
  }

  /** A socket that registers again under a different id keeps its first id
      in the registry, and then receives its own `peer-joined`. */
  lemma ReRegisterKeepsFirstId(st: RelayState, ws: SocketId, first: Value, second: Value)
    requires WellFormed(st) && ws in st.sessions
    requires Get(first, "userId") != Get(second, "userId")
    ensures var st1 := HandleRegister(st, ws, first);
            var st2 := HandleRegister(st1, ws, second);
            && Lookup(st2.clients, Get(first, "userId")) == Some(Client(ws, Get(first, "username")))
            && Lookup(st2.clients, Get(second, "userId")) == Some(Client(ws, Get(second, "username")))
            && st2.sessions[ws] == Get(second, "userId")
            && Delivery(ws, Wire(PeerJoined(Get(second, "userId"), Get(second, "username")))) in st2.sent
  {
    var st1 := HandleRegister(st, ws, first);
    var st2 := HandleRegister(st1, ws, second);
    var e := Entry(Get(first, "userId"), Client(ws, Get(first, "username")));
    RegisterSocketTwice(st, ws, first, second);
    LookupIn(st2.clients, e.id);
    JoinedReaches(st1, ws, second, e);
  }

  /** `peer-joined` reaches every registered entry with another id. */
  lemma JoinedReaches(st: RelayState, ws: SocketId, data: Value, e: Entry)
    requires WellFormed(st) && ws in st.sessions
    requires e in HandleRegister(st, ws, data).clients && e.id != Get(data, "userId")
    ensures Delivery(e.client.ws, Wire(PeerJoined(Get(data, "userId"), Get(data, "username"))))
              in HandleRegister(st, ws, data).sent
  {
    var r := HandleRegister(st, ws, data);
    BroadcastReaches(r.sent, |st.sent| + 1, r.clients, Get(data, "userId"),
                     Wire(PeerJoined(Get(data, "userId"), Get(data, "username"))), e);
  }

  lemma RegisterSocketTwice(st: RelayState, ws: SocketId, first: Value, second: Value)
    requires WellFormed(st) && ws in st.sessions
    requires Get(first, "userId") != Get(second, "userId")
    ensures var st2 := HandleRegister(HandleRegister(st, ws, first), ws, second);
            && Lookup(st2.clients, Get(first, "userId")) == Some(Client(ws, Get(first, "username")))
            && Lookup(st2.clients, Get(second, "userId")) == Some(Client(ws, Get(second, "username")))
            && st2.sessions[ws] == Get(second, "userId")
  {
  }

  /** A delivery list ending in a broadcast holds the delivery to every
      entry with another id. */
  lemma BroadcastReaches(sent: seq<Delivery>, n: nat, es: seq<Entry>, senderId: Value, wire: Value, e: Entry)
    requires n <= |sent| && sent[n..] == Broadcast(es, senderId, wire)
    requires e in es && e.id != senderId
    ensures Delivery(e.client.ws, wire) in sent
  {
    BroadcastRecipients(es, senderId, wire);
    var i :| 0 <= i < |sent[n..]| && sent[n..][i] == Delivery(e.client.ws, wire);
    assert sent[n + i] == Delivery(e.client.ws, wire);
  }

  lemma {:induction false} LookupIn(es: seq<Entry>, k: Value)
    ensures Lookup(es, k).Some? ==> Entry(k, Lookup(es, k).value) in es
  {
    if es != [] && es[0].id != k {
      LookupIn(es[1..], k);
    }
  }

  /** Close deletes the closing socket's id even when a later socket has
      registered the same id since: the later socket is still connected, but
      its id is no longer registered. */
  lemma CloseEvictsReRegistration(st: RelayState, ws1: SocketId, ws2: SocketId, d1: Value, d2: Value)
    requires WellFormed(st) && ws1 in st.sessions && ws2 in st.sessions && ws1 != ws2
    requires Get(d1, "userId") == Get(d2, "userId") && Truthy(Get(d1, "userId"))
    ensures var st1 := HandleRegister(st, ws1, d1);
            var st2 := HandleRegister(st1, ws2, d2);
            var st3 := HandleClose(st2, ws1);
            && Lookup(st2.clients, Get(d1, "userId")) == Some(Client(ws2, Get(d2, "username")))
            && Lookup(st3.clients, Get(d1, "userId")) == None
            && ws2 in st3.sessions && st3.sessions[ws2] == Get(d1, "userId")
  {
    var u := Get(d1, "userId");
    var st1 := HandleRegister(st, ws1, d1);
    RegisterSessions(st, ws1, d1);
    SecondRegister(st1, ws1, ws2, d2, u);
    var st2 := HandleRegister(st1, ws2, d2);
    CloseRegistered(st2, ws1, ws2, u);
  }

  /** A second `register` of id `u`, from another socket than the one whose
      `userId` is already `u`: the id now maps to the second socket, and both
      connections hold `u`. */
  lemma SecondRegister(st1: RelayState, ws1: SocketId, ws2: SocketId, d2: Value, u: Value)
    requires WellFormed(st1) && ws1 in st1.sessions && ws2 in st1.sessions && ws1 != ws2
    requires st1.sessions[ws1] == u && Get(d2, "userId") == u
    ensures var st2 := HandleRegister(st1, ws2, d2);
            && WellFormed(st2)
            && Lookup(st2.clients, u) == Some(Client(ws2, Get(d2, "username")))
            && ws1 in st2.sessions && ws2 in st2.sessions
            && st2.sessions[ws1] == u && st2.sessions[ws2] == u
  {
    RegisterSessions(st1, ws2, d2);
    RegisterOwnEntry(st1, ws2, d2);
  }

  /** `register` sets the connection's `userId` and nothing else among the sessions. */
  lemma RegisterSessions(st: RelayState, ws: SocketId, data: Value)
    requires WellFormed(st) && ws in st.sessions
    ensures var r := HandleRegister(st, ws, data);
            WellFormed(r) && r.sessions == st.sessions[ws := Get(data, "userId")]
  {
  }

  /** After `register`, the id maps to the caller's socket and name. */
  lemma RegisterOwnEntry(st: RelayState, ws: SocketId, data: Value)
    requires WellFormed(st) && ws in st.sessions
    ensures Lookup(HandleRegister(st, ws, data).clients, Get(data, "userId")) == Some(Client(ws, Get(data, "username")))
  {
  }

  lemma CloseRegistered(st: RelayState, ws1: SocketId, ws2: SocketId, u: Value)
    requires WellFormed(st) && ws1 in st.sessions && ws2 in st.sessions && ws1 != ws2
    requires st.sessions[ws1] == u && st.sessions[ws2] == u && Truthy(u)
    ensures Lookup(HandleClose(st, ws1).clients, u) == None
    ensures ws2 in HandleClose(st, ws1).sessions && HandleClose(st, ws1).sessions[ws2] == u
  {
  }

  /** Closing a connection that never registered, or registered under a falsy
      id (missing, `null`, `""`, `0`, `false`), leaves the registry alone and
      sends nothing. */
  lemma CloseUnregisteredIsSilent(st: RelayState, ws: SocketId)
    requires WellFormed(st) && ws in st.sessions && !Truthy(st.sessions[ws])
    ensures HandleClose(st, ws).clients == st.clients && HandleClose(st, ws).sent == st.sent
  {
  }

  /** Close of a registered id: `peer-left` goes to the socket of every
      remaining entry, and only to those. */
  lemma CloseNotifies(st: RelayState, ws: SocketId)
    requires WellFormed(st) && ws in st.sessions && Truthy(st.sessions[ws])
    ensures var r := HandleClose(st, ws);
            var left := Wire(PeerLeft(st.sessions[ws]));
            && (forall e :: e in r.clients ==> Delivery(e.client.ws, left) in r.sent[|st.sent|..])
            && (forall d :: d in r.sent[|st.sent|..] ==>
                  d.msg == left && exists e :: e in r.clients && e.client.ws == d.to)
  {
    var u := st.sessions[ws];
    var r := HandleClose(st, ws);
    BroadcastRecipients(r.clients, u, Wire(PeerLeft(u)));
    assert r.sent[|st.sent|..] == Broadcast(r.clients, u, Wire(PeerLeft(u)));
  }

  /** The frame types the relay itself can send. */
  predicate RelayType(v: Value)
  {
    var t := Get(v, "type");
    t == Str("peer-list") || t == Str("peer-joined") || t == Str("peer-left") || IsRoutedType(t)
  }

  predicate AllRelayTyped(ds: seq<Delivery>)
  {
    forall i :: 0 <= i < |ds| ==> RelayType(ds[i].msg)
  }

  lemma {:induction false} BroadcastTyped(es: seq<Entry>, senderId: Value, wire: Value)
    requires RelayType(wire)
    ensures AllRelayTyped(Broadcast(es, senderId, wire))
  {
    BroadcastIsOthers(es, senderId, wire);
  }

  lemma RegisterTyped(st: RelayState, ws: SocketId, data: Value)
    requires WellFormed(st) && ws in st.sessions && AllRelayTyped(st.sent)
    ensures AllRelayTyped(HandleRegister(st, ws, data).sent)
  {
    var r := HandleRegister(st, ws, data);
    var u := Get(data, "userId");
    var reply := Wire(PeerListMessage(r.clients, u));
    var joined := Wire(PeerJoined(u, Get(data, "username")));
    WireGet(PeerListMessage(r.clients, u).fields, "type");
    WireGet(PeerJoined(u, Get(data, "username")).fields, "type");
    BroadcastTyped(r.clients, u, joined);
    var b := Broadcast(r.clients, u, joined);
    assert r.sent == st.sent + [Delivery(ws, reply)] + b;
    TypedAppend(st.sent, [Delivery(ws, reply)]);
    TypedAppend(st.sent + [Delivery(ws, reply)], b);
  }

  lemma TypedAppend(a: seq<Delivery>, b: seq<Delivery>)
    requires AllRelayTyped(a) && AllRelayTyped(b)
    ensures AllRelayTyped(a + b)
  {
    forall i | 0 <= i < |a + b| ensures RelayType((a + b)[i].msg) {
      if i >= |a| {
        assert (a + b)[i] == b[i - |a|];
      }
    }
  }

  lemma RouteTyped(st: RelayState, ws: SocketId, fields: map<string, Value>)
    requires ws in st.sessions && AllRelayTyped(st.sent) && IsRoutedType(Get(Obj(fields), "type"))
    ensures AllRelayTyped(HandleRoute(st, ws, fields).sent)
  {
    WireGet(fields["sourceId" := st.sessions[ws]], "type");
  }

  lemma CloseTyped(st: RelayState, ws: SocketId)
    requires WellFormed(st) && ws in st.sessions && AllRelayTyped(st.sent)
    ensures AllRelayTyped(HandleClose(st, ws).sent)
  {
    var u := st.sessions[ws];
    if Truthy(u) {
      var clients := Delete(st.clients, u);
      var left := Wire(PeerLeft(u));
      WireGet(PeerLeft(u).fields, "type");
      BroadcastTyped(clients, u, left);
      assert HandleClose(st, ws).sent == st.sent + Broadcast(clients, u, left);
      TypedAppend(st.sent, Broadcast(clients, u, left));
    }
  }

  /** Every step keeps every frame the relay ever sent a `peer-list`,
      `peer-joined`, `peer-left`, `offer`, `answer` or `ice-candidate` frame. */
  lemma StepTyped(st: RelayState, ev: Event)
    requires WellFormed(st) && AllRelayTyped(st.sent)
    ensures AllRelayTyped(Step(st, ev).sent)
  {
    match ev
    case Connect =>
    case Close(ws) =>
      if ws in st.sessions {
        CloseTyped(st, ws);
      }
    case Message(ws, frame) =>
      if ws in st.sessions && frame.Some? {
        var data := frame.value;
        var t := Get(data, "type");
        if t == Str("register") {
          RegisterTyped(st, ws, data);
        } else if IsRoutedType(t) {
          RouteTyped(st, ws, data.fields);
        }
      }
  }

  /** Over any run from the initial state, the relay only ever sends those
      six frame types. */
  lemma {:induction false} RunTyped(st: RelayState, evs: seq<Event>)
    requires WellFormed(st) && AllRelayTyped(st.sent)
    ensures AllRelayTyped(Run(st, evs).sent)
    decreases |evs|
  {
    if evs != [] {
      StepTyped(st, evs[0]);
      RunTyped(Step(st, evs[0]), evs[1..]);
    }
  }
}
