/** The browser side of signaling: the module-level `username`, the two
    envelopes the client sends over the shared socket, and the two
    listeners that decide which inbound frames reach the application. An
    inbound frame is `None` when `JSON.parse` throws. */
module ClientSignaling {
  import opened Json

  /** `{ type: 'register', username }`: the client sends no `userId`. */
  function RegisterEnvelope(user: string): (r: Value)
    ensures IsJson(r)
    ensures Get(r, "type") == Str("register") && Get(r, "username") == Str(user)
    ensures Get(r, "userId") == Undefined
  {
    Obj(map["type" := Str("register"), "username" := Str(user)])
  }

  /** `{ type: 'signal', from: username, to, signal }`. */
  function SignalEnvelope(from: Value, to: string, signal: Value): (r: Value)
    ensures Get(r, "type") == Str("signal") && Get(r, "from") == from
    ensures Get(r, "to") == Str(to) && Get(r, "signal") == signal
  {
    Obj(map["type" := Str("signal"), "from" := from, "to" := Str(to), "signal" := signal])
  }

  /** The client module: its `username` (undefined until `register`) and the
      objects it has passed to `JSON.stringify` and sent, in order. */
  class SignalingClient {
    var username: Value
    var sent: seq<Value>

    constructor ()
      ensures username == Undefined && sent == []
    {
      username, sent := Undefined, [];
    }

    /** `register(user)`. */
    method Register(user: string)
      modifies this
      ensures username == Str(user)
      ensures sent == old(sent) + [RegisterEnvelope(user)]
    {
      username := Str(user);
      sent := sent + [RegisterEnvelope(username.s)];
    }

    /** `sendSignal(to, signal)`, stamped with the latest registered name. */
    method SendSignal(to: string, signal: Value)
      modifies this`sent
      ensures sent == old(sent) + [SignalEnvelope(username, to, signal)]
    {
      sent := sent + [SignalEnvelope(username, to, signal)];
    }
  }

  /** The `onSignal` listener: the callback gets `(from, signal)` exactly when
      the frame parses, its `type` is `'signal'` and both fields are truthy. */
  function AcceptSignal(frame: Option<Value>): (r: Option<(Value, Value)>)
    ensures r.Some? <==>
              frame.Some? && Get(frame.value, "type") == Str("signal") &&
              Truthy(Get(frame.value, "from")) && Truthy(Get(frame.value, "signal"))
    ensures r.Some? ==> r.value == (Get(frame.value, "from"), Get(frame.value, "signal"))
  {
    match frame
    case None => None
    case Some(data) =>
      if Get(data, "type") == Str("signal") && Truthy(Get(data, "from")) && Truthy(Get(data, "signal"))
      then Some((Get(data, "from"), Get(data, "signal")))
      else None
  }

  /** `a` is `b` with some elements dropped, the rest in their order. */
  predicate SubsequenceOf(a: seq<Value>, b: seq<Value>)
    decreases |b|
  {
    if a == [] then true
    else if b == [] then false
    else if a[0] == b[0] then SubsequenceOf(a[1..], b[1..])
    else SubsequenceOf(a, b[1..])
  }

  /** `p.id` throws for these. */
  predicate Nullish(p: Value)
  {
    p == Null || p == Undefined
  }

  /** `r` is what filtering `peers` for ids other than `username` yields: an
      order-preserving subsequence with no entry carrying `username`, in
      which every other entry keeps all its copies. */
  ghost predicate FilteredFrom(r: seq<Value>, peers: seq<Value>, username: Value)
  {
    && |r| <= |peers| && SubsequenceOf(r, peers)
    && (forall i :: 0 <= i < |r| ==> Get(r[i], "id") != username)
    && (forall i :: 0 <= i < |peers| && Get(peers[i], "id") != username ==> peers[i] in r)
    && (forall v {:trigger multiset(r)[v]} ::
          multiset(r)[v] == if Get(v, "id") != username then multiset(peers)[v] else 0)
  }

  /** `peers.filter((p) => p.id !== username)`; `None` when `p.id` throws.
      `username` is a string or undefined, so strict inequality is inequality
      of values here. */
  function FilterPeers(peers: seq<Value>, username: Value): (r: Option<seq<Value>>)
    ensures r.None? <==> exists i :: 0 <= i < |peers| && Nullish(peers[i])
    ensures r.Some? ==> FilteredFrom(r.value, peers, username)
    decreases |peers|
  {
    if peers == [] then Some([])
    else if Nullish(peers[0]) then None
    else
      var rest := FilterPeers(peers[1..], username);
      assert forall i :: 1 <= i < |peers| ==> peers[i] == peers[1..][i - 1];
      if rest.None? then None
      else
        FilterStep(peers[0], peers[1..], rest.value, username);
        assert [peers[0]] + peers[1..] == peers;
        Some((if Get(peers[0], "id") != username then [peers[0]] else []) + rest.value)
  }

  /** Filtering one more element in front keeps it exactly when it passes. */
  lemma FilterStep(p: Value, tail: seq<Value>, kept: seq<Value>, username: Value)
    requires FilteredFrom(kept, tail, username)
    ensures FilteredFrom((if Get(p, "id") != username then [p] else []) + kept, [p] + tail, username)
  {
    if Get(p, "id") != username {
      FilterKeep(p, tail, kept, username);
    } else {
      FilterDrop(p, tail, kept, username);
      assert [] + kept == kept;
    }
  }

  lemma FilterKeep(p: Value, tail: seq<Value>, kept: seq<Value>, username: Value)
    requires FilteredFrom(kept, tail, username) && Get(p, "id") != username
    ensures FilteredFrom([p] + kept, [p] + tail, username)
  {
    var out := [p] + kept;
    assert ([p] + tail)[1..] == tail && out[1..] == kept;
    assert SubsequenceOf(out, [p] + tail);
    assert forall i :: 0 <= i < |out| ==> Get(out[i], "id") != username by {
      forall i | 0 <= i < |out| ensures Get(out[i], "id") != username {
        if i > 0 { assert out[i] == kept[i - 1]; }
      }
    }
    MembersKept(p, tail, kept, out, username);
    FilterCountStep(p, tail, kept, out, username);
  }

  lemma FilterDrop(p: Value, tail: seq<Value>, kept: seq<Value>, username: Value)
    requires FilteredFrom(kept, tail, username) && Get(p, "id") == username
    ensures FilteredFrom(kept, [p] + tail, username)
  {
    assert ([p] + tail)[1..] == tail;
    SubsequenceSkip(kept, [p] + tail);
    assert [] + kept == kept;
    MembersKept(p, tail, kept, kept, username);
    FilterCountStep(p, tail, kept, kept, username);
  }

  lemma MembersKept(p: Value, tail: seq<Value>, kept: seq<Value>, out: seq<Value>, username: Value)
    requires forall i :: 0 <= i < |tail| && Get(tail[i], "id") != username ==> tail[i] in kept
    requires out == (if Get(p, "id") != username then [p] else []) + kept
    ensures forall i :: 0 <= i < |[p] + tail| && Get(([p] + tail)[i], "id") != username ==> ([p] + tail)[i] in out
  {
    var peers := [p] + tail;
    forall i | 0 <= i < |peers| && Get(peers[i], "id") != username
      ensures peers[i] in out
    {
      if i > 0 {
        assert peers[i] == tail[i - 1];
      }
    }
  }

  /** Filtering one more element keeps its occurrences exactly when it passes. */
  lemma FilterCountStep(p: Value, tail: seq<Value>, kept: seq<Value>, out: seq<Value>, username: Value)
    requires forall v {:trigger multiset(kept)[v]} :: multiset(kept)[v] == if Get(v, "id") != username then multiset(tail)[v] else 0
    requires out == (if Get(p, "id") != username then [p] else []) + kept
    ensures forall v {:trigger multiset(out)[v]} :: multiset(out)[v] == if Get(v, "id") != username then multiset([p] + tail)[v] else 0
  {
    assert multiset([p] + tail) == multiset{p} + multiset(tail);
    assert multiset(out) == (if Get(p, "id") != username then multiset{p} else multiset{}) + multiset(kept);
  }

  lemma {:induction false} SubsequenceSkip(a: seq<Value>, b: seq<Value>)
    requires b != [] && SubsequenceOf(a, b[1..])
    ensures SubsequenceOf(a, b)
    decreases |b|, 0
  {
    if a != [] && a[0] == b[0] {
      // Matching the head now is at least as good as matching it later.
      SubsequenceTail(a, b[1..]);
    }
  }

  lemma {:induction false} SubsequenceTail(a: seq<Value>, b: seq<Value>)
    requires a != [] && SubsequenceOf(a, b)
    ensures SubsequenceOf(a[1..], b)
    decreases |b|, 1
  {
    if a[0] != b[0] {
      SubsequenceTail(a, b[1..]);
      SubsequenceSkip(a[1..], b);
    } else if a[1..] != [] {
      SubsequenceSkip(a[1..], b);
    }
  }

  /** The `onPeerListUpdate` listener: the callback fires only for a frame of
      `type` `'peers'` whose `peers` is an array (`filter` throws otherwise),
      and gets that array without the entries carrying the own id. */
  function PeerListUpdate(frame: Option<Value>, username: Value): (r: Option<seq<Value>>)
    ensures r.Some? ==> frame.Some? && Get(frame.value, "type") == Str("peers") && Get(frame.value, "peers").Arr?
    ensures r.Some? ==> FilterPeers(Get(frame.value, "peers").items, username) == r
    ensures frame.Some? && Get(frame.value, "type") == Str("peers") && Get(frame.value, "peers").Arr? ==>
              r == FilterPeers(Get(frame.value, "peers").items, username)
  {
    match frame
    case None => None
    case Some(data) =>
      if Get(data, "type") == Str("peers") then
        match Get(data, "peers")
        case Arr(items) => FilterPeers(items, username)
        case _ => None
      else None
  }

  /** Between two clients on a transparent relay, a signal sent after
      `register(user)` (with a non-empty name and a truthy signal) is accepted
      by the receiver's `onSignal`, with the sender's name and the signal as
      `JSON` carries it. */
  lemma SignalRoundTrip(user: string, to: string, signal: Value)
    requires user != [] && signal != Undefined && Truthy(Wire(signal))
    ensures AcceptSignal(Some(Wire(SignalEnvelope(Str(user), to, signal)))) == Some((Str(user), Wire(signal)))
  {
    var fields := map["type" := Str("signal"), "from" := Str(user), "to" := Str(to), "signal" := signal];
    WireGet(fields, "type");
    WireGet(fields, "from");
    WireGet(fields, "signal");
  }

  /** A signal sent before any `register` has no `from` on the wire, so
      `onSignal` drops it. */
  lemma UnregisteredSignalDropped(to: string, signal: Value)
    ensures AcceptSignal(Some(Wire(SignalEnvelope(Undefined, to, signal)))) == None
  {
    var fields := map["type" := Str("signal"), "from" := Undefined, "to" := Str(to), "signal" := signal];
    WireGet(fields, "from");
  }
}
