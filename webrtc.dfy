/** One browser's WebRTC module: the module-level `localConnection`,
    `dataChannel` and `onReceiveFile`, the reassembly buffer that
    `setupDataChannel` creates, and the handlers `createConnection`
    installs. The browser's RTCPeerConnection is abstracted to the state it
    keeps (descriptions and applied candidates) and the descriptions it
    produces (`createOffer`, `createAnswer`) are inputs. */
module WebRtc {
  import opened Json
  import opened Transfer

  /** What this side does to its connection and to the `sendSignal`
      callback, in the order it does it. `AddCandidate(c, false)` is a call
      the browser rejects because no remote description is set yet. */
  datatype Action =
    | CreateChannel
    | SetLocal(description: Value)
    | SetRemote(description: Value)
    | AddCandidate(candidate: Value, applied: bool)
    | Signal(message: Value)

  /** The state of `localConnection`. */
  datatype Connection = Connection(
    initiator: bool,
    localDescription: Option<Value>,
    remoteDescription: Option<Value>,
    candidates: seq<Value>)

  /** The messages handed to `sendSignal`, in order. */
  function Emitted(actions: seq<Action>): seq<Value>
  {
    if actions == [] then []
    else (if actions[0].Signal? then [actions[0].message] else []) + Emitted(actions[1..])
  }

  lemma {:induction false} EmittedAppend(a: seq<Action>, b: seq<Action>)
    ensures Emitted(a + b) == Emitted(a) + Emitted(b)
  {
    if a == [] {
      assert a + b == b;
    } else {
      var ab := a + b;
      assert ab[0] == a[0];
      assert ab[1..] == a[1..] + b;
      EmittedAppend(a[1..], b);
      assert Emitted(ab) == (if a[0].Signal? then [a[0].message] else []) + Emitted(ab[1..]);
    }
  }

  /** The handler `createConnection` passes to `handleSignal`, for the signal
      `data`, with `answer` what `createAnswer` would yield: an offer sets the
      remote description, then the local answer, then emits `{ answer }`; an
      answer only sets the remote description; a candidate is added, which the
      browser accepts only once a remote description is set. */
  function Dispatch(c: Connection, data: Value, answer: Value): (r: (Connection, seq<Action>))
    ensures r.0.initiator == c.initiator
    ensures c.remoteDescription.Some? ==> r.0.remoteDescription.Some?
    ensures Truthy(Get(data, "offer")) ==>
              && r.0.remoteDescription == Some(Get(data, "offer"))
              && r.0.localDescription == Some(answer)
              && r.1 == [SetRemote(Get(data, "offer")), SetLocal(answer), Signal(Obj(map["answer" := answer]))]
    ensures !Truthy(Get(data, "offer")) ==> r.0.localDescription == c.localDescription
    ensures !Truthy(Get(data, "offer")) && Truthy(Get(data, "answer")) ==>
              r.0.remoteDescription == Some(Get(data, "answer")) && r.1 == [SetRemote(Get(data, "answer"))]
    ensures !SetsRemote(data) ==> r.0.remoteDescription == c.remoteDescription
    ensures !SetsRemote(data) && Truthy(Get(data, "candidate")) ==>
              r.1 == [AddCandidate(Get(data, "candidate"), c.remoteDescription.Some?)]
    ensures !SetsRemote(data) && !Truthy(Get(data, "candidate")) ==> r == (c, [])
    ensures Emitted(r.1) == if Truthy(Get(data, "offer")) then [Obj(map["answer" := answer])] else []
    ensures |c.candidates| <= |r.0.candidates| <= |c.candidates| + 1
    ensures r.0.candidates[..|c.candidates|] == c.candidates
    ensures |r.0.candidates| > |c.candidates| <==>
              !Truthy(Get(data, "offer")) && !Truthy(Get(data, "answer")) &&
              Truthy(Get(data, "candidate")) && c.remoteDescription.Some?
  {
    var offer, remoteAnswer, candidate := Get(data, "offer"), Get(data, "answer"), Get(data, "candidate");
    if Truthy(offer) then
      var acts := [SetRemote(offer), SetLocal(answer), Signal(Obj(map["answer" := answer]))];
      assert acts[1..][1..][1..] == [];
      assert Emitted(acts[1..][1..]) == [Obj(map["answer" := answer])] + Emitted([]);
      assert Emitted(acts[1..]) == Emitted(acts[1..][1..]);
      (c.(remoteDescription := Some(offer), localDescription := Some(answer)), acts)
    else if Truthy(remoteAnswer) then
      (c.(remoteDescription := Some(remoteAnswer)), [SetRemote(remoteAnswer)])
    else if Truthy(candidate) then
      if c.remoteDescription.Some? then
        (c.(candidates := c.candidates + [candidate]), [AddCandidate(candidate, true)])
      else
        (c, [AddCandidate(candidate, false)])
    else (c, [])
  }

  /** One inbound signal together with the answer the browser would create for it. */
  datatype Inbound = Inbound(data: Value, answer: Value)

  function DispatchAll(c: Connection, ins: seq<Inbound>): (Connection, seq<Action>)
    decreases |ins|
  {
    if ins == [] then (c, [])
    else
      var (c1, acts) := Dispatch(c, ins[0].data, ins[0].answer);
      var (c2, more) := DispatchAll(c1, ins[1..]);
      (c2, acts + more)
  }

  predicate SetsRemote(data: Value)
  {
    Truthy(Get(data, "offer")) || Truthy(Get(data, "answer"))
  }

  /** The candidates the browser ends up applying, stated without the
      connection: those that arrive once some offer or answer has arrived
      (or a remote description was already set), in arrival order. */
  function LateCandidates(hasRemote: bool, ins: seq<Inbound>): seq<Value>
    decreases |ins|
  {
    if ins == [] then []
    else
      var data := ins[0].data;
      if SetsRemote(data) then LateCandidates(true, ins[1..])
      else if Truthy(Get(data, "candidate")) then
        (if hasRemote then [Get(data, "candidate")] else []) + LateCandidates(hasRemote, ins[1..])
      else LateCandidates(hasRemote, ins[1..])
  }

  /** One signal's effect on the applied candidates and the remote description. */
  lemma DispatchStep(c: Connection, data: Value, answer: Value)
    ensures var c1 := Dispatch(c, data, answer).0;
            && c1.candidates == c.candidates + LateCandidates(c.remoteDescription.Some?, [Inbound(data, answer)])
            && c1.remoteDescription.Some? == (c.remoteDescription.Some? || SetsRemote(data))
  {
    var one := [Inbound(data, answer)];
    assert one[1..] == [];
    if !SetsRemote(data) && Truthy(Get(data, "candidate")) && c.remoteDescription.Some? {
      assert LateCandidates(true, one) == [Get(data, "candidate")];
    } else {
      assert LateCandidates(c.remoteDescription.Some?, one) == [];
    }
  }

  lemma LateCandidatesCons(hasRemote: bool, ins: seq<Inbound>)
    requires ins != []
    ensures LateCandidates(hasRemote, ins) ==
            LateCandidates(hasRemote, [ins[0]]) + LateCandidates(hasRemote || SetsRemote(ins[0].data), ins[1..])
  {
    assert [ins[0]][1..] == [];
  }

  lemma DispatchAllCons(c: Connection, ins: seq<Inbound>)
    requires ins != []
    ensures DispatchAll(c, ins).0 == DispatchAll(Dispatch(c, ins[0].data, ins[0].answer).0, ins[1..]).0
  {
  }

  /** With candidates applied on arrival and no queue, the applied
      candidates are exactly the late ones: every candidate that arrives
      before the first offer or answer is lost. */
  lemma {:induction false} AppliedAreLate(c: Connection, ins: seq<Inbound>)
    ensures DispatchAll(c, ins).0.candidates ==
            c.candidates + LateCandidates(c.remoteDescription.Some?, ins)
    decreases |ins|
  {
    if ins != [] {
      var c1 := Dispatch(c, ins[0].data, ins[0].answer).0;
      DispatchAllCons(c, ins);
      DispatchStep(c, ins[0].data, ins[0].answer);
      AppliedAreLate(c1, ins[1..]);
      var h := c.remoteDescription.Some?;
      LateCandidatesCons(h, ins);
      var first := LateCandidates(h, [ins[0]]);
      var rest := LateCandidates(c1.remoteDescription.Some?, ins[1..]);
      assert c1.candidates == c.candidates + first;
      assert c.candidates + first + rest == c.candidates + (first + rest);
    }
  }

  /** A candidate that arrives before the offer is never applied, while the
      offer is still answered. */
  lemma CandidateBeforeOfferIsLost(c: Connection, candidate: Value, offer: Value, answer: Value)
    requires c.remoteDescription.None? && Truthy(candidate) && Truthy(offer)
    ensures var ins := [Inbound(Obj(map["candidate" := candidate]), answer),
                        Inbound(Obj(map["offer" := offer]), answer)];
            var (c2, acts) := DispatchAll(c, ins);
            && c2.candidates == c.candidates
            && c2.remoteDescription == Some(offer)
            && Emitted(acts) == [Obj(map["answer" := answer])]
  {
    var ins := [Inbound(Obj(map["candidate" := candidate]), answer),
                Inbound(Obj(map["offer" := offer]), answer)];
    AppliedAreLate(c, ins);
    assert ins[1..][1..] == [];
    var (c1, a1) := Dispatch(c, ins[0].data, ins[0].answer);
    var (c2, a2) := Dispatch(c1, ins[1].data, ins[1].answer);
    assert ins[1..][1..] == [];
    assert a2 + [] == a2;
    assert DispatchAll(c1, ins[1..]) == (c2, a2);
    assert DispatchAll(c, ins) == (c2, a1 + a2);
    assert Emitted(a1) == [];
    assert Emitted(a2) == [Obj(map["answer" := answer])];
    EmittedAppend(a1, a2);
  }

  /** The signals the handler emits are exactly one `{ answer }` per inbound
      offer, in order; the handler never emits an offer or a candidate. */
  function AnswersFor(ins: seq<Inbound>): seq<Value>
    decreases |ins|
  {
    if ins == [] then []
    else (if Truthy(Get(ins[0].data, "offer")) then [Obj(map["answer" := ins[0].answer])] else [])
         + AnswersFor(ins[1..])
  }

  lemma {:induction false} EmitsOneAnswerPerOffer(c: Connection, ins: seq<Inbound>)
    ensures Emitted(DispatchAll(c, ins).1) == AnswersFor(ins)
    decreases |ins|
  {
    if ins != [] {
      var (c1, acts) := Dispatch(c, ins[0].data, ins[0].answer);
      EmitsOneAnswerPerOffer(c1, ins[1..]);
      EmittedAppend(acts, DispatchAll(c1, ins[1..]).1);
    }
  }

  class Peer {
    var connection: Option<Connection>
    var actions: seq<Action>
    /** `dataChannel`: absent, or the frames sent on it so far. */
    var dataChannel: Option<seq<Frame>>
    var receivedChunks: seq<seq<Byte>>
    /** Which callback `onReceiveFile` holds; 0 is the initial no-op. */
    var onReceiveFile: nat
    var delivered: seq<Blob>

    constructor ()
      ensures connection == None && actions == [] && dataChannel == None
      ensures receivedChunks == [] && onReceiveFile == 0 && delivered == []
    {
      connection, actions, dataChannel := None, [], None;
      receivedChunks, onReceiveFile, delivered := [], 0, [];
    }

    /** `setFileReceiver(callback)`. */
    method SetFileReceiver(callback: nat)
      modifies this`onReceiveFile
      ensures onReceiveFile == callback
    {
      onReceiveFile := callback;
    }

    /** `setupDataChannel()`: a fresh, empty `receivedChunks` behind the channel's handler. */
    method SetupDataChannel()
      modifies this`receivedChunks
      ensures receivedChunks == []
    {
      receivedChunks := [];
    }

    /** `createConnection(isInitiator, …)`, with `offer` what `createOffer`
        would yield. Only the initiator creates the channel and emits
        `{ offer }`, after setting it as its local description; the responder
        waits for the remote side's channel. */
    method CreateConnection(isInitiator: bool, offer: Value)
      modifies this
      ensures connection == Some(Connection(isInitiator, if isInitiator then Some(offer) else None, None, []))
      ensures actions == old(actions) +
                (if isInitiator then [CreateChannel, SetLocal(offer), Signal(Obj(map["offer" := offer]))] else [])
      ensures dataChannel == if isInitiator then Some([]) else old(dataChannel)
      ensures receivedChunks == if isInitiator then [] else old(receivedChunks)
      ensures onReceiveFile == old(onReceiveFile) && delivered == old(delivered)
    {
      connection := Some(Connection(isInitiator, None, None, []));
      if isInitiator {
        dataChannel := Some([]);
        actions := actions + [CreateChannel];
        SetupDataChannel();
        connection := Some(connection.value.(localDescription := Some(offer)));
        actions := actions + [SetLocal(offer)];
        actions := actions + [Signal(Obj(map["offer" := offer]))];
      }
    }

    /** `localConnection.onicecandidate`: a discovered candidate is emitted as
        `{ candidate }`; the end-of-candidates event (`null`) emits nothing. */
    method OnIceCandidate(candidate: Option<Value>)
      modifies this`actions
      ensures actions == old(actions) +
                (if connection.Some? && candidate.Some? then [Signal(Obj(map["candidate" := candidate.value]))] else [])
    {
      if connection.Some? && candidate.Some? {
        actions := actions + [Signal(Obj(map["candidate" := candidate.value]))];
      }
    }

    /** `localConnection.ondatachannel`, installed for the responder only. */
    method OnDataChannel()
      modifies this`dataChannel, this`receivedChunks
      ensures connection.Some? && !connection.value.initiator ==>
                dataChannel == Some([]) && receivedChunks == []
      ensures !(connection.Some? && !connection.value.initiator) ==>
                dataChannel == old(dataChannel) && receivedChunks == old(receivedChunks)
    {
      if connection.Some? && !connection.value.initiator {
        dataChannel := Some([]);
        SetupDataChannel();
      }
    }

    /** The signal handler, once `createConnection` has installed it. */
    method HandleSignal(data: Value, answer: Value)
      modifies this`connection, this`actions
      ensures old(connection).None? ==> connection == None && actions == old(actions)
      ensures old(connection).Some? ==>
                var (c, acts) := Dispatch(old(connection).value, data, answer);
                connection == Some(c) && actions == old(actions) + acts
    {
      if connection.None? {
        return;
      }
      var c := connection.value;
      var offer, remoteAnswer, candidate := Get(data, "offer"), Get(data, "answer"), Get(data, "candidate");
      if Truthy(offer) {
        c := c.(remoteDescription := Some(offer));
        actions := actions + [SetRemote(offer)];
        c := c.(localDescription := Some(answer));
        actions := actions + [SetLocal(answer)];
        actions := actions + [Signal(Obj(map["answer" := answer]))];
      } else if Truthy(remoteAnswer) {
        c := c.(remoteDescription := Some(remoteAnswer));
        actions := actions + [SetRemote(remoteAnswer)];
      } else if Truthy(candidate) {
        var applied := c.remoteDescription.Some?;
        if applied {
          c := c.(candidates := c.candidates + [candidate]);
        }
        actions := actions + [AddCandidate(candidate, applied)];
      }
      connection := Some(c);
    }

    /** `dataChannel.onmessage` on the receiving side. */
    method OnMessage(frame: Frame)
      modifies this`receivedChunks, this`delivered
      ensures Receiver(receivedChunks, delivered) ==
              Receive(Receiver(old(receivedChunks), old(delivered)), onReceiveFile, frame)
    {
      match frame
      case Eof =>
        delivered := delivered + [Blob(onReceiveFile, Concat(receivedChunks))];
        receivedChunks := [];
      case Chunk(bytes) =>
        receivedChunks := receivedChunks + [bytes];
    }

    /** `dataChannel.send(frame)`. */
    method Send(frame: Frame)
      requires dataChannel.Some?
      modifies this`dataChannel
      ensures dataChannel == Some(old(dataChannel.value) + [frame])
    {
      dataChannel := Some(dataChannel.value + [frame]);
    }

    /** `sendFile(file)`: 16384-byte slices by a loop over `offset`, then
        `'EOF'`. With no data channel the first `send` throws and nothing
        goes out (`ok` is false). */
    method SendFile(file: seq<Byte>) returns (ok: bool)
      modifies this`dataChannel
      ensures ok == old(dataChannel).Some?
      ensures ok ==> dataChannel == Some(old(dataChannel).value + FileFrames(file))
      ensures !ok ==> dataChannel == old(dataChannel)
    {
      if dataChannel.None? {
        return false;
      }
      var offset: nat := 0;
      while offset < |file|
        invariant dataChannel.Some?
        invariant dataChannel.value + SlicesFrom(file, offset) == old(dataChannel).value + SlicesFrom(file, 0)
        decreases |file| - offset
      {
        var chunk := file[offset..Min(offset + ChunkSize, |file|)];
        Send(Chunk(chunk));
        assert SlicesFrom(file, offset) == [Chunk(chunk)] + SlicesFrom(file, offset + ChunkSize);
        offset := offset + ChunkSize;
      }
      assert SlicesFrom(file, offset) == [];
      assert dataChannel.value == old(dataChannel).value + SlicesFrom(file, 0);
      Send(Eof);
      assert dataChannel.value == old(dataChannel).value + SlicesFrom(file, 0) + [Eof];
      assert dataChannel.value == old(dataChannel).value + FileFrames(file);
      return true;
    }
  }
}
