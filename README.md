# Peer-to-peer file sharing: relay, connection set-up and chunked transfer

This project models the core of a browser-to-browser file sharing system in
Dafny and proves properties of the model. The system has four parts:

- **The signaling relay** (`signaling-server.js`) keeps a registry, a
  JavaScript `Map` from user id to `{ ws, username }`, plus one `userId`
  variable per WebSocket connection.
  - `register` writes the registry, replies with a `peer-list` of everybody
    else and broadcasts `peer-joined`.
  - `offer`, `answer` and `ice-candidate` are forwarded to `targetId` with
    `sourceId` stamped on.
  - `close` deletes the connection's id and broadcasts `peer-left`.
- **The browser's WebRTC module** (`src/utils/webrtc.ts`) does three things.
  - It runs the offer/answer/candidate dispatch.
  - Its `sendFile` loop sends 16384-byte binary slices followed by the text
    frame `'EOF'`.
  - Its receiving handler collects chunks and hands their concatenation to
    the file callback on `'EOF'`.
- **The browser's signaling module** (`src/utils/signaling.ts`) defines the
  `register` and `signal` envelopes, the `onSignal` acceptance test and the
  `onPeerListUpdate` filter that drops the user's own id.
- **Name allocation** (`src/contexts/UserContext.tsx`) covers two functions.
  - `setUsername` trims its input and ignores a blank name.
  - `ensureUniqueName` tries `name`, `name_1`, `name_2`, … against the
    stored list of taken names and appends the first free one.

## Modules

| File | What it holds |
|---|---|
| `json.dfy` (`Json`) | JavaScript values, property reads (`Get`) and truthiness. `Wire` is what a `JSON.stringify` and `JSON.parse` round trip does to a value: `undefined` fields disappear and `undefined` array entries become `null`. |
| `registry.dfy` (`Registry`) | The insertion-ordered `Map`: a sequence of entries with distinct keys, with `get`, `set` and `delete`. |
| `relay.dfy` (`Relay`) | The relay as step functions over `RelayState`: registry, per-connection `userId`, every send in order, next socket handle. It also has the class `SignalingServer`, whose handlers, including the `broadcastToOthers` loop, are proved to compute those steps. |
| `relay_facts.dfy` (`RelayFacts`) | Who receives what: `peer-list` contents, exactly-once broadcasts, re-registration, close, and the frame types the relay can send. |
| `transfer.dfy` (`Transfer`) | The frames `sendFile` produces, the receiving handler as a function, the chunking lemmas and the round trip. |
| `webrtc.dfy` (`WebRtc`) | The signal dispatch as a function with lemmas over sequences of signals, and the class `Peer` holding the module's state and handlers. |
| `client_signaling.dfy` (`ClientSignaling`) | Envelopes, the class `SignalingClient`, `AcceptSignal`, `FilterPeers` and `PeerListUpdate`. |
| `user_names.dfy` (`UserNames`) | JavaScript `trim`, decimal numerals, the candidate names, the first free index and the class `UserStore`. |
| `interop.dfy` (`Interop`) | The browser client and the relay put together. |

### What the composed system does

The two halves of signaling do not agree on the message format.

- The client's `register` envelope carries no `userId`. So the relay files
  every client under the key `undefined`, each registration overwriting the
  last. The peer lists it sends back are always empty, no `peer-joined`
  ever reaches anyone, and because `undefined` is falsy a close removes
  nothing.
- The client sends `type: 'signal'`, which the relay does not route.
- The client listens for `type: 'signal'` and `type: 'peers'`. The relay
  only ever sends `peer-list`, `peer-joined`, `peer-left`, `offer`, `answer`
  and `ice-candidate`.

`Interop.ClientsNeverMeet` and `Interop.RelayNeverReachesCallbacks` prove
these consequences for every run. The relay and the client are each
modelled as written.

### What the code does not do

- **ICE candidates.** The code does not queue a candidate that arrives
  before the remote description; it calls `addIceCandidate` at once. The
  WebRTC standard rejects that call while no remote description is set, so
  an early candidate is lost. `WebRtc.AppliedAreLate` and
  `WebRtc.CandidateBeforeOfferIsLost` state this.
- **Transfer framing.** There is no metadata frame, no back-pressure on the
  buffered amount, no size limit and no "channel not open" error. The only
  end-of-file marker is the text `'EOF'`.
- **Registration.** The client's `register` envelope sends no `userId`,
  although the relay reads one.

### Modelling choices

- Socket connections are natural-number handles that `Connect` hands out.
- Each `send(JSON.stringify(m))` becomes a `Delivery` holding `Wire(m)`.
- A frame that `JSON.parse` rejects is `None`.
- JSON numbers are integers.
- The browser's descriptions (results of `createOffer` and `createAnswer`)
  are method parameters.
- The installed file callback is a number naming it, where 0 is the initial
  no-op. Each `Blob` records which callback received which bytes.
- `localStorage` appears as the fields of `UserStore`.

## Model

| member | source | states |
|---|---|---|
| Json.Get | signaling-server.js:17-19 | A property read gives `undefined` exactly when the value is not an object, lacks the key, or stores `undefined` there. Otherwise it gives the stored value. |
| Json.Truthy | signaling-server.js:68 | A value is falsy exactly when it is `undefined`, `null`, `false`, `0` or `""`. Every array and object is truthy. |
| Json.Wire | signaling-server.js:81 | A `JSON.stringify`/`JSON.parse` round trip keeps arrays as arrays of the same length, objects as objects and other values unchanged, and never changes truthiness. |
| Json.WireKeepsJson | signaling-server.js:15 | Re-serialising a value that came out of `JSON.parse` changes nothing. |
| Json.WireIsJson | signaling-server.js:81 | Whatever is sent, what arrives contains no `undefined`. |
| Json.WireIdempotent | signaling-server.js:81 | Serialising twice is the same as serialising once. |
| Registry.Lookup | signaling-server.js:53 | `clients.get(k)` finds an entry exactly when `k` is a registered key. |
| Registry.Set | signaling-server.js:20-23 | Afterwards `k` maps to the new record and every other key maps to what it did before. Keys stay distinct. A present key keeps its place and a new key goes last. |
| Registry.Delete | signaling-server.js:69 | Afterwards `k` is absent and every other key is unchanged. The remaining entries are exactly the old ones without `k`, in their old order, and the size drops by one exactly when `k` was present. |
| Relay.Others | signaling-server.js:26-27 | The filter never lengthens the registry. |
| Relay.PeerList | signaling-server.js:26-32 | The `peers` array is no longer than the registry, and each of its entries has an id other than the caller's and `connected: false`. |
| Relay.Forwarded | signaling-server.js:55-58 | The forwarded object's `sourceId` is the connection's `userId`, and every other field reads as in the client's message. |
| Relay.Broadcast | signaling-server.js:78-84 | A broadcast sends at most one frame per registry entry, and every frame it sends is the given message. |
| Relay.PeerInfoReads | signaling-server.js:28-32 | A serialised peer record `{ id, name, connected: false }` reads back its id and name as they survive JSON, and `connected` as `false`. |
| Relay.PeerListMessageReads | signaling-server.js:34-37 | A serialised `peer-list` reply reads back type `peer-list` and a `peers` array with one record per other registered user. |
| Relay.PeerJoinedReads | signaling-server.js:40-47 | A serialised `peer-joined` notice reads back type `peer-joined` and the new user's peer record. |
| Relay.PeerLeftReads | signaling-server.js:70-73 | A serialised `peer-left` notice reads back type `peer-left` and the departed id as it survives JSON. |
| Relay.OthersMembers | signaling-server.js:26-27 | An entry survives the filter exactly when it is registered under another id. |
| Relay.OthersLength | signaling-server.js:26-27 | With distinct keys, the filter removes one entry exactly when the caller's id is registered. |
| Relay.HandleRegister | signaling-server.js:18-48 | `clients[userId]` becomes `{ws, username}`, overwriting any earlier entry, and all other entries are unchanged. The connection's `userId` is set. The first new send is the `peer-list` to `ws`, and the rest are exactly the `peer-joined` broadcast. |
| Relay.HandleRoute | signaling-server.js:50-60 | With `targetId` unregistered, the state is unchanged. Otherwise exactly one frame goes to the target's socket, carrying every client field except `sourceId`, and its `sourceId` is this connection's `userId`, overriding any client-supplied one. |
| Relay.HandleMessage | signaling-server.js:13-65 | A parse failure, or a `type` other than `register`, `offer`, `answer` or `ice-candidate` (such as `signal`), changes nothing. Only `register` touches the registry or a `userId`, and routing sends at most one frame. |
| Relay.HandleClose | signaling-server.js:67-75 | The connection goes away. A truthy `userId` is deleted with every other entry unchanged. A falsy one leaves the registry and the sends alone. |
| Relay.HandleConnect | signaling-server.js:10-11 | A new connection gets a fresh handle and `userId = null`, and nothing else changes. |
| Relay.Step | signaling-server.js:10-76 | Every event keeps the registry's keys distinct and the handles in range. |
| Relay.Run | signaling-server.js:10-76 | Every sequence of events keeps the registry's keys distinct and the handles in range. |
| Relay.SignalingServer.constructor | signaling-server.js:8 | The server starts with an empty registry, no connections and no sends. |
| Relay.SignalingServer.Connect | signaling-server.js:10-11 | A connection event computes `HandleConnect`. |
| Relay.SignalingServer.Send | signaling-server.js:81 | One `ws.send` appends one delivery of the serialised message. |
| Relay.SignalingServer.BroadcastToOthers | signaling-server.js:78-84 | The `for` loop over the registry sends exactly `Broadcast(clients, senderId, m)`, a loop invariant carrying the proof. |
| Relay.SignalingServer.OnMessage | signaling-server.js:13-65 | The message handler computes `HandleMessage`. |
| Relay.SignalingServer.Register | signaling-server.js:18-48 | The `register` case computes `HandleRegister`. |
| Relay.SignalingServer.Route | signaling-server.js:50-60 | The routing cases compute `HandleRoute`. |
| Relay.SignalingServer.OnClose | signaling-server.js:67-75 | The close handler computes `HandleClose`. |
| RelayFacts.BroadcastIsOthers | signaling-server.js:78-84 | The broadcast sends one copy per entry with another id, in registry order, to that entry's socket. |
| RelayFacts.BroadcastRecipients | signaling-server.js:78-84 | Every broadcast delivery goes to the socket of an entry with another id. Every such socket gets one. |
| RelayFacts.BroadcastOnce | signaling-server.js:78-84 | When no socket holds two ids, each socket receives the broadcast once if it holds another id and never otherwise. So the sender's socket receives nothing. |
| RelayFacts.OthersAfterSet | signaling-server.js:20-27 | Writing the caller's own entry leaves everyone else's entries and their order unchanged. |
| RelayFacts.PeerListExact | signaling-server.js:26-32 | `peers` lists exactly the ids other than the caller's, each with its stored name and `connected: false`. Its length is the registry size less one when the caller is registered. |
| RelayFacts.RegisterNotifies | signaling-server.js:25-47 | The reply lists the previously registered others. `peer-joined` then goes, in registry order, once to each of their sockets and to nobody else. |
| RelayFacts.RegisterReply | signaling-server.js:25-37 | The first send of `register` is the `peer-list` to the caller, and it lists the same peers as the registry did before the call. |
| RelayFacts.RegisterJoinedOrder | signaling-server.js:39-47 | After the reply, the sends of `register` are exactly one `peer-joined` per earlier entry with another id, in registry order, to that entry's socket. |
| RelayFacts.ReRegisterKeepsFirstId | signaling-server.js:19-23 | A connection that registers twice under different ids leaves both ids mapped to itself, and it receives its own `peer-joined`. |
| RelayFacts.CloseEvictsReRegistration | signaling-server.js:67-69 | Closing the first connection deletes the id even though a second, still-open connection registered it since. |
| RelayFacts.JoinedReaches | signaling-server.js:39-47 | After a `register`, every registry entry with another id is sent that registration's `peer-joined`. |
| RelayFacts.CloseUnregisteredIsSilent | signaling-server.js:68 | Closing a connection whose `userId` is falsy changes no entry and sends nothing. |
| RelayFacts.CloseNotifies | signaling-server.js:70-73 | `peer-left` goes to the socket of every remaining entry and to no other socket. |
| RelayFacts.StepTyped | signaling-server.js:34-58 | Every frame the relay sends is typed `peer-list`, `peer-joined`, `peer-left`, `offer`, `answer` or `ice-candidate`. |
| RelayFacts.RunTyped | signaling-server.js:13-75 | The frame-type invariant holds over every run. |
| Transfer.SlicesFrom | src/utils/webrtc.ts:72-79 | Every frame of the send loop is binary and holds between 1 and 16384 bytes. |
| Transfer.FileFrames | src/utils/webrtc.ts:69-81 | `sendFile` sends `ceil(n / 16384)` binary frames and then `'EOF'` as its last frame. |
| Transfer.SliceCount | src/utils/webrtc.ts:74-79 | From `offset`, the loop sends `ceil((n - offset) / 16384)` binary frames. |
| Transfer.SliceAt | src/utils/webrtc.ts:74-77 | Frame `i` is the slice starting at `offset + 16384 i`, so offsets strictly increase. |
| Transfer.Chunking | src/utils/webrtc.ts:70-79 | An `n`-byte file goes out as exactly `ceil(n / 16384)` binary frames, frame `i` holding bytes `[16384 i, 16384 (i + 1))`. All frames are 16384 bytes except the last, which holds `n - 16384 ((n - 1) / 16384)`. |
| Transfer.SlicesConcat | src/utils/webrtc.ts:72-77 | The binary frames concatenate to the file. |
| Transfer.Concat | src/utils/webrtc.ts:60 | `new Blob(chunks)` holds as many bytes as the chunks altogether and starts with the first chunk. |
| Transfer.ConcatAppend | src/utils/webrtc.ts:60 | The blob of two chunk lists placed end to end is the two blobs placed end to end. |
| Transfer.FramesShape | src/utils/webrtc.ts:74-81 | `'EOF'` is sent exactly once, after the last chunk, and the frames before it are all binary. An empty file sends `'EOF'` alone. |
| Transfer.Receive | src/utils/webrtc.ts:58-66 | A binary frame extends the held bytes by its payload and calls nothing. `'EOF'` makes one callback with the held bytes and empties the buffer. Earlier callbacks are never altered. |
| Transfer.ReceiveChunks | src/utils/webrtc.ts:63-65 | Binary frames are appended to `receivedChunks` in arrival order, and no callback happens. |
| Transfer.ReceiveFile | src/utils/webrtc.ts:58-65 | On `'EOF'` the callback fires exactly once, with the chunks held so far followed by the file, and the buffer ends empty. |
| Transfer.RoundTrip | src/utils/webrtc.ts:55-82 | Feeding `sendFile(file)`'s frames to a fresh receiver gives exactly one callback, and its blob is `file`. |
| Transfer.BackToBack | src/utils/webrtc.ts:58-62 | Two files sent one after the other arrive as two callbacks, in order. |
| WebRtc.Dispatch | src/utils/webrtc.ts:41-52 | An offer sets the remote description to the offer, then the local description to the answer, then emits `{ answer }`, in that order. An answer only sets the remote description. A candidate is added and applied exactly when a remote description is already set. Any other signal changes nothing. Nothing but an offer touches the local description, and nothing but an offer or answer touches the remote one. Only an offer emits anything. |
| WebRtc.AppliedAreLate | src/utils/webrtc.ts:47-50 | Over any sequence of signals, the applied candidates are exactly those that arrive after a remote description is set, in arrival order. |
| WebRtc.CandidateBeforeOfferIsLost | src/utils/webrtc.ts:42-50 | A candidate that arrives before the offer is never applied, and the offer is still answered. |
| WebRtc.EmitsOneAnswerPerOffer | src/utils/webrtc.ts:42-46 | Over any sequence of signals, the handler emits one `{ answer }` per inbound offer, in order. |
| WebRtc.Peer.constructor | src/utils/webrtc.ts:2-6 | The module starts with no connection, no channel and the no-op callback. |
| WebRtc.Peer.SetFileReceiver | src/utils/webrtc.ts:8-10 | The callback is replaced. |
| WebRtc.Peer.SetupDataChannel | src/utils/webrtc.ts:55-56 | Each channel gets a fresh, empty chunk buffer. |
| WebRtc.Peer.CreateConnection | src/utils/webrtc.ts:21-39 | There is a fresh connection. Only the initiator creates the channel, sets its offer as the local description and then emits `{ offer }`. The responder does nothing and emits nothing. |
| WebRtc.Peer.OnIceCandidate | src/utils/webrtc.ts:23-25 | A discovered candidate is emitted as `{ candidate }`. The end-of-candidates `null` is never emitted. |
| WebRtc.Peer.OnDataChannel | src/utils/webrtc.ts:35-38 | Only a responder adopts the remote channel and gets a fresh buffer. |
| WebRtc.Peer.HandleSignal | src/utils/webrtc.ts:41-52 | The handler's steps compute `Dispatch`: remote, then local, then emit for an offer; remote only for an answer; add for a candidate. |
| WebRtc.Peer.OnMessage | src/utils/webrtc.ts:58-66 | The `onmessage` handler computes `Transfer.Receive`. |
| WebRtc.Peer.Send | src/utils/webrtc.ts:76 | `dataChannel.send` appends one frame. |
| WebRtc.Peer.SendFile | src/utils/webrtc.ts:69-82 | With a channel, the `while` loop and the final send append exactly `FileFrames(file)`, proved by a loop invariant. Without one, nothing is sent. |
| ClientSignaling.RegisterEnvelope | src/utils/signaling.ts:9 | The envelope is `type: 'register'` with the username and has no `userId` field. |
| ClientSignaling.SignalEnvelope | src/utils/signaling.ts:13 | The envelope is `type: 'signal'` with `from`, `to` and `signal` as given. |
| ClientSignaling.SignalingClient.constructor | src/utils/signaling.ts:5 | The `username` starts `undefined`. |
| ClientSignaling.SignalingClient.Register | src/utils/signaling.ts:7-10 | `username` becomes `user`, and exactly the register envelope is sent. |
| ClientSignaling.SignalingClient.SendSignal | src/utils/signaling.ts:12-14 | The signal envelope is sent, carrying the latest registered name. |
| ClientSignaling.AcceptSignal | src/utils/signaling.ts:16-27 | The callback fires exactly when the frame parses, `type === 'signal'` and `from` and `signal` are truthy. It receives those two fields. |
| ClientSignaling.FilterPeers | src/utils/signaling.ts:34 | The result is the order-preserving subsequence of the entries whose id differs from the own id. Each such entry keeps its number of copies, and no other entry remains. It fails exactly when some entry is `null` or `undefined`. |
| ClientSignaling.PeerListUpdate | src/utils/signaling.ts:29-42 | The callback fires only for `type === 'peers'` with an array `peers`, and it then receives `FilterPeers` of that array. |
| ClientSignaling.SignalRoundTrip | src/utils/signaling.ts:12-22 | A signal sent after `register(user)` passes the receiver's `onSignal` test, with the sender's name and the signal. |
| ClientSignaling.UnregisteredSignalDropped | src/utils/signaling.ts:12-22 | A signal sent before any `register` loses `from` on the wire and is dropped. |
| UserNames.TrimStart | src/contexts/UserContext.tsx:36 | The result is a suffix of the input. Everything cut is whitespace, and the result does not start with whitespace. |
| UserNames.TrimEnd | src/contexts/UserContext.tsx:36 | The result is a prefix of the input. Everything cut is whitespace, and the result does not end with whitespace. |
| UserNames.TrimIsInfix | src/contexts/UserContext.tsx:36 | `trim` returns a contiguous piece of the input with only whitespace cut from both ends. |
| UserNames.Trim | src/contexts/UserContext.tsx:36 | `trim` never lengthens the name, and a non-empty result neither starts nor ends with whitespace, so nothing more could have been cut. |
| UserNames.TrimEmpty | src/contexts/UserContext.tsx:36-37 | A name is rejected exactly when it is all whitespace. |
| UserNames.TrimIdempotent | src/contexts/UserContext.tsx:36 | Trimming a trimmed name changes nothing. |
| UserNames.IsWhitespace | src/contexts/UserContext.tsx:36 | On ASCII, `trim` removes exactly tab, line feed, vertical tab, form feed, carriage return and space. No letter, digit or `_` is ever removed. |
| UserNames.DigitsInjective | src/contexts/UserContext.tsx:50 | Different counters print as different numerals. |
| UserNames.Digits | src/contexts/UserContext.tsx:50 | `${counter}` is a non-empty string of decimal digits, with a leading `0` only for zero. |
| UserNames.DigitsParse | src/contexts/UserContext.tsx:50 | Reading the numeral back as a decimal number gives the counter. |
| UserNames.Candidate | src/contexts/UserContext.tsx:46-50 | Attempt 0 is `name` itself. Attempt `k > 0` is `name` followed by `_` and at least one more character. |
| UserNames.CandidatesDistinct | src/contexts/UserContext.tsx:46-50 | `name`, `name_1`, `name_2`, … are pairwise distinct. |
| UserNames.TakenBound | src/contexts/UserContext.tsx:49-52 | If the first `k` candidates are all taken, then `k <= |existingNames|`. This pigeonhole bound is why the loop terminates. |
| UserNames.FirstFree | src/contexts/UserContext.tsx:46-52 | The loop stops at the least index whose candidate is free, and that index is at most `|existingNames|`. |
| UserNames.UniqueName | src/contexts/UserContext.tsx:44-57 | The result is not in the list. It is `name` when `name` is free. Otherwise it is `name_k` for the least `k >= 1` whose candidate is free. |
| UserNames.SuccessiveCallsDiffer | src/contexts/UserContext.tsx:49-55 | A second call with the same name stops at a later index and returns a different name. |
| UserNames.UserStore.EnsureUniqueName | src/contexts/UserContext.tsx:44-57 | The `while` loop returns `UniqueName(name, list)`, and the stored list becomes the old list with that name appended. Loop invariants carry the proof. |
| UserNames.UserStore.SetUsername | src/contexts/UserContext.tsx:35-42 | A name that is blank after trimming changes nothing, including the stored list. Otherwise both the user name and the list's new last entry are the unique name for the trimmed input. |
| Interop.ClientRegisterKeyedUndefined | signaling-server.js:18-23 | A client `register` is filed under the key `undefined`, and the connection's `userId` becomes `undefined`. |
| Interop.ClientSignalDropped | signaling-server.js:17-61 | A client `signal` frame leaves the relay's state unchanged. |
| Interop.ClientsNeverMeet | signaling-server.js:18-75 | However these clients connect, register, signal and leave, the relay holds at most one entry, keyed `undefined`. Every frame it sends is a `peer-list` with no peers. |
| Interop.RelayNeverReachesCallbacks | src/utils/signaling.ts:16-42 | No frame the relay sends in any run ever reaches the client's `onSignal` or `onPeerListUpdate` callback. |

## Left out

- Sockets, the HTTP listener, `PORT`, `ReconnectingWebSocket` reconnection and buffering, and console logging are I/O. Each send is recorded as a delivery instead.
- The relay compares ids with `!==` and the registry compares them with `Map` key equality. Both compare an object or array id by identity, so two registrations with equal-looking object ids make two entries. The model compares such ids by value. For strings, numbers, booleans and `null` the two agree.
- JSON numbers are integers. Floating-point ids and `NaN` keys are not modelled.
- If a send to a closed socket fails, the model does not capture it. Every `send` is recorded as delivered.
- The handlers in `webrtc.ts` and `sendFile` are `async`. The model runs each of them to completion before anything else runs. The browser can interleave them at an `await`. A second signal can be handled in the middle of the first. During the `await` between chunks in `sendFile`, a second `sendFile` can interleave its frames, or a `createConnection` can replace `dataChannel`. `Peer.SendFile`, `Transfer.RoundTrip` and `Transfer.BackToBack` assume neither happens.
- WebRtc.Dispatch: takes `setRemoteDescription`, `createAnswer` and `setLocalDescription` to resolve. The browser refuses some of them, for instance an answer at a side that made no offer, which the WebRTC standard rejects with `InvalidStateError`. A refused call ends the handler: nothing more is set and nothing is emitted. The model instead sets the description. So a candidate that follows such an answer is modelled as applied. `WebRtc.AppliedAreLate`, `WebRtc.CandidateBeforeOfferIsLost` and `WebRtc.EmitsOneAnswerPerOffer` rest on the same assumption.
- RTCPeerConnection and ICE internals are not modelled, and neither are the contents of descriptions and candidates. A rejected `addIceCandidate` is recorded as `AddCandidate(c, false)`, and its unhandled promise rejection is not modelled.
- Calling `createConnection` a second time leaves the old connection's handlers and channel live in the browser. The model just replaces the connection.
- Registering the signal handler through the `handleSignal` argument is modelled as `Peer.HandleSignal` acting on the current connection. Registering several handlers is not modelled.
- A channel that exists but is not open makes `send` throw, and the model does not capture it.
- The receiver treats a text frame other than `'EOF'` as `new Uint8Array(string)`. The channel's `binaryType` is taken to be `arraybuffer`. Both are left out: binary frames are `Chunk`, and the text frame is `Eof`.
- The 10 ms `setTimeout` between chunks is left out. It does not change the frames `sendFile` sends, but it is also a point where other handlers can run, as the note on `async` handlers says. `file.arrayBuffer()` is the byte sequence given to `SendFile`.
- `onSignal` and `onPeerListUpdate` add a new socket listener on every call. The model has one listener of each kind.
- The `as Peer[]` cast is not checked at run time, and the model treats `data.peers` as whatever the frame holds.
- The stored `existingUsernames` value is taken to be a JSON list of strings. A missing value is the empty list, as the `|| '[]'` default gives. A corrupt stored value, which would make `JSON.parse` throw, is not modelled.
- The React state and the effect that calls `register(username)` when the name changes are left out. `SignalingClient.Register` models that call.
- Strings are sequences of Unicode scalar values, while JavaScript strings are UTF-16 code units. Every character `trim` removes lies in the Basic Multilingual Plane, so the two agree on `trim`, but unpaired surrogates cannot be represented.
- Candidate names are compared as sequences of characters, as JavaScript's `includes` compares strings.
