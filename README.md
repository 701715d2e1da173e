# Signalling relay and call session of a two-party WebRTC video call

This project models the two pieces of logic that set up a browser-to-browser
video call.

- **The relay server (server/index.js).** It keeps a presence registry, a
  JavaScript `Map` from user name to Socket.IO connection id. It broadcasts
  the list of names on every `register` and `disconnect`. It forwards the
  four handshake messages (`call-user`, `call-accepted`, `ice-candidate`,
  `end-call`) to the socket registered under the target name, or drops them.
- **The browser client (client/src/App.jsx).** A React component keeps the
  call state: `userId`, the displayed `users`, `isRegistered`, `inCall`,
  `isScreenSharing`, `currentCallUser`, and refs to the peer connection,
  the camera stream and the screen stream. It reacts to socket events and
  to user actions.

Files:

- `signaling.dfy` (module `Signaling`): names, socket ids, the opaque
  handshake payloads, and the events each side emits, with their wire names.
- `registry.dfy` (module `Registry`): the registry.
  - The `Map` is an insertion-ordered list of `(name, socket)` entries with
    distinct names.
  - Spec functions give `Map.set`, `Map.get`, the `disconnect` scan and the
    relay rule. Lemmas prove their properties.
  - Class `SignalingServer` holds the `users` list and an outbox of
    emissions. It has one method per handler; the `disconnect` handler is a
    loop with a `break`. `Receive` hands a client message to the handler
    registered under its wire name.
  - Three scenario methods.
- `media.dfy` (module `Media`): the media engine as opaque handles.
  - `Track` has a ghost `stopped` flag.
  - `MediaStream` has a fixed track list.
  - `PeerConnection` records the track on each sender, the descriptions and
    the added remote candidates, plus a ghost `closed` flag.
- `call_session.dfy` (module `CallSession`): the client.
  - Class `App` has one atomic method per socket handler and per user action.
  - The pure `users-update` filter and the `trim` guard have their lemmas.

How the client's inputs are modelled:

- Each awaited engine call can reject and land in the handler's `catch`. That
  outcome is an input of the method (`mediaOk`, `setRemoteOk`, `replaceOk`,
  ...). A produced offer or answer is an `Option` input, where `None` means
  the call rejected.
- The answer to the incoming-call confirmation dialog is the input `accept`.
- `socket.emit` appends to `App.outbox`. `io.emit` and `io.to(id).emit`
  append to `SignalingServer.outbox`, sent to `Everyone` or to one socket.

Gaps the code leaves, modelled as they are:

- Incoming candidates are not queued. `ice-candidate` with no peer connection
  drops the candidate (`CallSession.App.OnIceCandidate`).
- A second call is not rejected. `startCall` and an accepted `incoming-call`
  overwrite the refs. The previous connection stays open and its camera
  keeps running (`StartCall`, `OnIncomingCall`).
- Declining a call sends nothing.
- `disconnect` removes only the first entry, in insertion order, that holds
  the socket, not every such entry (`RemoveFirstAt`,
  `SharedSocketKeepsLaterName`).
- A failure after the camera was acquired leaves the partial session behind:
  the camera stream, the peer connection and `currentCallUser` stay set, and
  `inCall` keeps its value. The client does not return to an idle state.
- `endCall` never clears the three refs. A later `call-accepted` or
  `ice-candidate` is handed to the closed connection.
- An answer does not change `inCall`. `inCall` is already `true` once the
  offer is sent.

## Model

| member | source | states |
|---|---|---|
| Signaling.ClientEventNameSelectsKind | server/index.js:23-68 | Two client events share a wire name exactly when they are of the same kind, so each message reaches one `socket.on` handler. |
| Signaling.ReplyName | server/index.js:25-66 | An answer and a candidate are forwarded under the name they arrived with. A call request, an end of call and a registration are answered under a different name: `incoming-call`, `call-ended` and `users-update`. |
| Registry.Keys | server/index.js:25 | The broadcast list has one name per entry, in the Map's insertion order. |
| Registry.Lookup | server/index.js:40 | `users.get` finds a socket exactly when the name is a key. The socket found is stored under that name. |
| Registry.Set | server/index.js:24 | After `users.set(name, socket)` the Map holds the entry `(name, socket)`. |
| Registry.RemoveFirstBySocket | server/index.js:29-34 | The disconnect scan deletes one entry when some entry holds the socket, and none otherwise. |
| Registry.Route | server/index.js:40-46 | A forwarded event goes out at most once. It goes out exactly when the target is registered, to a socket stored under the target's name, with the payload unchanged. |
| Registry.LookupFindsEntry | server/index.js:40 | With distinct names, `get` returns the socket of the one entry under that name. |
| Registry.SetThenLookup | server/index.js:24 | Last write wins: after `register(name)` from socket S, `get(name)` is S, whatever was stored before. |
| Registry.SetKeepsOthers | server/index.js:24 | Registering one name leaves every other name's socket as it was. |
| Registry.SetKeys | server/index.js:24-25 | Re-registering an existing name keeps the key sequence as it was. A new name is appended at the end. |
| Registry.SetKeepsUnique | server/index.js:24 | `set` never creates a second entry for a name. |
| Registry.SetExistingInPlace | server/index.js:24 | Re-registering a name changes only that entry's socket, at the same position. |
| Registry.SetNewAppends | server/index.js:24 | Registering a new name appends exactly its entry after all existing ones. |
| Registry.RemoveFirstAt | server/index.js:29-33 | `disconnect` deletes exactly the first entry holding the socket. Every other entry stays, in order. |
| Registry.RemoveFirstAbsent | server/index.js:29-34 | A socket that holds no entry leaves the Map unchanged. |
| Registry.RemoveKeepsUnique | server/index.js:31 | Deleting an entry keeps the remaining names distinct. |
| Registry.OverwrittenNameSurvives | server/index.js:24-31 | A name taken over by a newer socket is not removed when the older socket disconnects. |
| Registry.SharedSocketKeepsLaterName | server/index.js:29-33 | A socket registered under two names loses only the earlier name on disconnect. The later name stays mapped to it. |
| Registry.SignalingServer.constructor | server/index.js:18 | The registry starts empty with nothing emitted. |
| Registry.SignalingServer.Broadcast | server/index.js:25 | The broadcast sent after `register`, and the same after `disconnect` (line 35), goes to everyone and is a `users-update`. |
| Registry.SignalingServer.Receive | server/index.js:23-68 | The handler `socket.on` registered under the message's name runs. Only `register` changes the Map, to `set(name, socket)`. Earlier emissions stay as they were, and at most one event is added: for `register` it goes to everyone, for a relayed message to a single socket. Every added event carries `ReplyName` of the message. The outbox grows exactly as that handler's own contract says: the key-list broadcast for `register`, `Route` of `incoming-call{offer, callerUserId}`, `{answer}` or `{candidate}` for the three relays, and `Route` of `call-ended` for a non-null `end-call` target. |
| Registry.SignalingServer.Register | server/index.js:23-26 | The Map becomes `set(name, socket)`, so `get(name)` is the socket. Exactly one `users-update` to everyone is appended. It carries the new key list. The names stay distinct. |
| Registry.SignalingServer.Disconnect | server/index.js:28-36 | The loop with its `break` leaves the Map equal to the first-match removal. Exactly one `users-update` to everyone follows, even when nothing was removed. Names stay distinct. |
| Registry.SignalingServer.CallUser | server/index.js:39-47 | Appends `incoming-call{offer, callerUserId}` to the target's socket if registered, nothing otherwise. The registry is untouched. |
| Registry.SignalingServer.CallAccepted | server/index.js:49-54 | Appends `call-accepted{answer}`, with the target name stripped, to the target's socket or nothing. The registry is untouched. |
| Registry.SignalingServer.IceCandidate | server/index.js:56-61 | Appends `ice-candidate{candidate}`, with the target name stripped, to the target's socket or nothing. The registry is untouched. |
| Registry.SignalingServer.EndCall | server/index.js:63-68 | Appends a payload-less `call-ended` to the target's socket or nothing. A null target is never found. The registry is untouched. |
| Registry.AliceCallsBob | server/index.js:23-47 | Two registrations and a call give two broadcasts (`[alice]`, then `[alice, bob]`) and the offer at bob's socket with alice's name. |
| Registry.CallNobody | server/index.js:39-47 | A call to an unregistered name emits nothing beyond the caller's own registration broadcast. |
| Registry.ReconnectThenOldSocketCloses | server/index.js:23-36 | A name re-registered from a new socket survives the old socket's disconnect and maps to the new socket. |
| Media.Track.Stop | client/src/App.jsx:236 | `track.stop()` (also at lines 218 and 241) leaves the track stopped. Calling it again keeps it stopped. |
| Media.FirstVideo | client/src/App.jsx:191-194 | The index of the first video track, with no video track before it. None when there is no video track. |
| Media.VideoSenderTrack | client/src/App.jsx:192-194 | The sender that `.find(kind === 'video')` selects carries a video track, and exists exactly when some sender carries video. |
| Media.MediaStream.Camera | client/src/App.jsx:151-154 | `getUserMedia` yields two fresh, live tracks: audio, then video. |
| Media.MediaStream.Screen | client/src/App.jsx:186-188 | `getDisplayMedia` yields one fresh, live video track. |
| Media.MediaStream.StopAll | client/src/App.jsx:236 | The `forEach(track.stop())` loop leaves every track of the stream stopped. |
| Media.PeerConnection.constructor | client/src/App.jsx:112-114 | A new connection has no senders, no descriptions and no candidates, and is open. |
| Media.PeerConnection.AddTracks | client/src/App.jsx:163 | The `forEach(addTrack)` loop appends the stream's tracks to the senders, in order. |
| Media.PeerConnection.ReplaceTrack | client/src/App.jsx:197 | `replaceTrack` changes the track of that one sender only. |
| Media.PeerConnection.SetLocalDescription | client/src/App.jsx:167 | A resolved `setLocalDescription` (also at line 53) makes the given offer or answer the local description. |
| Media.PeerConnection.SetRemoteDescription | client/src/App.jsx:71-73 | A resolved `setRemoteDescription` (also at line 49) makes the given offer or answer the remote description. |
| Media.PeerConnection.AddIceCandidate | client/src/App.jsx:84-86 | An added candidate is appended to the connection's remote candidates. |
| Media.PeerConnection.Close | client/src/App.jsx:231 | The connection is closed. |
| CallSession.Without | client/src/App.jsx:26 | The displayed list holds exactly the received names other than the own `userId`, and is no longer than the list received. |
| CallSession.WithoutConcat | client/src/App.jsx:26 | The filter keeps the received order: filtering a concatenation filters each part. |
| CallSession.WithoutAbsent | client/src/App.jsx:26 | A list without the own name is shown unchanged. |
| CallSession.WithoutDistinct | client/src/App.jsx:26 | A duplicate-free server list gives a duplicate-free displayed list. |
| CallSession.TrimStartSpec | client/src/App.jsx:142 | `TrimStart(s)` (the leading half of `String.prototype.trim`) is a suffix of the string. Everything dropped is whitespace, and the result does not start with whitespace. |
| CallSession.TrimEndSpec | client/src/App.jsx:142 | `TrimEnd(s)` (the trailing half of `String.prototype.trim`) is a prefix of the string. Everything dropped is whitespace, and the result does not end with whitespace. |
| CallSession.TrimEmptyIff | client/src/App.jsx:142 | `userId.trim()` is the empty (falsy) string exactly when every character of `userId` is JavaScript whitespace. |
| CallSession.FirstVideoAfterReplace | client/src/App.jsx:192-214 | Putting a video track on the first video sender keeps that sender the one `.find` selects, so both toggles address the same sender. |
| CallSession.App.CameraVideo | client/src/App.jsx:208 | `getVideoTracks()[0]` of the held camera stream is one of its tracks and is a video track. |
| CallSession.App.constructor | client/src/App.jsx:8-21 | The initial state: empty name, no users, not registered, not in a call, not sharing, no partner, no refs held. |
| CallSession.App.EditUserId | client/src/App.jsx:260 | The name field sets `userId`. |
| CallSession.App.OnUsersUpdate | client/src/App.jsx:25-27 | `users` becomes the received list without the own name. Every other received name is shown, and the own name never is. |
| CallSession.App.RegisterUser | client/src/App.jsx:140-146 | With a non-blank name, exactly one `register` carrying the untrimmed name is emitted and `isRegistered` is set. Otherwise nothing is emitted and `isRegistered` is unchanged. |
| CallSession.App.CreatePeerConnection | client/src/App.jsx:111-137 | A fresh open connection bound to `targetUserId` is stored in the ref. |
| CallSession.App.OnLocalCandidate | client/src/App.jsx:119-126 | A local candidate is emitted to the target fixed when its connection was created, and only when non-null and the target is non-empty. A null candidate is never in the outbox. |
| CallSession.App.OpenSession | client/src/App.jsx:151-163 | The steps shared by `startCall` and an accepted incoming call (lines 34-46): a fresh camera stream with live tracks is held, and a fresh connection bound to the partner carries exactly that stream's tracks, with no descriptions or candidates yet. The partner is recorded as `currentCallUser`, the connection's video sender is the camera's video track, and the App invariant is kept. |
| CallSession.App.StartCall | client/src/App.jsx:149-179 | See the notes below the table. |
| CallSession.App.OnIncomingCall | client/src/App.jsx:30-65 | Declined, or camera refused: no change. Otherwise: a fresh camera stream with live tracks, and a connection bound to the caller with no remote candidates yet. `currentCallUser` is the caller. The offer is applied as the remote description if that succeeds. `call-accepted{caller, answer}` is emitted only after every step succeeds, and only then is `inCall` set. |
| CallSession.App.OnCallAccepted | client/src/App.jsx:68-78 | With a connection held, the answer becomes its remote description if that succeeds. Otherwise the message is ignored. No flag, ref or outbox changes. |
| CallSession.App.OnIceCandidate | client/src/App.jsx:81-91 | A non-null candidate is added to the held connection if that succeeds. With no connection it is dropped; there is no queue. No flag, ref or outbox changes. |
| CallSession.App.ToggleScreenShare | client/src/App.jsx:182-225 | See the notes below the table. |
| CallSession.App.ShareThenStopSharing | client/src/App.jsx:182-225 | Two successful toggles in a call put the original camera track back on the video sender. They leave the client not sharing, with every screen track stopped. |
| CallSession.App.EndCall | client/src/App.jsx:228-251 | Always ends with `inCall`, `isScreenSharing` false and `currentCallUser` null. A held connection is closed, and held camera and screen tracks are stopped. Nothing is emitted. |
| CallSession.App.OnCallEnded | client/src/App.jsx:94-96 | A remote `call-ended` tears down as `endCall` does and emits nothing. |
| CallSession.App.HangUp | client/src/App.jsx:301-304 | The End Call button first emits `end-call` to the current partner, who may be null, then tears down as `endCall` does. |

What `CallSession.App.StartCall` states:

- Camera refused: nothing changes.
- Otherwise the client holds a fresh camera stream, whose tracks are fresh
  and live, and a fresh connection bound to `t`. `currentCallUser` is `t`.
- The video sender carries the camera's video track.
- `call-user{t, offer, userId}` is emitted exactly once, and only when every
  step succeeds. Only then does `inCall` become `true`. A failure before the
  emit sends nothing and leaves `inCall` as it was.

What `CallSession.App.ToggleScreenShare` states:

- **Turning sharing on.**
  - A granted screen capture is held.
  - With a connection, the first video sender then carries the screen track,
    or no sender carries video.
  - In that case `isScreenSharing` becomes `true`.
  - A failed `replaceTrack`, or no connection, leaves `isScreenSharing`
    false.
  - A screen stream still held from such a failure is replaced in the ref
    without being stopped: its tracks keep their state.
- **Turning sharing off.**
  - The first video sender carries the camera's video track again, or no
    sender carries video.
  - In that case every screen track is stopped and `isScreenSharing`
    becomes `false`.
  - A failed `replaceTrack` changes nothing.
- The descriptions and candidates are not touched.
- The camera tracks are never stopped by a toggle, in either direction.

Invariant kept by every client transition (`CallSession.App.Valid`):

- Being in a call means there is a partner and a peer connection.
- Sharing means there is a screen stream and a peer connection.
- A peer connection exists only with a camera stream.
- No camera track is also a screen track.
- A held camera stream has a video track, and so does a held screen stream.
- No null candidate is ever emitted.

## Left out

- Server setup is not modelled: Express, the HTTP server, CORS, the Socket.IO
  server options, `server.listen`, the `connection` event and `console.log`
  (server/index.js:1-16, 20-21, 71-74). These are I/O plumbing.
- Socket.IO delivery is not modelled: rooms, fan-out and transport ordering.
  An emit is only an append to an outbox. The client's socket creation
  (client/src/App.jsx:5) and the `socket.off` clean-up (client/src/App.jsx:98-105)
  are left out too.
- Handler re-subscription when `userId` changes is not modelled. The
  `users-update` handler always filters with the current `userId`.
- WebRTC internals are not modelled: negotiation, the STUN configuration,
  transport, and what the tracks carry. Senders come only from `addTrack`.
  Transceivers created by a remote description are not modelled.
- The engine's rejections are inputs of each transition. In particular,
  whether a closed connection rejects `setRemoteDescription` or
  `addIceCandidate` is not derived from its ghost `closed` flag.
- Rendering is not modelled: the JSX, the `srcObject` assignments to the
  video elements, the `ontrack` callback that fills the remote stream, and
  the remote `MediaStream` (client/src/App.jsx:38, 116-117, 128-132, 155,
  244-246, 253-315). The video elements are assumed mounted whenever a
  handler runs.
- `window.confirm` is not modelled (client/src/App.jsx:31). Its answer is
  the `accept` input of `OnIncomingCall`.
- The screen track's `onended` callback is not modelled
  (client/src/App.jsx:201-203). It re-enters `toggleScreenShare` through a
  stale React closure, which is browser and React concurrency behaviour.
  Stopping the share from the browser's own control is therefore not
  modelled.
- Each handler runs as one atomic step. Interleavings at `await` points are
  not modelled, for example a `call-ended` that arrives while `startCall`
  waits for the camera. `useState` updates take effect at once.
- Payload values are typed, not arbitrary JSON. Names are strings, and the
  server's `register` payload is taken to be one. Dafny strings are
  sequences of Unicode scalar values, where JavaScript uses UTF-16 code
  units. Session descriptions and candidates are opaque values; only the
  candidate may be null.
