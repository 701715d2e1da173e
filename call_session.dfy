/**
 * The browser client of client/src/App.jsx: the React state and refs that
 * decide what the client does, and one atomic transition per socket handler
 * and per user action. The media engine is reached through the opaque
 * handles of module Media; every emit over the socket is an append to the
 * client's outbox.
 *
 * An awaited engine call that rejects jumps to the handler's `catch`, which
 * only logs: the state is left as the steps before it left it. Whether each
 * awaited call resolves is an input of the transition (`mediaOk`,
 * `setLocalOk`, ...), and a value the engine produces (an offer, an answer)
 * is an `Option` input whose `None` stands for a rejection.
 */
module CallSession {
  import opened Signaling
  import opened Media

  // ---------------------------------------------------------------------
  // The pure parts: the `users-update` filter and the `registerUser` guard

  /**
   * `userList.filter((id) => id !== userId)`: the online list without the
   * viewer's own name.
   */
  function Without(userList: seq<Name>, self: Name): (r: seq<Name>)
    ensures |r| <= |userList|
    ensures forall x :: x in r <==> x in userList && x != self
  {
    if userList == [] then []
    else (if userList[0] == self then [] else [userList[0]]) + Without(userList[1..], self)
  }

  /** The filter keeps order: filtering a concatenation filters each part. */
  lemma {:induction false} WithoutConcat(a: seq<Name>, b: seq<Name>, self: Name)
    ensures Without(a + b, self) == Without(a, self) + Without(b, self)
  {
    if a != [] {
      assert (a + b)[0] == a[0] && (a + b)[1..] == a[1..] + b;
      WithoutConcat(a[1..], b, self);
      var head := if a[0] == self then [] else [a[0]];
      assert Without(a + b, self) == head + Without(a[1..] + b, self);
      assert Without(a, self) == head + Without(a[1..], self);
    } else {
      assert a + b == b;
    }
  }

  /** A list without the viewer's name passes through unchanged. */
  lemma {:induction false} WithoutAbsent(userList: seq<Name>, self: Name)
    requires self !in userList
    ensures Without(userList, self) == userList
  {
    if userList != [] {
      WithoutAbsent(userList[1..], self);
    }
  }

  /** A duplicate-free server list gives a duplicate-free displayed list. */
  lemma {:induction false} WithoutDistinct(userList: seq<Name>, self: Name)
    requires Distinct(userList)
    ensures Distinct(Without(userList, self))
  {
    if userList != [] {
      var tail := userList[1..];
      assert Distinct(tail) by {
        forall i, j | 0 <= i < j < |tail| ensures tail[i] != tail[j] {
          assert tail[i] == userList[i + 1] && tail[j] == userList[j + 1];
        }
      }
      WithoutDistinct(tail, self);
      assert userList[0] !in tail;
      var r := Without(userList, self);
      if userList[0] != self {
        assert r == [userList[0]] + Without(tail, self);
        forall i, j | 0 <= i < j < |r| ensures r[i] != r[j] {
          if i == 0 {
            assert r[j] in Without(tail, self);
          } else {
            assert r[i] == Without(tail, self)[i - 1] && r[j] == Without(tail, self)[j - 1];
          }
        }
      }
    }
  }

  /** The characters `String.prototype.trim` strips: WhiteSpace and LineTerminator. */
  predicate IsJsWhitespace(c: char)
  {
    || c == '\t' || c == '\n' || c == '\U{000B}' || c == '\U{000C}' || c == '\r' || c == ' '
    || c == '\U{00A0}' || c == '\U{1680}' || ('\U{2000}' <= c <= '\U{200A}')
    || c == '\U{2028}' || c == '\U{2029}' || c == '\U{202F}' || c == '\U{205F}'
    || c == '\U{3000}' || c == '\U{FEFF}'
  }

  /** The string without its leading whitespace. */
  function TrimStart(s: string): (r: string)
  {
    if s != [] && IsJsWhitespace(s[0]) then TrimStart(s[1..]) else s
  }

  /** The string without its trailing whitespace. */
  function TrimEnd(s: string): (r: string)
  {
    if s != [] && IsJsWhitespace(s[|s| - 1]) then TrimEnd(s[..|s| - 1]) else s
  }

  /** `s.trim()`. */
  function Trim(s: string): (r: string)
  {
    TrimEnd(TrimStart(s))
  }

  /**
   * `TrimStart` drops a whitespace-only prefix and stops at the first
   * character that is not whitespace.
   */
  lemma {:induction false} TrimStartSpec(s: string)
    ensures |TrimStart(s)| <= |s|
    ensures forall i :: 0 <= i < |TrimStart(s)| ==> TrimStart(s)[i] == s[|s| - |TrimStart(s)| + i]
    ensures forall i :: 0 <= i < |s| - |TrimStart(s)| ==> IsJsWhitespace(s[i])
    ensures TrimStart(s) != [] ==> !IsJsWhitespace(TrimStart(s)[0])
  {
    if s != [] && IsJsWhitespace(s[0]) {
      TrimStartSpec(s[1..]);
      var r := TrimStart(s[1..]);
      assert forall i :: 0 <= i < |r| ==> r[i] == s[1..][|s| - 1 - |r| + i] == s[|s| - |r| + i];
      assert forall i :: 1 <= i < |s| - |r| ==> s[i] == s[1..][i - 1];
    }
  }

  /**
   * `TrimEnd` drops a whitespace-only suffix and stops at the last
   * character that is not whitespace.
   */
  lemma {:induction false} TrimEndSpec(s: string)
    ensures |TrimEnd(s)| <= |s|
    ensures forall i :: 0 <= i < |TrimEnd(s)| ==> TrimEnd(s)[i] == s[i]
    ensures forall i :: |TrimEnd(s)| <= i < |s| ==> IsJsWhitespace(s[i])
    ensures TrimEnd(s) != [] ==> !IsJsWhitespace(TrimEnd(s)[|TrimEnd(s)| - 1])
  {
    if s != [] && IsJsWhitespace(s[|s| - 1]) {
      TrimEndSpec(s[..|s| - 1]);
      var r := TrimEnd(s[..|s| - 1]);
      assert forall i :: 0 <= i < |r| ==> r[i] == s[..|s| - 1][i] == s[i];
    }
  }

  /**
   * The guard `if (userId.trim())`: the trimmed name is the empty (falsy)
   * string exactly when every character of the name is whitespace.
   */
  lemma TrimEmptyIff(s: string)
    ensures Trim(s) == [] <==> forall i :: 0 <= i < |s| ==> IsJsWhitespace(s[i])
  {
    TrimStartSpec(s);
    var t := TrimStart(s);
    TrimEndSpec(t);
    if t != [] {
      assert TrimEnd(t) != [];
      assert !IsJsWhitespace(s[|s| - |t|]);
    }
  }

  /**
   * Replacing the track of the first video sender by another video track
   * keeps that sender first: the screen track and the camera track are
   * swapped on the same sender.
   */
  lemma {:induction false} FirstVideoAfterReplace(ts: seq<Track>, i: nat, t: Track)
    requires FirstVideo(ts) == Some(i)
    requires t.kind == Video
    ensures FirstVideo(ts[i := t]) == Some(i)
  {
    if i > 0 {
      assert ts[i := t][1..] == ts[1..][i - 1 := t];
      FirstVideoAfterReplace(ts[1..], i - 1, t);
    }
  }

  // ---------------------------------------------------------------------
  // The component state and its transitions

  class App {
    // useState
    var userId: string
    var users: seq<Name>
    var isRegistered: bool
    var inCall: bool
    var isScreenSharing: bool
    var currentCallUser: Option<Name>
    // useRef: peerConnectionRef, localStreamRef, screenStreamRef
    var peerConnection: PeerConnection?
    var localStream: MediaStream?
    var screenStream: MediaStream?
    // everything passed to `socket.emit`, in order
    var outbox: seq<ClientEvent>

    /**
     * What every transition keeps: the streams the engine produced have a
     * video track; a peer connection is only made once the camera stream is
     * held; being in a call means a partner and a peer connection; sharing
     * means a screen stream and a peer connection; no camera track is a
     * screen track; no null candidate is ever emitted.
     */
    ghost predicate Valid()
      reads this
    {
      && (localStream != null ==> FirstVideo(localStream.tracks).Some?)
      && (screenStream != null ==> FirstVideo(screenStream.tracks).Some?)
      && TracksOf(localStream) !! TracksOf(screenStream)
      && (peerConnection != null ==> localStream != null)
      && (inCall ==> currentCallUser.Some? && peerConnection != null)
      && (isScreenSharing ==> peerConnection != null && screenStream != null)
      && (forall e :: e in outbox && e.IceCandidate? ==> e.candidate.Some?)
    }

    /** The camera's video track, `localStreamRef.current.getVideoTracks()[0]`. */
    function CameraVideo(): (t: Track)
      requires Valid() && localStream != null
      reads this
      ensures t in localStream.tracks && t.kind == Video
    {
      localStream.tracks[FirstVideo(localStream.tracks).value]
    }

    /** The initial render: every `useState` and `useRef` at its initial value. */
    constructor ()
      ensures Valid()
      ensures userId == [] && users == [] && !isRegistered && !inCall && !isScreenSharing
      ensures currentCallUser == None && outbox == []
      ensures peerConnection == null && localStream == null && screenStream == null
    {
      userId, users, isRegistered := [], [], false;
      inCall, isScreenSharing, currentCallUser := false, false, None;
      peerConnection, localStream, screenStream := null, null, null;
      outbox := [];
    }

    /** The name field's `onChange`: `setUserId(e.target.value)`. */
    method EditUserId(value: string)
      requires Valid()
      modifies this`userId
      ensures Valid() && userId == value
    {
      userId := value;
    }

    /** `socket.on('users-update', …)`: show the list without the own name. */
    method OnUsersUpdate(userList: seq<Name>)
      requires Valid()
      modifies this`users
      ensures Valid()
      ensures users == Without(userList, userId)
      ensures userId !in users
      ensures forall x :: x in userList && x != userId ==> x in users
    {
      users := Without(userList, userId);
    }

    /**
     * `registerUser`: emit the name as typed (untrimmed) and mark the client
     * registered, unless the name is blank.
     */
    method RegisterUser()
      requires Valid()
      modifies this`outbox, this`isRegistered
      ensures Valid()
      ensures Trim(userId) != [] ==> outbox == old(outbox) + [Register(userId)] && isRegistered
      ensures Trim(userId) == [] ==> outbox == old(outbox) && isRegistered == old(isRegistered)
    {
      var trimmed := Trim(userId);
      if trimmed != [] {
        outbox := outbox + [Register(userId)];
        isRegistered := true;
      }
    }

    /**
     * `createPeerConnection(targetUserId)`: a fresh connection whose
     * candidate callback is bound to `targetUserId`, stored in the ref.
     */
    method CreatePeerConnection(targetUserId: Name) returns (pc: PeerConnection)
      modifies this`peerConnection
      ensures fresh(pc) && peerConnection == pc && pc.target == targetUserId
      ensures pc.senders == [] && !pc.closed
      ensures pc.localDescription == None && pc.remoteDescription == None && pc.remoteCandidates == []
    {
      pc := new PeerConnection(targetUserId);
      peerConnection := pc;
    }

    /**
     * The steps `startCall` and an accepted `incoming-call` share once the
     * camera stream has been obtained: hold the stream, create the
     * connection for the partner, record the partner, add the tracks.
     */
    method OpenSession(partner: Name) returns (pc: PeerConnection)
      requires Valid()
      modifies this`localStream, this`peerConnection, this`currentCallUser
      ensures Valid()
      ensures fresh(localStream) && fresh(pc) && peerConnection == pc
      ensures pc.target == partner && currentCallUser == Some(partner)
      ensures pc.senders == localStream.tracks && !pc.closed
      ensures pc.localDescription == None && pc.remoteDescription == None && pc.remoteCandidates == []
      ensures VideoSenderTrack(pc) == Some(CameraVideo())
      ensures forall t :: t in localStream.tracks ==> fresh(t) && !t.stopped
    {
      var stream := new MediaStream.Camera();
      localStream := stream;
      pc := CreatePeerConnection(partner);
      currentCallUser := Some(partner);
      pc.AddTracks(stream);
    }

    /**
     * `pc.onicecandidate` of connection `pc`: a non-null candidate is sent
     * to the name `pc` was created for, whichever connection the ref holds now.
     */
    method OnLocalCandidate(pc: PeerConnection, candidate: Option<Ice>)
      requires Valid()
      modifies this`outbox
      ensures Valid()
      ensures outbox == old(outbox) +
        (if candidate.Some? && pc.target != [] then [IceCandidate(pc.target, candidate)] else [])
    {
      if candidate.Some? && pc.target != [] {
        outbox := outbox + [IceCandidate(pc.target, candidate)];
      }
    }

    /**
     * `startCall(targetUserId)`. There is no guard against a call already in
     * progress: the refs are overwritten and the previous connection and
     * camera stream are left as they were (not closed, not stopped).
     */
    method StartCall(targetUserId: Name, mediaOk: bool, offer: Option<Sdp>, setLocalOk: bool)
      requires Valid()
      modifies this
      ensures Valid()
      ensures userId == old(userId) && users == old(users) && isRegistered == old(isRegistered)
      ensures isScreenSharing == old(isScreenSharing) && screenStream == old(screenStream)
      // getUserMedia rejected: nothing happened
      ensures !mediaOk ==> unchanged(this)
      // camera acquired: fresh stream and connection, partner fixed
      ensures mediaOk ==> fresh(localStream) && fresh(peerConnection)
      ensures mediaOk ==> forall t :: t in localStream.tracks ==> fresh(t) && !t.stopped
      ensures mediaOk ==> peerConnection.target == targetUserId && currentCallUser == Some(targetUserId)
      ensures mediaOk ==> peerConnection.senders == localStream.tracks && !peerConnection.closed
      ensures mediaOk ==> VideoSenderTrack(peerConnection) == Some(CameraVideo())
      ensures mediaOk ==> peerConnection.remoteDescription == None && peerConnection.remoteCandidates == []
      // the offer is sent, and only then is the client in a call
      ensures var sent := mediaOk && offer.Some? && setLocalOk;
        && outbox == old(outbox) + (if sent then [CallUser(targetUserId, offer.value, userId)] else [])
        && inCall == (old(inCall) || sent)
        && (mediaOk ==> peerConnection.localDescription == (if sent then offer else None))
    {
      if !mediaOk {
        return;
      }
      var pc := OpenSession(targetUserId);
      if offer.None? || !setLocalOk {
        return;
      }
      pc.SetLocalDescription(offer.value);
      outbox := outbox + [CallUser(targetUserId, offer.value, userId)];
      inCall := true;
    }

    /**
     * `socket.on('incoming-call', …)`. `accept` is the answer to the
     * confirmation dialog; declining sends nothing. As with `startCall`,
     * an ongoing call's refs are overwritten without being released.
     */
    method OnIncomingCall(offer: Sdp, callerUserId: Name, accept: bool,
                          mediaOk: bool, setRemoteOk: bool, answer: Option<Sdp>, setLocalOk: bool)
      requires Valid()
      modifies this
      ensures Valid()
      ensures userId == old(userId) && users == old(users) && isRegistered == old(isRegistered)
      ensures isScreenSharing == old(isScreenSharing) && screenStream == old(screenStream)
      ensures !(accept && mediaOk) ==> unchanged(this)
      ensures accept && mediaOk ==> fresh(localStream) && fresh(peerConnection)
      ensures accept && mediaOk ==> forall t :: t in localStream.tracks ==> fresh(t) && !t.stopped
      ensures accept && mediaOk ==> peerConnection.remoteCandidates == []
      ensures accept && mediaOk ==> peerConnection.target == callerUserId && currentCallUser == Some(callerUserId)
      ensures accept && mediaOk ==> peerConnection.senders == localStream.tracks && !peerConnection.closed
      ensures accept && mediaOk ==> peerConnection.remoteDescription == (if setRemoteOk then Some(offer) else None)
      ensures var sent := accept && mediaOk && setRemoteOk && answer.Some? && setLocalOk;
        && outbox == old(outbox) + (if sent then [CallAccepted(callerUserId, answer.value)] else [])
        && inCall == (old(inCall) || sent)
        && (accept && mediaOk ==> peerConnection.localDescription == (if sent then answer else None))
    {
      if !accept || !mediaOk {
        return;
      }
      var pc := OpenSession(callerUserId);
      if !setRemoteOk {
        return;
      }
      pc.SetRemoteDescription(offer);
      if answer.None? || !setLocalOk {
        return;
      }
      pc.SetLocalDescription(answer.value);
      outbox := outbox + [CallAccepted(callerUserId, answer.value)];
      inCall := true;
    }

    /**
     * `socket.on('call-accepted', …)`: apply the answer if a connection is
     * held; otherwise ignore it. Nothing else changes either way.
     */
    method OnCallAccepted(answer: Sdp, setRemoteOk: bool)
      requires Valid()
      modifies peerConnection
      ensures Valid() && unchanged(this)
      ensures peerConnection != null ==>
        peerConnection.closed == old(peerConnection.closed) &&
        peerConnection.State() ==
          if setRemoteOk then old(peerConnection.State()).(remoteDescription := Some(answer))
          else old(peerConnection.State())
    {
      if peerConnection != null && setRemoteOk {
        peerConnection.SetRemoteDescription(answer);
      }
    }

    /**
     * `socket.on('ice-candidate', …)`: a non-null candidate goes straight to
     * the held connection; with no connection it is dropped (there is no
     * queue), and a rejected `addIceCandidate` is only logged.
     */
    method OnIceCandidate(candidate: Option<Ice>, addOk: bool)
      requires Valid()
      modifies peerConnection
      ensures Valid() && unchanged(this)
      ensures peerConnection != null ==>
        peerConnection.closed == old(peerConnection.closed) &&
        peerConnection.State() ==
          if candidate.Some? && addOk
          then old(peerConnection.State()).(remoteCandidates := old(peerConnection.remoteCandidates) + [candidate.value])
          else old(peerConnection.State())
    {
      if peerConnection != null && candidate.Some? && addOk {
        peerConnection.AddIceCandidate(candidate.value);
      }
    }

    /**
     * `toggleScreenShare`. Turning sharing on puts the screen's video track
     * on the first video sender (if there is one); turning it off puts the
     * camera's video track back and stops every screen track. A rejected
     * `getDisplayMedia` or `replaceTrack`, or the missing connection behind
     * `peerConnectionRef.current.getSenders()`, ends in the `catch`.
     * Turning sharing on overwrites the screen-stream ref without stopping
     * a stream it still holds (one left behind by an earlier failed
     * `replaceTrack`), so that stream's tracks stay as they were.
     */
    method ToggleScreenShare(screenOk: bool, replaceOk: bool)
      requires Valid()
      modifies this`screenStream, this`isScreenSharing, peerConnection, TracksOf(screenStream)
      ensures Valid()
      ensures peerConnection == old(peerConnection) && localStream == old(localStream)
      ensures peerConnection != null ==>
        peerConnection.closed == old(peerConnection.closed) &&
        peerConnection.State() == old(peerConnection.State()).(senders := peerConnection.senders)
      // turning on
      ensures !old(isScreenSharing) && !screenOk ==>
        screenStream == old(screenStream) && !isScreenSharing &&
        (peerConnection != null ==> peerConnection.senders == old(peerConnection.senders))
      ensures !old(isScreenSharing) ==>
        forall t :: t in old(TracksOf(screenStream)) ==> t.stopped == old(t.stopped)
      // the camera keeps running in both directions
      ensures forall t :: t in old(TracksOf(localStream)) ==> t.stopped == old(t.stopped)
      ensures !old(isScreenSharing) && screenOk ==>
        fresh(screenStream) && |screenStream.tracks| == 1 && screenStream.tracks[0].kind == Video &&
        fresh(screenStream.tracks[0]) && !screenStream.tracks[0].stopped
      ensures !old(isScreenSharing) && screenOk && peerConnection == null ==> !isScreenSharing
      ensures !old(isScreenSharing) && screenOk && peerConnection != null ==>
        var i := FirstVideo(old(peerConnection.senders));
        && isScreenSharing == (i.None? || replaceOk)
        && peerConnection.senders ==
             (if i.Some? && replaceOk then old(peerConnection.senders)[i.value := screenStream.tracks[0]]
              else old(peerConnection.senders))
      // turning off
      ensures old(isScreenSharing) ==>
        var i := FirstVideo(old(peerConnection.senders));
        var done := i.None? || replaceOk;
        && screenStream == old(screenStream)
        && isScreenSharing == !done
        && peerConnection.senders ==
             (if i.Some? && replaceOk then old(peerConnection.senders)[i.value := CameraVideo()]
              else old(peerConnection.senders))
        && (done ==> forall k :: 0 <= k < |screenStream.tracks| ==> screenStream.tracks[k].stopped)
        && (!done ==> unchanged(TracksOf(screenStream)))
    {
      if !isScreenSharing {
        if !screenOk {
          return;
        }
        var screen := new MediaStream.Screen();
        screenStream := screen;
        var videoTrack := screen.tracks[0];
        if peerConnection == null {
          return;
        }
        var sender := FirstVideo(peerConnection.senders);
        if sender.Some? {
          if !replaceOk {
            return;
          }
          peerConnection.ReplaceTrack(sender.value, videoTrack);
        }
        isScreenSharing := true;
      } else {
        var videoTrack := CameraVideo();
        var sender := FirstVideo(peerConnection.senders);
        if sender.Some? {
          if !replaceOk {
            return;
          }
          peerConnection.ReplaceTrack(sender.value, videoTrack);
        }
        screenStream.StopAll();
        isScreenSharing := false;
      }
    }

    /**
     * Sharing the screen and then stopping, in a call whose video sender
     * carries the camera: the sender carries the camera track again, the
     * client is no longer sharing, and every screen track is stopped.
     */
    method ShareThenStopSharing()
      requires Valid() && !isScreenSharing && peerConnection != null && localStream != null
      requires VideoSenderTrack(peerConnection) == Some(CameraVideo())
      modifies this`screenStream, this`isScreenSharing, peerConnection, TracksOf(screenStream)
      ensures Valid() && !isScreenSharing && fresh(screenStream)
      ensures VideoSenderTrack(peerConnection) == old(VideoSenderTrack(peerConnection))
      ensures forall k :: 0 <= k < |screenStream.tracks| ==> screenStream.tracks[k].stopped
    {
      var i := FirstVideo(peerConnection.senders).value;
      ToggleScreenShare(true, true);
      assert isScreenSharing;
      FirstVideoAfterReplace(old(peerConnection.senders), i, screenStream.tracks[0]);
      ghost var sharing := peerConnection.senders;
      ToggleScreenShare(true, true);
      FirstVideoAfterReplace(sharing, i, CameraVideo());
    }

    /**
     * `endCall`: close whatever connection is held, stop the camera and
     * screen tracks if held, and reset the call flags. The refs are not
     * cleared, and nothing is sent.
     */
    method EndCall()
      requires Valid()
      modifies this`inCall, this`isScreenSharing, this`currentCallUser,
               peerConnection, TracksOf(localStream), TracksOf(screenStream)
      ensures Valid()
      ensures !inCall && !isScreenSharing && currentCallUser == None
      ensures peerConnection != null ==> peerConnection.closed && peerConnection.State() == old(peerConnection.State())
      ensures localStream != null ==> forall k :: 0 <= k < |localStream.tracks| ==> localStream.tracks[k].stopped
      ensures screenStream != null ==> forall k :: 0 <= k < |screenStream.tracks| ==> screenStream.tracks[k].stopped
      ensures outbox == old(outbox)
    {
      if peerConnection != null {
        peerConnection.Close();
      }
      if localStream != null {
        localStream.StopAll();
      }
      if screenStream != null {
        screenStream.StopAll();
      }
      inCall := false;
      isScreenSharing := false;
      currentCallUser := None;
    }

    /** `socket.on('call-ended', …)`: the remote side hung up; tear down, send nothing. */
    method OnCallEnded()
      requires Valid()
      modifies this`inCall, this`isScreenSharing, this`currentCallUser,
               peerConnection, TracksOf(localStream), TracksOf(screenStream)
      ensures Valid()
      ensures !inCall && !isScreenSharing && currentCallUser == None
      ensures peerConnection != null ==> peerConnection.closed && peerConnection.State() == old(peerConnection.State())
      ensures localStream != null ==> forall k :: 0 <= k < |localStream.tracks| ==> localStream.tracks[k].stopped
      ensures screenStream != null ==> forall k :: 0 <= k < |screenStream.tracks| ==> screenStream.tracks[k].stopped
      ensures outbox == old(outbox)
    {
      EndCall();
    }

    /**
     * The End Call button: tell the partner first (the target may be null),
     * then tear down locally.
     */
    method HangUp()
      requires Valid()
      modifies this`outbox, this`inCall, this`isScreenSharing, this`currentCallUser,
               peerConnection, TracksOf(localStream), TracksOf(screenStream)
      ensures Valid()
      ensures outbox == old(outbox) + [ClientEvent.EndCall(old(currentCallUser))]
      ensures !inCall && !isScreenSharing && currentCallUser == None
      ensures peerConnection != null ==> peerConnection.closed && peerConnection.State() == old(peerConnection.State())
      ensures localStream != null ==> forall k :: 0 <= k < |localStream.tracks| ==> localStream.tracks[k].stopped
      ensures screenStream != null ==> forall k :: 0 <= k < |screenStream.tracks| ==> screenStream.tracks[k].stopped
    {
      outbox := outbox + [ClientEvent.EndCall(currentCallUser)];
      EndCall();
    }
  }
}
