/**
 * The browser media engine as the client drives it: tracks, streams and the
 * peer connection are opaque handles. Their internals (capture, negotiation,
 * transport) are not modelled; each handle records only what the client does
 * to it, with ghost flags for "stopped" and "closed".
 */
module Media {
  import opened Signaling

  datatype Kind = Audio | Video

  /** A MediaStreamTrack; `stopped` records that `track.stop()` was called. */
  class Track {
    const kind: Kind
    ghost var stopped: bool

    constructor (kind: Kind)
      ensures this.kind == kind && !stopped
    {
      this.kind := kind;
      stopped := false;
    }

    /** `track.stop()`: idempotent. */
    method Stop()
      modifies this
      ensures stopped
    {
      stopped := true;
    }
  }

  /**
   * The index of the first video track, as `getVideoTracks()[0]` and
   * `getSenders().find((s) => s.track?.kind === 'video')` select it.
   */
  function FirstVideo(ts: seq<Track>): (r: Option<nat>)
    ensures r.Some? ==> r.value < |ts| && ts[r.value].kind == Video
    ensures r.Some? ==> forall k :: 0 <= k < r.value ==> ts[k].kind != Video
    ensures r.None? ==> forall k :: 0 <= k < |ts| ==> ts[k].kind != Video
  {
    if ts == [] then None
    else if ts[0].kind == Video then Some(0)
    else match FirstVideo(ts[1..])
      case None => None
      case Some(i) => Some(i + 1)
  }

  /** A MediaStream: a fixed list of tracks. */
  class MediaStream {
    const tracks: seq<Track>

    /** What `getUserMedia({video: true, audio: true})` resolves to. */
    constructor Camera()
      ensures |tracks| == 2 && tracks[0].kind == Audio && tracks[1].kind == Video
      ensures fresh(tracks[0]) && fresh(tracks[1]) && tracks[0] != tracks[1]
      ensures !tracks[0].stopped && !tracks[1].stopped
    {
      var audio := new Track(Audio);
      var video := new Track(Video);
      tracks := [audio, video];
    }

    /** What `getDisplayMedia({video: true})` resolves to. */
    constructor Screen()
      ensures |tracks| == 1 && tracks[0].kind == Video
      ensures fresh(tracks[0]) && !tracks[0].stopped
    {
      var video := new Track(Video);
      tracks := [video];
    }

    /** `stream.getTracks().forEach((track) => track.stop())`. */
    method StopAll()
      modifies TracksOf(this)
      ensures forall t :: t in tracks ==> t.stopped
    {
      for i := 0 to |tracks|
        invariant forall k :: 0 <= k < i ==> tracks[k].stopped
      {
        tracks[i].Stop();
      }
    }
  }

  /** The tracks a (possibly absent) stream holds. */
  function TracksOf(s: MediaStream?): (ts: set<Track>)
  {
    if s == null then {} else set t | t in s.tracks
  }

  /** What the client has done to a peer connection so far. */
  datatype Negotiation = Negotiation(
    senders: seq<Track>,
    localDescription: Option<Sdp>,
    remoteDescription: Option<Sdp>,
    remoteCandidates: seq<Ice>)

  /**
   * An RTCPeerConnection. `target` is the user name its `onicecandidate`
   * callback was created with; `senders` lists the track each RTP sender
   * carries, in `addTrack` order.
   */
  class PeerConnection {
    const target: Name
    var senders: seq<Track>
    var localDescription: Option<Sdp>
    var remoteDescription: Option<Sdp>
    var remoteCandidates: seq<Ice>
    ghost var closed: bool

    constructor (target: Name)
      ensures this.target == target && senders == [] && !closed
      ensures localDescription == None && remoteDescription == None && remoteCandidates == []
    {
      this.target := target;
      senders := [];
      localDescription := None;
      remoteDescription := None;
      remoteCandidates := [];
      closed := false;
    }

    /** The connection's negotiation state as one value. */
    function State(): (n: Negotiation)
      reads this
    {
      Negotiation(senders, localDescription, remoteDescription, remoteCandidates)
    }

    /** `stream.getTracks().forEach((track) => pc.addTrack(track, stream))`. */
    method AddTracks(stream: MediaStream)
      modifies this`senders
      ensures senders == old(senders) + stream.tracks
    {
      for i := 0 to |stream.tracks|
        invariant senders == old(senders) + stream.tracks[..i]
      {
        senders := senders + [stream.tracks[i]];
      }
    }

    /** `sender.replaceTrack(track)` on the `i`-th sender. */
    method ReplaceTrack(i: nat, track: Track)
      requires i < |senders|
      modifies this`senders
      ensures senders == old(senders)[i := track]
    {
      senders := senders[i := track];
    }

    /** `pc.setLocalDescription(d)` once it has resolved. */
    method SetLocalDescription(d: Sdp)
      modifies this`localDescription
      ensures localDescription == Some(d)
    {
      localDescription := Some(d);
    }

    /** `pc.setRemoteDescription(d)` once it has resolved. */
    method SetRemoteDescription(d: Sdp)
      modifies this`remoteDescription
      ensures remoteDescription == Some(d)
    {
      remoteDescription := Some(d);
    }

    /** `pc.addIceCandidate(c)` once it has resolved. */
    method AddIceCandidate(c: Ice)
      modifies this`remoteCandidates
      ensures remoteCandidates == old(remoteCandidates) + [c]
    {
      remoteCandidates := remoteCandidates + [c];
    }

    /** `pc.close()`. */
    method Close()
      modifies this`closed
      ensures closed
    {
      closed := true;
    }
  }

  /** The track the first video sender carries, if there is one. */
  function VideoSenderTrack(pc: PeerConnection): (r: Option<Track>)
    reads pc
    ensures r.Some? ==> r.value in pc.senders && r.value.kind == Video
    ensures r.None? <==> forall k :: 0 <= k < |pc.senders| ==> pc.senders[k].kind != Video
  {
    match FirstVideo(pc.senders)
    case None => None
    case Some(i) => Some(pc.senders[i])
  }
}
