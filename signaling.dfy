/**
 * The message contract shared by the relay server and the browser client:
 * user names, socket ids, the opaque handshake payloads and the named
 * events that travel over the Socket.IO channel in each direction.
 */
module Signaling {

  datatype Option<+T> = None | Some(value: T)

  /** A user name as chosen by a client (a JavaScript string). */
  type Name = string

  /**
   * A Socket.IO connection id. The library never hands out an empty id, so
   * the server's truthiness test `if (targetSocketId)` is exactly "present".
   */
  type SocketId = s: string | s != [] witness "s"

  /** A session description (offer or answer); opaque to this core. */
  datatype Sdp = Sdp(text: string)

  /** A network-path (ICE) candidate; opaque to this core. */
  datatype Ice = Ice(text: string)

  /** Events a client emits to the server, with their payload fields. */
  datatype ClientEvent =
    | Register(userId: Name)
    | CallUser(targetUserId: Name, offer: Sdp, callerUserId: Name)
    | CallAccepted(targetUserId: Name, answer: Sdp)
    | IceCandidate(targetUserId: Name, candidate: Option<Ice>)
    | EndCall(targetOrNull: Option<Name>)

  /** Events the server emits to clients, with their payload fields. */
  datatype ServerEvent =
    | UsersUpdate(userList: seq<Name>)
    | IncomingCall(offer: Sdp, callerUserId: Name)
    | AnswerForward(answer: Sdp)
    | CandidateForward(candidate: Option<Ice>)
    | CallEnded

  /** Where the server sends an event: `io.emit` or `io.to(id).emit`. */
  datatype Dest = Everyone | Socket(id: SocketId)

  /** One emission recorded in the server's outbox. */
  datatype Delivery = Delivery(to: Dest, event: ServerEvent)

  /** The event name each client event carries on the wire. */
  function ClientEventName(e: ClientEvent): (name: string)
  {
    match e
    case Register(_) => "register"
    case CallUser(_, _, _) => "call-user"
    case CallAccepted(_, _) => "call-accepted"
    case IceCandidate(_, _) => "ice-candidate"
    case EndCall(_) => "end-call"
  }

  /** The event name each server event carries on the wire. */
  function ServerEventName(e: ServerEvent): (name: string)
  {
    match e
    case UsersUpdate(_) => "users-update"
    case IncomingCall(_, _) => "incoming-call"
    case AnswerForward(_) => "call-accepted"
    case CandidateForward(_) => "ice-candidate"
    case CallEnded => "call-ended"
  }

  /**
   * A wire name picks out one kind of client event, so `socket.on(name, …)`
   * hands each message to exactly one handler.
   */
  lemma ClientEventNameSelectsKind(a: ClientEvent, b: ClientEvent)
    ensures ClientEventName(a) == ClientEventName(b) <==>
      || (a.Register? && b.Register?)
      || (a.CallUser? && b.CallUser?)
      || (a.CallAccepted? && b.CallAccepted?)
      || (a.IceCandidate? && b.IceCandidate?)
      || (a.EndCall? && b.EndCall?)
  {
  }

  /**
   * The name under which the server answers a client event: registration
   * is answered by the key-list broadcast, a call request reaches its
   * target as `incoming-call`, `end-call` as `call-ended`; an answer and a
   * candidate are forwarded under their own name.
   */
  function ReplyName(e: ClientEvent): (name: string)
    ensures e.CallAccepted? || e.IceCandidate? ==> name == ClientEventName(e)
    ensures e.CallUser? || e.EndCall? || e.Register? ==> name != ClientEventName(e)
    ensures e.Register? ==> name == "users-update"
    ensures e.CallUser? ==> name == "incoming-call"
    ensures e.EndCall? ==> name == "call-ended"
  {
    match e
    case Register(_) => ServerEventName(UsersUpdate([]))
    case CallUser(_, offer, caller) => ServerEventName(IncomingCall(offer, caller))
    case CallAccepted(_, answer) => ServerEventName(AnswerForward(answer))
    case IceCandidate(_, candidate) => ServerEventName(CandidateForward(candidate))
    case EndCall(_) => ServerEventName(CallEnded)
  }

  /** No element occurs twice. */
  predicate Distinct<T(==)>(s: seq<T>)
  {
    forall i, j :: 0 <= i < j < |s| ==> s[i] != s[j]
  }
}
