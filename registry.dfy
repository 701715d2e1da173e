/**
 * The relay server of server/index.js: the presence registry (a JavaScript
 * `Map` from user name to socket id, iterated in insertion order) and the
 * four handlers that forward handshake messages to a named user's socket.
 *
 * The Map is modelled as an insertion-ordered association list whose names
 * are pairwise distinct; every `io.emit` / `io.to(id).emit` is an append to
 * the server's outbox.
 */
module Registry {
  import opened Signaling

  /** One entry of the `users` Map. */
  datatype Entry = Entry(name: Name, socket: SocketId)

  /** The Map's keys in insertion order: `Array.from(users.keys())`. */
  function Keys(t: seq<Entry>): (ks: seq<Name>)
    ensures |ks| == |t|
    ensures forall i :: 0 <= i < |t| ==> ks[i] == t[i].name
  {
    if t == [] then [] else [t[0].name] + Keys(t[1..])
  }

  /** A Map holds each key once. */
  predicate UniqueNames(t: seq<Entry>)
  {
    Distinct(Keys(t))
  }

  /** `users.get(name)`: the socket stored under `name`, if any. */
  function Lookup(t: seq<Entry>, name: Name): (r: Option<SocketId>)
    ensures r.None? <==> name !in Keys(t)
    ensures r.Some? ==> Entry(name, r.value) in t
  {
    if t == [] then None
    else if t[0].name == name then Some(t[0].socket)
    else Lookup(t[1..], name)
  }

  /**
   * `users.set(name, socket)`: an existing key keeps its position and takes
   * the new value; a new key is appended at the end.
   */
  function Set(t: seq<Entry>, name: Name, socket: SocketId): (r: seq<Entry>)
    ensures Entry(name, socket) in r
  {
    if t == [] then [Entry(name, socket)]
    else if t[0].name == name then [Entry(name, socket)] + t[1..]
    else [t[0]] + Set(t[1..], name, socket)
  }

  /**
   * The `disconnect` handler's effect on the Map: the first entry, in
   * insertion order, whose value is `socket` is deleted; nothing else is.
   */
  function RemoveFirstBySocket(t: seq<Entry>, socket: SocketId): (r: seq<Entry>)
    ensures |r| == if exists e :: e in t && e.socket == socket then |t| - 1 else |t|
  {
    if t == [] then []
    else if t[0].socket == socket then t[1..]
    else [t[0]] + RemoveFirstBySocket(t[1..], socket)
  }

  /**
   * A forwarded event: delivered to the socket registered under `target`,
   * or to nobody when `target` is not registered.
   */
  function Route(t: seq<Entry>, target: Name, ev: ServerEvent): (r: seq<Delivery>)
    ensures |r| <= 1
    ensures r != [] <==> target in Keys(t)
    ensures forall d :: d in r ==> d.event == ev && d.to.Socket? && Entry(target, d.to.id) in t
  {
    match Lookup(t, target)
    case None => []
    case Some(s) => [Delivery(Socket(s), ev)]
  }

  // ---------------------------------------------------------------------
  // Properties of the registry operations

  /** In a Map, the entry stored under a name is the one `get` returns. */
  lemma LookupFindsEntry(t: seq<Entry>, e: Entry)
    requires UniqueNames(t)
    requires e in t
    ensures Lookup(t, e.name) == Some(e.socket)
  {
    // Lookup's contract finds an entry under e.name; distinct names make it e.
  }

  /** Dropping the oldest entry keeps the names distinct. */
  lemma UniqueTail(t: seq<Entry>)
    requires t != [] && UniqueNames(t)
    ensures UniqueNames(t[1..])
  {
    assert forall i :: 0 <= i < |t| - 1 ==> Keys(t[1..])[i] == Keys(t)[i + 1];
  }

  /** Last write wins: after `set(name, socket)`, `get(name)` is `socket`. */
  lemma {:induction false} SetThenLookup(t: seq<Entry>, name: Name, socket: SocketId)
    ensures Lookup(Set(t, name, socket), name) == Some(socket)
  {
    if t != [] && t[0].name != name {
      SetThenLookup(t[1..], name, socket);
    }
  }

  /** `set(name, …)` leaves every other name's socket as it was. */
  lemma {:induction false} SetKeepsOthers(t: seq<Entry>, name: Name, socket: SocketId, other: Name)
    requires other != name
    ensures Lookup(Set(t, name, socket), other) == Lookup(t, other)
  {
    if t != [] && t[0].name != name && t[0].name != other {
      SetKeepsOthers(t[1..], name, socket, other);
    }
  }

  /**
   * JavaScript Map insertion order: re-registering a name keeps the key
   * sequence as it was, registering a new name appends it at the end.
   */
  lemma {:induction false} SetKeys(t: seq<Entry>, name: Name, socket: SocketId)
    ensures name in Keys(t) ==> Keys(Set(t, name, socket)) == Keys(t)
    ensures name !in Keys(t) ==> Keys(Set(t, name, socket)) == Keys(t) + [name]
  {
    if t != [] {
      var tail := t[1..];
      assert Keys(t) == [t[0].name] + Keys(tail);
      if t[0].name == name {
        assert ([Entry(name, socket)] + tail)[1..] == tail;
      } else {
        SetKeys(tail, name, socket);
        var r := [t[0]] + Set(tail, name, socket);
        assert r[1..] == Set(tail, name, socket);
        assert Keys(r) == [t[0].name] + Keys(Set(tail, name, socket));
      }
    }
  }

  /** `set` never introduces a second entry for a name. */
  lemma SetKeepsUnique(t: seq<Entry>, name: Name, socket: SocketId)
    requires UniqueNames(t)
    ensures UniqueNames(Set(t, name, socket))
  {
    SetKeys(t, name, socket);
    if name !in Keys(t) {
      var ks := Keys(t) + [name];
      forall i, j | 0 <= i < j < |ks| ensures ks[i] != ks[j] {
        if j < |Keys(t)| {
          assert ks[i] == Keys(t)[i] && ks[j] == Keys(t)[j];
        } else {
          assert ks[i] == Keys(t)[i] && ks[j] == name;
        }
      }
    }
  }

  /** Re-registering a name already present keeps every entry where it was. */
  lemma {:induction false} SetExistingInPlace(t: seq<Entry>, i: nat, socket: SocketId)
    requires i < |t|
    requires forall k :: 0 <= k < i ==> t[k].name != t[i].name
    ensures |Set(t, t[i].name, socket)| == |t|
    ensures Set(t, t[i].name, socket)[i] == Entry(t[i].name, socket)
    ensures forall k :: 0 <= k < |t| && k != i ==> Set(t, t[i].name, socket)[k] == t[k]
  {
    if i > 0 {
      var n, tail := t[i].name, t[1..];
      assert tail[i - 1] == t[i];
      SetExistingInPlace(tail, i - 1, socket);
      assert Set(t, n, socket) == [t[0]] + Set(tail, n, socket);
    }
  }

  /** Registering a new name appends its entry after all existing ones. */
  lemma {:induction false} SetNewAppends(t: seq<Entry>, name: Name, socket: SocketId)
    requires name !in Keys(t)
    ensures Set(t, name, socket) == t + [Entry(name, socket)]
  {
    if t != [] {
      assert t[0].name == Keys(t)[0];
      assert name !in Keys(t[1..]) by {
        forall i | 0 <= i < |t| - 1 ensures Keys(t[1..])[i] != name {
          assert Keys(t[1..])[i] == Keys(t)[i + 1];
        }
      }
      SetNewAppends(t[1..], name, socket);
      assert [t[0]] + (t[1..] + [Entry(name, socket)]) == t + [Entry(name, socket)];
    }
  }

  /**
   * `disconnect` deletes exactly the first entry whose value is `socket`
   * (the `break` stops the scan there); with no such entry the Map is
   * left as it was.
   */
  lemma {:induction false} RemoveFirstAt(t: seq<Entry>, socket: SocketId, i: nat)
    requires i < |t| && t[i].socket == socket
    requires forall k :: 0 <= k < i ==> t[k].socket != socket
    ensures RemoveFirstBySocket(t, socket) == t[..i] + t[i + 1..]
  {
    if i > 0 {
      var tail := t[1..];
      assert tail[i - 1] == t[i];
      RemoveFirstAt(tail, socket, i - 1);
      assert [t[0]] + (tail[..i - 1] + tail[i..]) == t[..i] + t[i + 1..];
    }
  }

  /** A disconnecting socket that owns no entry leaves the Map unchanged. */
  lemma {:induction false} RemoveFirstAbsent(t: seq<Entry>, socket: SocketId)
    requires forall k :: 0 <= k < |t| ==> t[k].socket != socket
    ensures RemoveFirstBySocket(t, socket) == t
  {
    if t != [] {
      assert forall k :: 0 <= k < |t| - 1 ==> t[1..][k] == t[k + 1];
      RemoveFirstAbsent(t[1..], socket);
    }
  }

  /** Deleting an entry keeps the remaining names distinct. */
  lemma RemoveKeepsUnique(t: seq<Entry>, i: nat)
    requires i < |t| && UniqueNames(t)
    ensures UniqueNames(t[..i] + t[i + 1..])
  {
    var r := t[..i] + t[i + 1..];
    forall a, b | 0 <= a < b < |r| ensures Keys(r)[a] != Keys(r)[b] {
      var a' := if a < i then a else a + 1;
      var b' := if b < i then b else b + 1;
      assert r[a] == t[a'] && r[b] == t[b'];
      assert Keys(t)[a'] != Keys(t)[b'];
    }
  }

  /**
   * A name that was taken over by a newer socket survives the old socket's
   * disconnect: the old socket no longer owns it.
   */
  lemma {:induction false} OverwrittenNameSurvives(t: seq<Entry>, name: Name, newer: SocketId, older: SocketId)
    requires Lookup(t, name) == Some(newer)
    requires newer != older
    ensures Lookup(RemoveFirstBySocket(t, older), name) == Some(newer)
  {
    if t[0].name != name && t[0].socket != older {
      OverwrittenNameSurvives(t[1..], name, newer, older);
    } else if t[0].name != name {
      assert t[1..] == RemoveFirstBySocket(t, older);
    }
  }

  /**
   * One socket registered under two names: its disconnect removes only the
   * earlier name, so the later one stays registered to the closed socket.
   */
  lemma {:induction false} SharedSocketKeepsLaterName(t: seq<Entry>, i: nat, j: nat)
    requires UniqueNames(t)
    requires i < j < |t| && t[i].socket == t[j].socket
    ensures Lookup(RemoveFirstBySocket(t, t[i].socket), t[j].name) == Some(t[j].socket)
  {
    var s := t[i].socket;
    var f :| 0 <= f <= i && t[f].socket == s && forall k :: 0 <= k < f ==> t[k].socket != s by {
      FirstIndex(t, s, i);
    }
    RemoveFirstAt(t, s, f);
    var r := t[..f] + t[f + 1..];
    assert r[j - 1] == t[j];
    RemoveKeepsUnique(t, f);
    LookupFindsEntry(r, t[j]);
  }

  /** Any occurrence of a socket has a first occurrence at or before it. */
  lemma {:induction false} FirstIndex(t: seq<Entry>, s: SocketId, i: nat)
    requires i < |t| && t[i].socket == s
    ensures exists f :: 0 <= f <= i && t[f].socket == s && forall k :: 0 <= k < f ==> t[k].socket != s
  {
    if exists k :: 0 <= k < i && t[k].socket == s {
      var k :| 0 <= k < i && t[k].socket == s;
      FirstIndex(t, s, k);
    } else {
      assert forall k :: 0 <= k < i ==> t[k].socket != s;
    }
  }

  // ---------------------------------------------------------------------
  // The server process

  /** The server's shared state: the `users` Map and everything emitted so far. */
  class SignalingServer {
    var users: seq<Entry>
    var outbox: seq<Delivery>

    /** The Map holds each name once. */
    ghost predicate Valid()
      reads this
    {
      UniqueNames(users)
    }

    /** `const users = new Map()`, before any connection. */
    constructor ()
      ensures Valid() && users == [] && outbox == []
    {
      users := [];
      outbox := [];
    }

    /** The broadcast sent after every change: the current key list, to all. */
    function Broadcast(): (d: Delivery)
      reads this
      ensures d.to == Everyone && d.event.UsersUpdate?
    {
      Delivery(Everyone, UsersUpdate(Keys(users)))
    }

    /** `socket.on('register', userId => …)` on the connection `socket`. */
    method Register(socket: SocketId, userId: Name)
      requires Valid()
      modifies this
      ensures Valid()
      ensures users == Set(old(users), userId, socket)
      ensures Lookup(users, userId) == Some(socket)
      ensures outbox == old(outbox) + [Delivery(Everyone, UsersUpdate(Keys(users)))]
    {
      SetKeepsUnique(users, userId, socket);
      SetThenLookup(users, userId, socket);
      users := Set(users, userId, socket);
      outbox := outbox + [Broadcast()];
    }

    /** `socket.on('disconnect', …)`: the scan over `users.entries()` with its `break`. */
    method Disconnect(socket: SocketId)
      requires Valid()
      modifies this
      ensures Valid()
      ensures users == RemoveFirstBySocket(old(users), socket)
      ensures outbox == old(outbox) + [Delivery(Everyone, UsersUpdate(Keys(users)))]
    {
      var i := 0;
      while i < |users|
        invariant i <= |users|
        invariant users == old(users)
        invariant forall k :: 0 <= k < i ==> users[k].socket != socket
      {
        if users[i].socket == socket {
          RemoveFirstAt(users, socket, i);
          RemoveKeepsUnique(users, i);
          users := users[..i] + users[i + 1..];
          break;
        }
        i := i + 1;
      }
      if i == |old(users)| {
        RemoveFirstAbsent(users, socket);
      }
      outbox := outbox + [Broadcast()];
    }

    /**
     * A client message arriving on `socket`: the handler that `socket.on`
     * registered under the message's name runs. Only `register` changes
     * the Map; a relayed message produces at most one delivery, to a
     * single socket; every reply carries the name `ReplyName(e)`.
     */
    method Receive(socket: SocketId, e: ClientEvent)
      requires Valid()
      modifies this
      ensures Valid()
      ensures users == (if e.Register? then Set(old(users), e.userId, socket) else old(users))
      ensures |old(outbox)| <= |outbox| <= |old(outbox)| + 1
      ensures forall k :: 0 <= k < |old(outbox)| ==> outbox[k] == old(outbox)[k]
      ensures e.Register? ==> |outbox| == |old(outbox)| + 1 && outbox[|old(outbox)|].to == Everyone
      ensures !e.Register? ==> forall k :: |old(outbox)| <= k < |outbox| ==> outbox[k].to.Socket?
      ensures forall k :: |old(outbox)| <= k < |outbox| ==> ServerEventName(outbox[k].event) == ReplyName(e)
      // the reply each handler sends
      ensures e.Register? ==> outbox == old(outbox) + [Delivery(Everyone, UsersUpdate(Keys(users)))]
      ensures e.CallUser? ==>
        outbox == old(outbox) + Route(old(users), e.targetUserId, IncomingCall(e.offer, e.callerUserId))
      ensures e.CallAccepted? ==>
        outbox == old(outbox) + Route(old(users), e.targetUserId, AnswerForward(e.answer))
      ensures e.IceCandidate? ==>
        outbox == old(outbox) + Route(old(users), e.targetUserId, CandidateForward(e.candidate))
      ensures e.EndCall? ==>
        outbox == old(outbox) + (if e.targetOrNull.Some? then Route(old(users), e.targetOrNull.value, CallEnded) else [])
    {
      var name := ClientEventName(e);
      if name == "register" {
        ClientEventNameSelectsKind(e, ClientEvent.Register([]));
        Register(socket, e.userId);
      } else if name == "call-user" {
        ClientEventNameSelectsKind(e, ClientEvent.CallUser([], Sdp([]), []));
        CallUser(e.targetUserId, e.offer, e.callerUserId);
      } else if name == "call-accepted" {
        ClientEventNameSelectsKind(e, ClientEvent.CallAccepted([], Sdp([])));
        CallAccepted(e.targetUserId, e.answer);
      } else if name == "ice-candidate" {
        ClientEventNameSelectsKind(e, ClientEvent.IceCandidate([], None));
        IceCandidate(e.targetUserId, e.candidate);
      } else {
        ClientEventNameSelectsKind(e, ClientEvent.EndCall(None));
        EndCall(e.targetOrNull);
      }
    }

    /** `socket.on('call-user', …)`: forward the offer and the caller's name. */
    method CallUser(targetUserId: Name, offer: Sdp, callerUserId: Name)
      modifies this`outbox
      ensures outbox == old(outbox) + Route(users, targetUserId, IncomingCall(offer, callerUserId))
    {
      var targetSocketId := Lookup(users, targetUserId);
      if targetSocketId.Some? {
        outbox := outbox + [Delivery(Socket(targetSocketId.value), IncomingCall(offer, callerUserId))];
      }
    }

    /** `socket.on('call-accepted', …)`: forward only the answer. */
    method CallAccepted(targetUserId: Name, answer: Sdp)
      modifies this`outbox
      ensures outbox == old(outbox) + Route(users, targetUserId, AnswerForward(answer))
    {
      var targetSocketId := Lookup(users, targetUserId);
      if targetSocketId.Some? {
        outbox := outbox + [Delivery(Socket(targetSocketId.value), AnswerForward(answer))];
      }
    }

    /** `socket.on('ice-candidate', …)`: forward only the candidate. */
    method IceCandidate(targetUserId: Name, candidate: Option<Ice>)
      modifies this`outbox
      ensures outbox == old(outbox) + Route(users, targetUserId, CandidateForward(candidate))
    {
      var targetSocketId := Lookup(users, targetUserId);
      if targetSocketId.Some? {
        outbox := outbox + [Delivery(Socket(targetSocketId.value), CandidateForward(candidate))];
      }
    }

    /**
     * `socket.on('end-call', …)`: a payload-less `call-ended` to the target.
     * The client may send a null target, which `users.get` never finds.
     */
    method EndCall(targetUserId: Option<Name>)
      modifies this`outbox
      ensures outbox == old(outbox) + (if targetUserId.Some? then Route(users, targetUserId.value, CallEnded) else [])
    {
      if targetUserId.Some? {
        var targetSocketId := Lookup(users, targetUserId.value);
        if targetSocketId.Some? {
          outbox := outbox + [Delivery(Socket(targetSocketId.value), CallEnded)];
        }
      }
    }
  }

  // ---------------------------------------------------------------------
  // Scenarios

  /**
   * "alice" and "bob" register from two sockets and alice calls bob: both
   * registrations are broadcast, and bob's socket receives the offer with
   * alice's name.
   */
  method AliceCallsBob(aliceSocket: SocketId, bobSocket: SocketId, offer: Sdp) returns (sent: seq<Delivery>)
    ensures sent == [
      Delivery(Everyone, UsersUpdate(["alice"])),
      Delivery(Everyone, UsersUpdate(["alice", "bob"])),
      Delivery(Socket(bobSocket), IncomingCall(offer, "alice"))]
  {
    var server := new SignalingServer();
    server.Register(aliceSocket, "alice");
    assert server.users == [Entry("alice", aliceSocket)];
    assert Keys(server.users) == ["alice"];
    SetNewAppends(server.users, "bob", bobSocket);
    server.Register(bobSocket, "bob");
    assert server.users == [Entry("alice", aliceSocket), Entry("bob", bobSocket)];
    assert Keys(server.users) == ["alice"] + Keys([Entry("bob", bobSocket)]) == ["alice", "bob"];
    assert Lookup(server.users, "bob") == Some(bobSocket);
    server.CallUser("bob", offer, "alice");
    sent := server.outbox;
  }

  /** A call to a name nobody registered is dropped without a word. */
  method CallNobody(aliceSocket: SocketId, offer: Sdp) returns (sent: seq<Delivery>)
    ensures sent == [Delivery(Everyone, UsersUpdate(["alice"]))]
  {
    var server := new SignalingServer();
    server.Register(aliceSocket, "alice");
    assert server.users == [Entry("alice", aliceSocket)];
    assert Keys(server.users) == ["alice"];
    server.CallUser("carol", offer, "alice");
    sent := server.outbox;
  }

  /**
   * "alice" registers again from a new socket, then her old socket closes:
   * the name stays registered to the new socket.
   */
  method ReconnectThenOldSocketCloses(oldSocket: SocketId, newSocket: SocketId) returns (users: seq<Entry>)
    requires oldSocket != newSocket
    ensures users == [Entry("alice", newSocket)]
  {
    var server := new SignalingServer();
    server.Register(oldSocket, "alice");
    server.Register(newSocket, "alice");
    server.Disconnect(oldSocket);
    users := server.users;
  }
}
