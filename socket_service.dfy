/**
 * The browser's socket service: a registry of listeners per event name, the rooms the client
 * has joined (in the order it joined them, as a JavaScript `Set` iterates), whether the socket is
 * connected, the events sent to the server (`outbox`) and the listener calls made (`invoked`).
 * A listener is known only by its identity; what it does when called is not modelled.
 */
module SocketClient {
  import opened Common
  import opened Entities
  import opened Protocol
  import Seqs

  type Listener = nat
  type Registry = map<string, seq<Listener>>

  /** One call of a listener with the data of the event. */
  datatype Invocation = Invocation(listener: Listener, data: ServerEvent)

  /** `on`: the callback goes at the end of the event's list, even when it is already there. */
  function Subscribed(reg: Registry, event: string, callback: Listener): (r: Registry)
    ensures event in r && r[event] == Seqs.ListAt(reg, event) + [callback]
    ensures multiset(r[event])[callback] == multiset(Seqs.ListAt(reg, event))[callback] + 1
    ensures forall e | e != event :: (e in r <==> e in reg) && (e in reg ==> r[e] == reg[e])
  {
    reg[event := Seqs.ListAt(reg, event) + [callback]]
  }

  /**
   * `off`: the first registration of the callback goes, and every other stays in order; an
   * unknown event or callback leaves the registry as it is.
   */
  function Unsubscribed(reg: Registry, event: string, callback: Listener): (r: Registry)
    ensures callback !in Seqs.ListAt(reg, event) ==> r == reg
    ensures callback in Seqs.ListAt(reg, event) ==>
      var before := Seqs.ListAt(reg, event);
      var i := Seqs.IndexOf(before, callback);
      && event in r && |r[event]| == |before| - 1
      && multiset(r[event]) == multiset(before) - multiset{callback}
      && r[event][..i] == before[..i]
      && r[event][i..] == before[i + 1..]
    ensures forall e | e != event :: (e in r <==> e in reg) && (e in reg ==> r[e] == reg[e])
  {
    if event in reg then
      var after := Seqs.RemoveFirst(reg[event], callback);
      if callback in reg[event] then Seqs.RemoveFirstMultiset(reg[event], callback); reg[event := after]
      else reg
    else reg
  }

  /** Removing a callback that was just added, and was not there before, restores the list. */
  lemma OnThenOff(reg: Registry, event: string, callback: Listener)
    requires callback !in Seqs.ListAt(reg, event)
    ensures Seqs.ListAt(Unsubscribed(Subscribed(reg, event, callback), event, callback), event) == Seqs.ListAt(reg, event)
  {
    Seqs.RemoveFirstOfAppended(Seqs.ListAt(reg, event), callback);
  }

  /** A callback added twice and removed once is still registered once more than before. */
  lemma DuplicatesNeedTwoOffs(reg: Registry, event: string, callback: Listener)
    ensures var twice := Subscribed(Subscribed(reg, event, callback), event, callback);
      callback in Seqs.ListAt(Unsubscribed(twice, event, callback), event)
  {
    var twice := Subscribed(Subscribed(reg, event, callback), event, callback);
    var after := Unsubscribed(twice, event, callback);
    assert callback in Seqs.ListAt(twice, event);
    assert multiset(after[event])[callback] == multiset(Seqs.ListAt(reg, event))[callback] + 1;
  }

  /** The calls `forEach` makes: one per registration, in registration order. */
  function Calls(ls: seq<Listener>, data: ServerEvent): (r: seq<Invocation>)
    ensures |r| == |ls|
    ensures forall i | 0 <= i < |ls| :: r[i] == Invocation(ls[i], data)
  {
    if ls == [] then [] else [Invocation(ls[0], data)] + Calls(ls[1..], data)
  }

  /** The calls for one more registration are the calls so far and one more call. */
  lemma CallsExtend(ls: seq<Listener>, i: nat, data: ServerEvent)
    requires i < |ls|
    ensures Calls(ls[..i + 1], data) == Calls(ls[..i], data) + [Invocation(ls[i], data)]
  {
    var a, b := Calls(ls[..i + 1], data), Calls(ls[..i], data) + [Invocation(ls[i], data)];
    assert forall k | 0 <= k < |a| :: a[k] == b[k];
  }

  /** A listener is called exactly as often as it is registered. */
  lemma {:induction false} CallsCount(ls: seq<Listener>, data: ServerEvent, l: Listener)
    ensures multiset(Calls(ls, data))[Invocation(l, data)] == multiset(ls)[l]
  {
    if ls != [] {
      CallsCount(ls[1..], data, l);
      assert ls == [ls[0]] + ls[1..];
      assert Calls(ls, data) == [Invocation(ls[0], data)] + Calls(ls[1..], data);
    }
  }

  /** The re-join requests of a connect: one `joinRoom` per recorded room, in order. */
  function JoinRequests(rooms: seq<RoomId>): (r: seq<ClientEvent>)
    ensures |r| == |rooms|
    ensures forall i | 0 <= i < |rooms| :: r[i] == ClientEvent.JoinRoom(rooms[i])
  {
    if rooms == [] then [] else [ClientEvent.JoinRoom(rooms[0])] + JoinRequests(rooms[1..])
  }

  /** Every recorded room is requested, and nothing else is. */
  lemma JoinRequestsCover(rooms: seq<RoomId>, roomId: RoomId)
    ensures ClientEvent.JoinRoom(roomId) in JoinRequests(rooms) <==> roomId in rooms
  {
    var r := JoinRequests(rooms);
    if roomId in rooms {
      var i :| 0 <= i < |rooms| && rooms[i] == roomId;
      assert r[i] == ClientEvent.JoinRoom(roomId);
    }
  }

  /** `joinedRooms.add`: a room already present keeps its place; a new one goes last. */
  function AddRoom(rooms: seq<RoomId>, roomId: RoomId): (r: seq<RoomId>)
    ensures roomId in r
    ensures forall x :: x in r <==> x in rooms || x == roomId
    ensures Seqs.Distinct(rooms) ==> Seqs.Distinct(r)
    ensures roomId in rooms ==> r == rooms
    ensures roomId !in rooms ==> r == rooms + [roomId]
  {
    if roomId in rooms then rooms
    else
      assert forall i | 0 <= i < |rooms| :: (rooms + [roomId])[i] == rooms[i];
      rooms + [roomId]
  }

  /** `joinedRooms.delete`: the room goes and the others keep their order. */
  function DeleteRoom(rooms: seq<RoomId>, roomId: RoomId): (r: seq<RoomId>)
    ensures roomId !in r
    ensures forall x | x != roomId :: x in r <==> x in rooms
    ensures Seqs.Distinct(rooms) ==> Seqs.Distinct(r)
    ensures roomId !in rooms ==> r == rooms
    ensures Seqs.IsSubsequence(r, rooms)
  {
    if Seqs.Distinct(rooms) then Seqs.RemoveAllDistinct(rooms, roomId); Seqs.RemoveAll(rooms, roomId)
    else Seqs.RemoveAll(rooms, roomId)
  }

  /** The event name a server event arrives under. */
  function EventName(ev: ServerEvent): string {
    match ev
    case Connected(_) => "connected"
    case UserOnline(_) => "userOnline"
    case UserOffline(_) => "userOffline"
    case JoinedRoom(_) => "joinedRoom"
    case LeftRoom(_) => "leftRoom"
    case NewMessage(_) => "newMessage"
    case UserTyping(_, _, _) => "userTyping"
    case Error(_) => "error"
  }

  class SocketService {
    var connected: bool
    var listeners: Registry
    var joinedRooms: seq<RoomId>
    var outbox: seq<ClientEvent>
    var invoked: seq<Invocation>

    predicate Valid()
      reads this
    {
      Seqs.Distinct(joinedRooms)
    }

    constructor ()
      ensures Valid()
      ensures !connected && listeners == map[] && joinedRooms == [] && outbox == [] && invoked == []
    {
      connected, listeners, joinedRooms, outbox, invoked := false, map[], [], [], [];
    }

    /** `on(event, callback)`. */
    method On(event: string, callback: Listener)
      requires Valid()
      modifies this
      ensures Valid()
      ensures listeners == Subscribed(old(listeners), event, callback)
      ensures connected == old(connected) && joinedRooms == old(joinedRooms)
      ensures outbox == old(outbox) && invoked == old(invoked)
    {
      if event !in listeners {
        listeners := listeners[event := []];
      }
      listeners := listeners[event := listeners[event] + [callback]];
    }

    /** `off(event, callback)`. */
    method Off(event: string, callback: Listener)
      requires Valid()
      modifies this
      ensures Valid()
      ensures listeners == Unsubscribed(old(listeners), event, callback)
      ensures connected == old(connected) && joinedRooms == old(joinedRooms)
      ensures outbox == old(outbox) && invoked == old(invoked)
    {
      var eventListeners := Get(listeners, event);
      if eventListeners.Some? {
        var index := Seqs.IndexOf(eventListeners.value, callback);
        if index > -1 {
          listeners := listeners[event := eventListeners.value[..index] + eventListeners.value[index + 1..]];
        }
      }
    }

    /** The private `emit(event, data)`: every registered listener is called once, in order. */
    method Emit(event: string, data: ServerEvent)
      requires Valid()
      modifies this
      ensures Valid()
      ensures invoked == old(invoked) + Calls(Seqs.ListAt(listeners, event), data)
      ensures connected == old(connected) && listeners == old(listeners)
      ensures joinedRooms == old(joinedRooms) && outbox == old(outbox)
    {
      var eventListeners := Seqs.ListAt(listeners, event);
      var i := 0;
      while i < |eventListeners|
        invariant 0 <= i <= |eventListeners|
        invariant invoked == old(invoked) + Calls(eventListeners[..i], data)
        invariant connected == old(connected) && listeners == old(listeners)
        invariant joinedRooms == old(joinedRooms) && outbox == old(outbox)
      {
        CallsExtend(eventListeners, i, data);
        invoked := invoked + [Invocation(eventListeners[i], data)];
        i := i + 1;
      }
      assert eventListeners[..i] == eventListeners;
    }

    /**
     * An event from the server reaches the listeners of its name. `error` is only logged and
     * reaches none; a `newMessage` without a message makes its handler throw while logging
     * `message.id`, before it forwards, so it reaches none either.
     */
    method Receive(ev: ServerEvent)
      requires Valid()
      modifies this
      ensures Valid()
      ensures ev.Error? ==> invoked == old(invoked)
      ensures ev.NewMessage? && ev.record.None? ==> invoked == old(invoked)
      ensures !ev.Error? && !(ev.NewMessage? && ev.record.None?) ==>
        invoked == old(invoked) + Calls(Seqs.ListAt(listeners, EventName(ev)), ev)
      ensures connected == old(connected) && listeners == old(listeners)
      ensures joinedRooms == old(joinedRooms) && outbox == old(outbox)
    {
      if !ev.Error? && !(ev.NewMessage? && ev.record.None?) {
        Emit(EventName(ev), ev);
      }
    }

    /** The `connect` handler: the socket is up and every recorded room is joined again. */
    method OnConnect()
      requires Valid()
      modifies this
      ensures Valid()
      ensures connected
      ensures outbox == old(outbox) + JoinRequests(joinedRooms)
      ensures listeners == old(listeners) && joinedRooms == old(joinedRooms) && invoked == old(invoked)
    {
      connected := true;
      var i := 0;
      while i < |joinedRooms|
        invariant 0 <= i <= |joinedRooms|
        invariant outbox == old(outbox) + JoinRequests(joinedRooms[..i])
        invariant connected && listeners == old(listeners) && joinedRooms == old(joinedRooms) && invoked == old(invoked)
      {
        assert JoinRequests(joinedRooms[..i + 1]) == JoinRequests(joinedRooms[..i]) + [ClientEvent.JoinRoom(joinedRooms[i])];
        outbox := outbox + [ClientEvent.JoinRoom(joinedRooms[i])];
        i := i + 1;
      }
      assert joinedRooms[..i] == joinedRooms;
    }

    /** The transport drops: the socket is no longer connected and nothing else changes. */
    method ConnectionLost()
      requires Valid()
      modifies this
      ensures Valid()
      ensures !connected
      ensures listeners == old(listeners) && joinedRooms == old(joinedRooms)
      ensures outbox == old(outbox) && invoked == old(invoked)
    {
      connected := false;
    }

    /** `disconnect()`: the socket goes, and so do every listener and every recorded room. */
    method Disconnect()
      requires Valid()
      modifies this
      ensures Valid()
      ensures !connected && listeners == map[] && joinedRooms == []
      ensures outbox == old(outbox) && invoked == old(invoked)
    {
      connected := false;
      listeners := map[];
      joinedRooms := [];
    }

    /** `joinRoom(roomId)`: recorded either way; sent to the server only when connected. */
    method JoinRoom(roomId: RoomId)
      requires Valid()
      modifies this
      ensures Valid()
      ensures joinedRooms == AddRoom(old(joinedRooms), roomId)
      ensures outbox == old(outbox) + (if connected then [ClientEvent.JoinRoom(roomId)] else [])
      ensures connected == old(connected) && listeners == old(listeners) && invoked == old(invoked)
    {
      if connected {
        outbox := outbox + [ClientEvent.JoinRoom(roomId)];
        joinedRooms := AddRoom(joinedRooms, roomId);
      } else {
        joinedRooms := AddRoom(joinedRooms, roomId);
      }
    }

    /** `leaveRoom(roomId)`: forgotten either way; sent to the server only when connected. */
    method LeaveRoom(roomId: RoomId)
      requires Valid()
      modifies this
      ensures Valid()
      ensures joinedRooms == DeleteRoom(old(joinedRooms), roomId)
      ensures outbox == old(outbox) + (if connected then [ClientEvent.LeaveRoom(roomId)] else [])
      ensures connected == old(connected) && listeners == old(listeners) && invoked == old(invoked)
    {
      var rest := DeleteRoom(joinedRooms, roomId);
      joinedRooms := rest;
      if connected {
        outbox := outbox + [ClientEvent.LeaveRoom(roomId)];
      }
    }

    /**
     * `sendMessage`: nothing goes out while disconnected. When connected, a room not recorded
     * yet is joined (and recorded) first, then the message is sent.
     */
    method SendMessage(content: string, roomId: RoomId, kind: Option<MessageType>)
      requires Valid()
      modifies this
      ensures Valid()
      ensures !connected ==> outbox == old(outbox) && joinedRooms == old(joinedRooms)
      ensures connected && roomId in old(joinedRooms) ==>
        outbox == old(outbox) + [ClientEvent.SendMessage(content, roomId, kind)] && joinedRooms == old(joinedRooms)
      ensures connected && roomId !in old(joinedRooms) ==>
        && outbox == old(outbox) + [ClientEvent.JoinRoom(roomId), ClientEvent.SendMessage(content, roomId, kind)]
        && joinedRooms == old(joinedRooms) + [roomId]
      ensures connected == old(connected) && listeners == old(listeners) && invoked == old(invoked)
    {
      if connected {
        if roomId !in joinedRooms {
          JoinRoom(roomId);
        }
        outbox := outbox + [ClientEvent.SendMessage(content, roomId, kind)];
      }
    }

    /** `sendTyping`: sent only when connected. */
    method SendTyping(roomId: RoomId, isTyping: bool)
      requires Valid()
      modifies this
      ensures Valid()
      ensures outbox == old(outbox) + (if connected then [Typing(roomId, isTyping)] else [])
      ensures connected == old(connected) && listeners == old(listeners)
      ensures joinedRooms == old(joinedRooms) && invoked == old(invoked)
    {
      if connected {
        outbox := outbox + [Typing(roomId, isTyping)];
      }
    }
  }
}
