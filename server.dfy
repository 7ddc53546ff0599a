/** The relay server's registry as the server keeps it: one object whose
    room map, per-connection current room and record of sent frames are
    updated in place by the connection, message and close handlers. Each
    method is proved to leave the object in the state that the matching
    transition of module Rooms describes, and to keep the registry
    invariant. Whether a connection is open for writing is decided by the
    network, so each handler is given the set of open connections. */
module Server {
  import opened Json
  import opened Protocol
  import Rooms

  class Registry {
    var rooms: map<Value, seq<ConnId>>
    var current: map<ConnId, Value>
    var outbox: seq<(ConnId, Frame)>

    /** The registry's state as a value. */
    function Snapshot(): Rooms.State
      reads this
    {
      Rooms.State(rooms, current, outbox)
    }

    ghost predicate Valid()
      reads this
    {
      Rooms.Valid(Snapshot())
    }

    /** The map starts empty. */
    constructor ()
      ensures Snapshot() == Rooms.Initial && Valid()
    {
      rooms := map[];
      current := map[];
      outbox := [];
    }

    /** The health endpoint's `activeRooms`: under the invariant, the number
        of rooms holding at least one connection. */
    function ActiveRooms(): (n: nat)
      reads this
      ensures Valid() ==> n == |Rooms.Occupied(Snapshot())|
    {
      Rooms.ActiveRooms(Snapshot())
    }

    /** Walks `clients` in order and sends `f` to each one in `eligible`. */
    method SendEach(clients: seq<ConnId>, eligible: set<ConnId>, f: Frame)
      modifies this`outbox
      ensures outbox == old(outbox) + Deliveries(clients, eligible, f)
    {
      var i := 0;
      while i < |clients|
        invariant 0 <= i <= |clients|
        invariant outbox == old(outbox) + Deliveries(clients[..i], eligible, f)
      {
        var client := clients[i];
        assert clients[..i + 1][..i] == clients[..i];
        if client in eligible {
          outbox := outbox + [(client, f)];
        }
        i := i + 1;
      }
      assert clients[..|clients|] == clients;
    }

    /** A new connection: its `currentRoom` starts as `null`. */
    method Connect(c: ConnId)
      requires Valid()
      modifies this
      ensures Valid()
      ensures Snapshot() == Rooms.Connect(old(Snapshot()), c)
    {
      current := current[c := Null];
    }

    /** The "join" branch of the message handler. */
    method Join(c: ConnId, code: Value, open: set<ConnId>)
      requires Valid()
      modifies this
      ensures Valid()
      ensures Snapshot() == Rooms.Join(old(Snapshot()), c, code, open)
    {
      Rooms.JoinPreservesValid(Snapshot(), c, code, open);
      current := current[c := code];
      if code !in rooms {
        rooms := rooms[code := []];
      }
      rooms := rooms[code := rooms[code] + [c]];
      outbox := outbox + [(c, Joined(code))];
      if |rooms[code]| == 2 {
        SendEach(rooms[code], open, Connected);
      }
    }

    /** The "message" branch of the message handler. */
    method Relay(c: ConnId, content: Value, open: set<ConnId>)
      requires Valid()
      modifies this`outbox
      ensures Valid()
      ensures Snapshot() == Rooms.Relay(old(Snapshot()), c, content, open)
    {
      var r := Rooms.RoomOf(Snapshot(), c);
      if Truthy(r) && r in rooms {
        SendEach(rooms[r], open - {c}, Message(content));
      }
    }

    /** The close handler. */
    method Close(c: ConnId, open: set<ConnId>)
      requires Valid() && c !in open
      modifies this`rooms, this`outbox
      ensures Valid()
      ensures Snapshot() == Rooms.Leave(old(Snapshot()), c, open)
    {
      Rooms.LeavePreservesValid(Snapshot(), c, open);
      var r := Rooms.RoomOf(Snapshot(), c);
      if Truthy(r) && r in rooms {
        var roomClients := rooms[r];
        var index := Rooms.IndexOf(roomClients, c);
        if index > -1 {
          roomClients := roomClients[..index] + roomClients[index + 1..];
          rooms := rooms[r := roomClients];
          SendEach(roomClients, open, Disconnected);
          if |roomClients| == 0 {
            rooms := rooms - {r};
          }
        }
      }
    }

    /** The message handler: a frame that does not decode, or whose `type`
        is neither "join" nor "message", changes nothing. */
    method Receive(c: ConnId, frame: Inbound, open: set<ConnId>)
      requires Valid()
      modifies this
      ensures Valid()
      ensures Snapshot() == Rooms.Receive(old(Snapshot()), c, frame, open)
    {
      match Classify(frame)
      case JoinRoom(code) => Join(c, code, open);
      case SendMessage(content) => Relay(c, content, open);
      case Ignore =>
    }
  }

  /** Two connections pairing up in room "ABCD", driven through the
      registry object. */
  method PairingThroughRegistry() returns (rooms: nat, sent: seq<(ConnId, Frame)>)
    ensures rooms == 0
    ensures sent == Rooms.Paired.outbox + [(2, Message(Str("hi"))), (1, Disconnected)]
  {
    var registry := new Registry();
    registry.Connect(1);
    registry.Connect(2);
    registry.Join(1, Rooms.ABCD, {1, 2});
    registry.Join(2, Rooms.ABCD, {1, 2});
    Rooms.ScenarioPairing();
    assert registry.Snapshot() == Rooms.Paired;
    registry.Relay(1, Str("hi"), {1, 2});
    Rooms.ScenarioRelay();
    ghost var s3 := registry.Snapshot();
    assert s3.outbox == Rooms.Paired.outbox + [(2, Message(Str("hi")))];
    Rooms.ScenarioLeaving(s3);
    registry.Close(2, {1});
    ghost var s4 := registry.Snapshot();
    assert s4 == Rooms.Leave(s3, 2, {1});
    registry.Close(1, {});
    assert registry.Snapshot() == Rooms.Leave(s4, 1, {});
    rooms := registry.ActiveRooms();
    sent := registry.outbox;
  }
}
