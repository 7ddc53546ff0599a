/** The room registry of the relay server as a state machine: the map from
    room code to the ordered list of connections in that room, each
    connection's current room, and the frames sent so far. Each handler of
    the server is one transition; Node runs a handler to completion before
    the next event, so each transition is atomic. */
module Rooms {
  import opened Json
  import opened Protocol

  datatype State = State(
    rooms: map<Value, seq<ConnId>>,    // room code -> connections, in join order
    current: map<ConnId, Value>,       // a connection's `currentRoom`
    outbox: seq<(ConnId, Frame)>)      // every frame sent, in order

  /** The registry when the server starts. */
  const Initial := State(map[], map[], [])

  /** A connection's `currentRoom`; a connection never seen reads as `null`,
      the value it starts with. */
  function RoomOf(s: State, c: ConnId): Value {
    if c in s.current then s.current[c] else Null
  }

  /** The list stored under `code`, or the empty list if there is none. */
  function Members(s: State, code: Value): seq<ConnId> {
    if code in s.rooms then s.rooms[code] else []
  }

  /** The room that the relay and close handlers act on: the connection's
      `currentRoom` when it is truthy and still a key of the map. */
  function ActiveRoom(s: State, c: ConnId): (r: Option<Value>)
    ensures r.Some? ==> r.value in s.rooms && Truthy(r.value) && r.value == RoomOf(s, c)
    ensures r.None? ==> !Truthy(RoomOf(s, c)) || RoomOf(s, c) !in s.rooms
  {
    var code := RoomOf(s, c);
    if Truthy(code) && code in s.rooms then Some(code) else None
  }

  /** The registry invariant: no stored list is empty. */
  ghost predicate Valid(s: State) {
    forall k :: k in s.rooms ==> s.rooms[k] != []
  }

  // ---------------------------------------------------------------------
  // Lists of connections: `indexOf` and `splice(index, 1)`

  /** The index of the first occurrence of `x`, or -1 if there is none. */
  function IndexOf(s: seq<ConnId>, x: ConnId): (i: int)
    ensures -1 <= i < |s|
    ensures i == -1 <==> x !in s
    ensures 0 <= i ==> s[i] == x && x !in s[..i]
  {
    if s == [] then -1
    else if s[0] == x then 0
    else
      var j := IndexOf(s[1..], x);
      assert j >= 0 ==> s[1..][..j] == s[1..j + 1];
      if j == -1 then -1 else j + 1
  }

  /** The list without its first occurrence of `x`: a reference definition,
      independent of indices. */
  function RemoveFirst(s: seq<ConnId>, x: ConnId): (r: seq<ConnId>)
    ensures x !in s ==> r == s
    ensures x in s ==> |r| == |s| - 1
  {
    if s == [] then []
    else
      assert s == [s[0]] + s[1..];
      if s[0] == x then s[1..] else [s[0]] + RemoveFirst(s[1..], x)
  }

  /** Removing the first occurrence takes exactly one copy of `x` out of
      the list's multiset of elements, if there is one. */
  lemma {:induction false} RemoveFirstMultiset(s: seq<ConnId>, x: ConnId)
    ensures multiset(RemoveFirst(s, x)) == multiset(s) - multiset{x}
  {
    if s != [] {
      assert s == [s[0]] + s[1..];
      RemoveFirstMultiset(s[1..], x);
    }
  }

  /** Splicing out the element at `indexOf(x)` removes exactly the first
      occurrence of `x`. */
  lemma {:induction false} SpliceRemovesFirst(s: seq<ConnId>, x: ConnId)
    requires x in s
    ensures var i := IndexOf(s, x); s[..i] + s[i + 1..] == RemoveFirst(s, x)
  {
    var tail := s[1..];
    if s[0] == x {
      assert s[..0] + s[1..] == tail;
    } else {
      assert x in tail;
      var j := IndexOf(tail, x);
      SpliceRemovesFirst(tail, x);
      assert s[..j + 1] == [s[0]] + tail[..j];
      assert s[j + 2..] == tail[j + 1..];
    }
  }

  // ---------------------------------------------------------------------
  // The handlers

  /** A new connection starts with `currentRoom` set to `null`. */
  function Connect(s: State, c: ConnId): (t: State)
    ensures t.rooms == s.rooms && t.outbox == s.outbox
    ensures RoomOf(t, c) == Null && ActiveRoom(t, c).None?
    ensures forall d :: d != c ==> RoomOf(t, d) == RoomOf(s, d)
  {
    s.(current := s.current[c := Null])
  }

  /** The "join" branch: record the code as the connection's room, create
      the list if absent, append the connection, acknowledge, and announce
      `connected` to the open members when the list has just reached two. */
  function Join(s: State, c: ConnId, code: Value, open: set<ConnId>): (t: State)
    ensures t.rooms.Keys == s.rooms.Keys + {code}
    ensures t.rooms[code] == Members(s, code) + [c]
    ensures forall k :: k in s.rooms && k != code ==> t.rooms[k] == s.rooms[k]
    ensures RoomOf(t, c) == code
    ensures forall d :: d != c ==> RoomOf(t, d) == RoomOf(s, d)
    ensures |t.outbox| > |s.outbox| && t.outbox[..|s.outbox|] == s.outbox
    ensures t.outbox[|s.outbox|] == (c, Joined(code))
  {
    var list := Members(s, code) + [c];
    var acked := s.outbox + [(c, Joined(code))];
    State(s.rooms[code := list], s.current[c := code],
          if |list| == 2 then acked + Deliveries(list, open, Connected) else acked)
  }

  /** The "message" branch: forward the content, unchanged, to every open
      member of the sender's room other than the sender. */
  function Relay(s: State, c: ConnId, content: Value, open: set<ConnId>): (t: State)
    ensures t.rooms == s.rooms && t.current == s.current
    ensures |t.outbox| >= |s.outbox| && t.outbox[..|s.outbox|] == s.outbox
  {
    match ActiveRoom(s, c)
    case None => s
    case Some(r) => s.(outbox := s.outbox + Deliveries(s.rooms[r], open - {c}, Message(content)))
  }

  /** The close handler: splice the connection out at `indexOf`, announce
      `disconnected` to the open members left, and delete the room once its
      list is empty. The handler runs only once the connection itself is
      closed, so it is never among the open ones. */
  function Leave(s: State, c: ConnId, open: set<ConnId>): (t: State)
    requires c !in open
    ensures t.current == s.current
    ensures |t.outbox| >= |s.outbox| && t.outbox[..|s.outbox|] == s.outbox
    ensures forall k :: k != RoomOf(s, c) ==> (k in t.rooms <==> k in s.rooms)
    ensures forall k :: k != RoomOf(s, c) && k in s.rooms ==> t.rooms[k] == s.rooms[k]
  {
    match ActiveRoom(s, c)
    case None => s
    case Some(r) =>
      var roomClients := s.rooms[r];
      var index := IndexOf(roomClients, c);
      if index > -1 then
        var rest := roomClients[..index] + roomClients[index + 1..];
        State(if rest == [] then s.rooms - {r} else s.rooms[r := rest],
              s.current,
              s.outbox + Deliveries(rest, open, Disconnected))
      else s
  }

  /** The message handler: decode, then dispatch on `type`. */
  function Receive(s: State, c: ConnId, frame: Inbound, open: set<ConnId>): (t: State)
    ensures Classify(frame).Ignore? ==> t == s
  {
    match Classify(frame)
    case JoinRoom(code) => Join(s, c, code, open)
    case SendMessage(content) => Relay(s, c, content, open)
    case Ignore => s
  }

  /** The codes of rooms that hold at least one connection. */
  ghost function Occupied(s: State): set<Value> {
    set k | k in s.rooms && s.rooms[k] != []
  }

  /** The `activeRooms` figure of the health endpoint: the size of the map,
      which under the invariant is the number of occupied rooms. */
  function ActiveRooms(s: State): (n: nat)
    ensures Valid(s) ==> n == |Occupied(s)|
  {
    assert Valid(s) ==> Occupied(s) == s.rooms.Keys;
    |s.rooms|
  }

  // ---------------------------------------------------------------------
  // Properties

  /** Join sends exactly one `joined` frame, to the joiner and carrying the
      code it asked for, and `connected` to each open member, once per
      occurrence in the list, exactly when the list now holds two entries. */
  lemma JoinSends(s: State, c: ConnId, code: Value, open: set<ConnId>, x: ConnId, g: Frame)
    ensures var t := Join(s, c, code, open);
            multiset(t.outbox[|s.outbox|..])[(x, g)] ==
              (if x == c && g == Joined(code) then 1 else 0) +
              (if g == Connected && |t.rooms[code]| == 2 && x in open
               then multiset(t.rooms[code])[x] else 0)
  {
    var t := Join(s, c, code, open);
    var list := t.rooms[code];
    var sent := if |list| == 2 then Deliveries(list, open, Connected) else [];
    assert t.outbox[|s.outbox|..] == [(c, Joined(code))] + sent;
    DeliveriesCount(list, open, Connected, x, g);
  }

  /** A join to a room that already holds two or more connections is not
      capped: the list grows past two and nobody is sent `connected`. */
  lemma ThirdJoinGrowsRoom(s: State, c: ConnId, code: Value, open: set<ConnId>)
    requires |Members(s, code)| >= 2
    ensures var t := Join(s, c, code, open);
            |t.rooms[code]| > 2 && t.outbox == s.outbox + [(c, Joined(code))]
  {
  }

  /** Relay leaves the registry as it is, never echoes to the sender, and
      gives each open member of the sender's room the content unchanged,
      once per occurrence of that member in the list. */
  lemma RelaySends(s: State, c: ConnId, content: Value, open: set<ConnId>, x: ConnId, g: Frame)
    ensures var t := Relay(s, c, content, open);
            multiset(t.outbox[|s.outbox|..])[(x, g)] ==
              if g == Message(content) && x != c && x in open && ActiveRoom(s, c).Some?
              then multiset(s.rooms[ActiveRoom(s, c).value])[x] else 0
  {
    var t := Relay(s, c, content, open);
    match ActiveRoom(s, c)
    case None =>
    case Some(r) =>
      assert t.outbox[|s.outbox|..] == Deliveries(s.rooms[r], open - {c}, Message(content));
      DeliveriesCount(s.rooms[r], open - {c}, Message(content), x, g);
  }

  /** Relay and close do nothing for a connection whose `currentRoom` is
      falsy or no longer a key of the map. */
  lemma NoRoomIsNoop(s: State, c: ConnId, content: Value, open: set<ConnId>)
    requires !Truthy(RoomOf(s, c)) || RoomOf(s, c) !in s.rooms
    ensures Relay(s, c, content, open) == s
    ensures c !in open ==> Leave(s, c, open) == s
  {
  }

  /** Close removes only the first occurrence of the connection from its
      room, deletes the room exactly when nothing is left, and sends each
      open connection left one `disconnected` per occurrence; a connection
      absent from its room's list changes nothing. */
  lemma LeaveRemovesFirst(s: State, c: ConnId, open: set<ConnId>, x: ConnId, g: Frame)
    requires ActiveRoom(s, c).Some? && c !in open
    ensures var r := ActiveRoom(s, c).value;
            var t := Leave(s, c, open);
            var rest := RemoveFirst(s.rooms[r], c);
            && (c !in s.rooms[r] ==> t == s)
            && (c in s.rooms[r] ==>
                  && (r in t.rooms <==> rest != [])
                  && (r in t.rooms ==> t.rooms[r] == rest)
                  && multiset(t.outbox[|s.outbox|..])[(x, g)] ==
                       if g == Disconnected && x in open then multiset(rest)[x] else 0)
  {
    var r := ActiveRoom(s, c).value;
    if c in s.rooms[r] {
      var t := Leave(s, c, open);
      SpliceRemovesFirst(s.rooms[r], c);
      var rest := RemoveFirst(s.rooms[r], c);
      assert t.outbox[|s.outbox|..] == Deliveries(rest, open, Disconnected);
      DeliveriesCount(rest, open, Disconnected, x, g);
    }
  }

  /** Join and close keep every stored list non-empty. */
  lemma JoinPreservesValid(s: State, c: ConnId, code: Value, open: set<ConnId>)
    requires Valid(s)
    ensures Valid(Join(s, c, code, open))
  {
  }

  lemma LeavePreservesValid(s: State, c: ConnId, open: set<ConnId>)
    requires Valid(s) && c !in open
    ensures Valid(Leave(s, c, open))
  {
  }

  /** Every inbound frame keeps the invariant; a frame that does not decode
      or has an unknown type changes nothing at all. */
  lemma ReceivePreservesValid(s: State, c: ConnId, frame: Inbound, open: set<ConnId>)
    requires Valid(s)
    ensures Valid(Receive(s, c, frame, open))
    ensures frame.Unparsable? ==> Receive(s, c, frame, open) == s
  {
    match Classify(frame)
    case JoinRoom(code) => JoinPreservesValid(s, c, code, open);
    case SendMessage(_) =>
    case Ignore =>
  }

  /** Joining a truthy room the connection is not already in, then closing,
      gives back the map as it was before the join; in particular a room
      created by the join is deleted again. */
  lemma JoinLeaveRoundTrip(s: State, c: ConnId, code: Value, open1: set<ConnId>, open2: set<ConnId>)
    requires Valid(s) && Truthy(code) && c !in Members(s, code) && c !in open2
    ensures Leave(Join(s, c, code, open1), c, open2).rooms == s.rooms
  {
    var t := Join(s, c, code, open1);
    var list := t.rooms[code];
    var before := Members(s, code);
    assert list == before + [c];
    assert IndexOf(list, c) == |before| by {
      assert list[|before|] == c;
      assert list[..|before|] == before;
    }
    assert list[..|before|] + list[|before| + 1..] == before;
    if before == [] {
      assert s.rooms == t.rooms - {code};
    } else {
      assert s.rooms == t.rooms[code := before];
    }
  }

  /** Joining a second room leaves a stale entry in the first: a later
      close only touches the room joined last. */
  lemma RejoinLeavesStaleEntry(s: State, c: ConnId, a: Value, b: Value,
                               open1: set<ConnId>, open2: set<ConnId>, open3: set<ConnId>)
    requires a != b && c !in open3
    ensures var t := Join(Join(s, c, a, open1), c, b, open2);
            var u := Leave(t, c, open3);
            a in u.rooms && u.rooms[a] == Members(s, a) + [c]
  {
  }

  /** A room with a falsy code is created by join, but relay and close never
      act on it, so the joiner stays in it for good. */
  lemma FalsyRoomNeverCleaned(s: State, c: ConnId, code: Value, content: Value,
                              open1: set<ConnId>, open2: set<ConnId>)
    requires !Truthy(code) && c !in open2
    ensures var t := Join(s, c, code, open1);
            c in t.rooms[code] && Relay(t, c, content, open2) == t && Leave(t, c, open2) == t
  {
  }

  // Two connections, 1 and 2, pair up in room "ABCD", exchange one message
  // and leave one after the other.

  const ABCD := Str("ABCD")

  /** Both connections have joined and been told they are connected. */
  const Paired := State(map[ABCD := [1, 2]], map[1 := ABCD, 2 := ABCD],
                        [(1, Joined(ABCD)), (2, Joined(ABCD)), (1, Connected), (2, Connected)])

  lemma ScenarioPairing()
    ensures Join(Join(Connect(Connect(Initial, 1), 2), 1, ABCD, {1, 2}), 2, ABCD, {1, 2}) == Paired
  {
    var s0 := Connect(Connect(Initial, 1), 2);
    assert s0.rooms == map[] && s0.outbox == [];
    assert Members(s0, ABCD) + [1] == [1];
    var s1 := Join(s0, 1, ABCD, {1, 2});
    assert s1.rooms == map[ABCD := [1]];
    assert s1.outbox == [(1, Joined(ABCD))];
    assert [1, 2][..1] == [1];
    assert Members(s1, ABCD) + [2] == [1, 2];
    assert Deliveries([1, 2], {1, 2}, Connected) == [(1, Connected), (2, Connected)];
    var s2 := Join(s1, 2, ABCD, {1, 2});
    assert s2.rooms == Paired.rooms;
    assert s2.current == Paired.current;
  }

  /** A message from 1 reaches 2 unchanged and is not echoed to 1. */
  lemma ScenarioRelay()
    ensures Relay(Paired, 1, Str("hi"), {1, 2}) ==
            Paired.(outbox := Paired.outbox + [(2, Message(Str("hi")))])
  {
    assert ActiveRoom(Paired, 1) == Some(ABCD);
    assert [1, 2][..1] == [1] && [1][..0] == [];
    assert {1, 2} - {1} == {2};
    assert Paired.rooms[ABCD] == [1, 2];
    assert Deliveries([1, 2], {2}, Message(Str("hi"))) == [(2, Message(Str("hi")))];
  }

  /** When 2 closes, 1 is told once and stays alone in the room; when 1
      closes too, the room is gone and the health count drops to zero. */
  lemma ScenarioLeaving(s: State)
    requires s.rooms == Paired.rooms && s.current == Paired.current
    ensures var t := Leave(s, 2, {1});
            && t.outbox == s.outbox + [(1, Disconnected)]
            && t.rooms == map[ABCD := [1]] && ActiveRooms(t) == 1
            && Leave(t, 1, {}).rooms == map[] && ActiveRooms(Leave(t, 1, {})) == 0
            && Leave(t, 1, {}).outbox == t.outbox
  {
    assert ActiveRoom(s, 2) == Some(ABCD);
    assert IndexOf([1, 2], 2) == 1;
    assert [1, 2][..1] + [1, 2][2..] == [1];
    var t := Leave(s, 2, {1});
    assert t.rooms == map[ABCD := [1]];
    assert ActiveRoom(t, 1) == Some(ABCD);
    assert IndexOf([1], 1) == 0;
    assert Leave(t, 1, {}).rooms == map[];
  }
}
