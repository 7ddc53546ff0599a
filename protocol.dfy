/** The wire protocol of the relay: what an inbound frame asks for once it
    has been decoded, the frames the server sends, and the one sending
    pattern every handler uses (walk a room's list in order and send a frame
    to each member that passes a readiness test). */
module Protocol {
  import opened Json

  /** A connection handle; two handles are the same connection exactly when
      they are equal. */
  type ConnId = nat

  /** An inbound frame after decoding: either the text was not valid JSON or
      it decoded to a value. */
  datatype Inbound = Unparsable | Parsed(value: Value)

  /** What the message handler does with a frame. */
  datatype Command =
    | JoinRoom(roomCode: Value)
    | SendMessage(content: Value)
    | Ignore

  /** Frames the server sends. */
  datatype Frame =
    | Joined(roomCode: Value)
    | Connected
    | Message(content: Value)
    | Disconnected

  /** The dispatch of the message handler. A frame that does not decode, or
      decodes to `null` (so that reading `type` throws), is swallowed by the
      handler's catch; a `type` other than "join" and "message" matches
      neither branch. */
  function Classify(frame: Inbound): (cmd: Command)
    ensures frame.Unparsable? ==> cmd == Ignore
    ensures cmd.JoinRoom? <==>
              frame.Parsed? && Property(frame.value, "type") == Some(Str("join"))
    ensures cmd.SendMessage? <==>
              frame.Parsed? && Property(frame.value, "type") == Some(Str("message"))
    ensures cmd.JoinRoom? ==> Property(frame.value, "roomCode") == Some(cmd.roomCode)
    ensures cmd.SendMessage? ==> Property(frame.value, "content") == Some(cmd.content)
  {
    match frame
    case Unparsable => Ignore
    case Parsed(v) =>
      match Property(v, "type")
      case None => Ignore
      case Some(t) =>
        if t == Str("join") then JoinRoom(Property(v, "roomCode").value)
        else if t == Str("message") then SendMessage(Property(v, "content").value)
        else Ignore
  }

  /** The frames produced by walking `clients` in order and sending `f` to
      each one that is in `eligible`. */
  function Deliveries(clients: seq<ConnId>, eligible: set<ConnId>, f: Frame): (out: seq<(ConnId, Frame)>)
    ensures |out| <= |clients|
    ensures forall k :: 0 <= k < |out| ==> out[k].1 == f && out[k].0 in eligible && out[k].0 in clients
  {
    if clients == [] then []
    else
      var last := clients[|clients| - 1];
      Deliveries(clients[..|clients| - 1], eligible, f) + (if last in eligible then [(last, f)] else [])
  }

  /** Every eligible connection receives `f` once per occurrence in `clients`,
      and nothing else is sent. */
  lemma {:induction false} DeliveriesCount(clients: seq<ConnId>, eligible: set<ConnId>, f: Frame,
                                           x: ConnId, g: Frame)
    ensures multiset(Deliveries(clients, eligible, f))[(x, g)] ==
            if g == f && x in eligible then multiset(clients)[x] else 0
  {
    if clients != [] {
      var init, last := clients[..|clients| - 1], clients[|clients| - 1];
      assert clients == init + [last];
      DeliveriesCount(init, eligible, f, x, g);
    }
  }

  /** The frames a client sends, as decoded: a join with a code, a join
      that leaves the code out (it joins the room `undefined`), a message,
      and a frame of some other type. */
  lemma ClassifyClientFrames(code: Value, content: Value)
    ensures Classify(Parsed(Obj([("type", Str("join")), ("roomCode", code)]))) == JoinRoom(code)
    ensures Classify(Parsed(Obj([("type", Str("join"))]))) == JoinRoom(Undefined)
    ensures Classify(Parsed(Obj([("type", Str("message")), ("content", content)]))) == SendMessage(content)
    ensures Classify(Parsed(Obj([("type", Str("leave"))]))) == Ignore
    ensures Classify(Parsed(Null)) == Ignore && Classify(Parsed(Str("join"))) == Ignore
  {
    var join: seq<(string, Value)> := [("type", Str("join")), ("roomCode", code)];
    assert join[..1] == [("type", Str("join"))];
    assert Field(join, "type") == Str("join");
    var message: seq<(string, Value)> := [("type", Str("message")), ("content", content)];
    assert message[..1] == [("type", Str("message"))];
    assert Field(message, "type") == Str("message");
  }
}
