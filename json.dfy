/** Values the relay server reads out of a decoded inbound frame, with the two
    pieces of JavaScript semantics the handlers depend on: truthiness (the
    guards of the relay and close handlers) and property lookup on a parsed
    value (`message.type`, `message.roomCode`, `message.content`). */
module Json {

  datatype Option<+T> = None | Some(value: T)

  /** A value produced by decoding a frame. `Undefined` is what a missing
      property reads as; numbers are restricted to integers. */
  datatype Value =
    | Undefined
    | Null
    | Bool(b: bool)
    | Num(n: int)
    | Str(s: string)
    | Arr(items: seq<Value>)
    | Obj(fields: seq<(string, Value)>)

  /** JavaScript truthiness: `undefined`, `null`, `false`, `0` and `""` are
      falsy; every other value, every array and every object is truthy. */
  predicate Truthy(v: Value)
    ensures !Truthy(v) <==> v in {Undefined, Null, Bool(false), Num(0), Str("")}
  {
    match v
    case Undefined => false
    case Null => false
    case Bool(b) => b
    case Num(n) => n != 0
    case Str(s) => s != ""
    case Arr(_) => true
    case Obj(_) => true
  }

  /** The value of own property `name` of a decoded object: when the text
      repeated a key, the last occurrence wins; a missing key reads as
      `Undefined`. */
  function Field(fields: seq<(string, Value)>, name: string): (v: Value)
    ensures (forall i :: 0 <= i < |fields| ==> fields[i].0 != name) ==> v == Undefined
    ensures (exists i :: 0 <= i < |fields| && fields[i].0 == name) ==>
            exists i :: 0 <= i < |fields| && fields[i] == (name, v) &&
                        forall j :: i < j < |fields| ==> fields[j].0 != name
  {
    if fields == [] then Undefined
    else if fields[|fields| - 1].0 == name then fields[|fields| - 1].1
    else Field(fields[..|fields| - 1], name)
  }

  /** Reading property `name` of a value: `None` stands for the TypeError
      JavaScript raises on `null` and `undefined`; primitives and arrays have
      none of the properties the server reads, so they read as `Undefined`. */
  function Property(v: Value, name: string): (p: Option<Value>)
    ensures p.None? <==> v.Null? || v.Undefined?
    ensures !v.Obj? && p.Some? ==> p.value == Undefined
  {
    match v
    case Undefined => None
    case Null => None
    case Obj(fields) => Some(Field(fields, name))
    case _ => Some(Undefined)
  }

  /** A later occurrence of a key overrides an earlier one, and keys with
      other names do not affect the lookup. */
  lemma {:induction false} FieldLastWins(fields: seq<(string, Value)>, name: string, v: Value,
                                         rest: seq<(string, Value)>)
    requires forall j :: 0 <= j < |rest| ==> rest[j].0 != name
    ensures Field(fields + [(name, v)] + rest, name) == v
  {
    if rest != [] {
      var all := fields + [(name, v)] + rest;
      assert all[..|all| - 1] == fields + [(name, v)] + rest[..|rest| - 1];
      assert all[|all| - 1] == rest[|rest| - 1];
      FieldLastWins(fields, name, v, rest[..|rest| - 1]);
    } else {
      assert (fields + [(name, v)] + rest)[|fields|] == (name, v);
    }
  }
}
