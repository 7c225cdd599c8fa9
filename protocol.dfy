/** Values shared by both server variants: connection handles, decoded JSON
    messages, and the command a message is dispatched to. */
module Protocol {

  /** An opaque connection handle (a `*websocket.Conn`); only equality is used. */
  type Conn = nat

  type SessionId = string

  type RoomName = string

  /** One value of a decoded JSON object. The router only ever asks whether a
      value is a string; every other JSON value is kept as its encoded text. */
  datatype Value = Str(text: string) | NonString(encoded: string)

  /** A decoded message: a `map[string]interface{}`. */
  type Payload = map<string, Value>

  /** An opaque handle to the embedding application's event callbacks. */
  type Sink = nat

  datatype Option<T> = None | Some(value: T)

  /** True when `msg[key]` holds a string, so that `msg[key].(string)` does not panic. */
  predicate HasString(msg: Payload, key: string)
  {
    key in msg && msg[key].Str?
  }

  /** The action one inbound message selects. */
  datatype Command =
    | Join(room: RoomName)
    | Leave(room: RoomName)
    | Quit
    | Multicast(room: RoomName, data: Payload)
    | Broadcast(data: Payload)
    | Ignore

  /** The reserved keys and the five type tags a variant of the handler
      recognises. */
  datatype Dialect = Dialect(
    typeKey: string,
    roomKey: string,
    join: string,
    leave: string,
    quit: string,
    multicast: string,
    broadcast: string)

  /** The two reserved keys differ, and the five tags are non-empty and
      pairwise different; both variants' constants satisfy this. */
  predicate Distinct(d: Dialect)
  {
    && d.typeKey != d.roomKey
    && "" !in {d.join, d.leave, d.quit, d.multicast, d.broadcast}
    && |{d.join, d.leave, d.quit, d.multicast, d.broadcast}| == 5
  }

  /** A message the handler processes without a failed type assertion: the
      type is a string, and so is the room wherever the type makes the handler
      read it. */
  predicate WellFormed(d: Dialect, msg: Payload)
  {
    && HasString(msg, d.typeKey)
    && (msg[d.typeKey].text in {d.join, d.leave, d.multicast} ==> HasString(msg, d.roomKey))
  }

  /** The command a well-formed message selects, with the payload it forwards:
      the type key is always stripped, and a multicast strips the room key too. */
  function Decode(d: Dialect, msg: Payload): (c: Command)
    requires Distinct(d) && WellFormed(d, msg)
    ensures c.Join? <==> msg[d.typeKey].text == d.join
    ensures c.Leave? <==> msg[d.typeKey].text == d.leave
    ensures c.Quit? <==> msg[d.typeKey].text == d.quit
    ensures c.Multicast? <==> msg[d.typeKey].text == d.multicast
    ensures c.Broadcast? <==> msg[d.typeKey].text == d.broadcast
    ensures c.Ignore? <==> msg[d.typeKey].text !in {d.join, d.leave, d.quit, d.multicast, d.broadcast}
    ensures (c.Join? || c.Leave? || c.Multicast?) ==> c.room == msg[d.roomKey].text
    ensures c.Multicast? ==>
      && d.typeKey !in c.data && d.roomKey !in c.data
      && forall k :: k in msg && k != d.typeKey && k != d.roomKey ==> k in c.data && c.data[k] == msg[k]
    ensures c.Broadcast? ==>
      && d.typeKey !in c.data
      && forall k :: k in msg && k != d.typeKey ==> k in c.data && c.data[k] == msg[k]
    ensures (c.Multicast? || c.Broadcast?) ==> c.data.Keys <= msg.Keys
  {
    var msgType := msg[d.typeKey].text;
    var data := msg - {d.typeKey};
    if msgType == d.join then Join(msg[d.roomKey].text)
    else if msgType == d.leave then Leave(msg[d.roomKey].text)
    else if msgType == d.quit then Quit
    else if msgType == d.multicast then Multicast(msg[d.roomKey].text, data - {d.roomKey})
    else if msgType == d.broadcast then Broadcast(data)
    else Ignore
  }

  /** A broadcast forwards the room key whenever the message carries one:
      only the type key is stripped before the payload goes out, so the
      reserved room key reaches every recipient. */
  lemma BroadcastForwardsRoomKey(d: Dialect, msg: Payload)
    requires Distinct(d) && WellFormed(d, msg)
    requires msg[d.typeKey].text == d.broadcast && d.roomKey in msg
    ensures var c := Decode(d, msg);
      c.Broadcast? && d.roomKey in c.data && c.data[d.roomKey] == msg[d.roomKey]
  {
  }
}
