/** The first variant of the server (server.go): reserved keys `Gm_Ws_Type`
    and `Gm_Ws_Room`, type tags `gm_ws_*`, a handler whose receive loop ends
    at the first receive error, and an error callback given only the error. */
module RootServer {
  import opened Protocol
  import opened Registry
  import opened Delivery

  /** `Gm_Ws_Type`, `Gm_Ws_Room` and the `gm_ws_*` tags. */
  const Tags := Dialect("Gm_Ws_Type", "Gm_Ws_Room", "gm_ws_join", "gm_ws_leave", "gm_ws_disconnect",
                        "gm_ws_multicast", "gm_ws_broadcast")

  lemma TagsDistinct()
    ensures Distinct(Tags)
  {
  }

  /** `SocketServer`: its configuration, and the outbox recording what it
      sends and which callbacks of `events` it fires. */
  class SocketServer {
    var path: string
    var port: string
    var events: Sink
    const out: Outbox

    /** `NewSocketServer(path, port, events)`. */
    constructor NewSocketServer(path: string, port: string, events: Sink)
      ensures this.path == path && this.port == port && this.events == events
      ensures fresh(out) && out.log == []
    {
      this.path, this.port, this.events := path, port, events;
      out := new Outbox();
    }

    /** One turn of the handler's receive loop for connection `ws`, registered
        as `sessID`: strip the type key, then act on the type. `order` is the
        order a broadcast would visit `allCons` in; `failing` holds the numbers of the
        writes that fail. */
    method Step(t: Tables, ws: Conn, sessID: SessionId, msg: Payload, order: seq<SessionId>, failing: set<nat>)
      requires WellFormed(Tags, msg)
      requires IsEnumeration(order, t.allCons)
      modifies out`log, t
      ensures match Decode(Tags, msg)
        case Join(room) =>
          t.Snapshot() == Joined(old(t.Snapshot()), room, ws) && t.closed == old(t.closed) && out.log == old(out.log)
        case Leave(room) =>
          t.Snapshot() == Left(old(t.Snapshot()), room, ws) && t.closed == old(t.closed) && out.log == old(out.log)
        case Quit =>
          t.Snapshot() == Disconnected(old(t.Snapshot()), sessID, ws) && t.closed == old(t.closed) + {ws}
          && out.log == old(out.log)
        case Multicast(room, data) =>
          var f := Deliver(Without(Members(old(t.rooms), room), ws), failing);
          && t.Snapshot() == AfterMulticast(old(t.Snapshot()), f, sessID, ws)
          && t.closed == old(t.closed) + MulticastClosed(f, ws)
          && out.log == old(out.log) + Trace(f, data, None)
        case Broadcast(data) =>
          var f := Deliver(Recipients(order, old(t.allCons), ws), failing);
          && t.Snapshot() == AfterBroadcast(old(t.Snapshot()), f, sessID)
          && t.closed == old(t.closed) + BroadcastClosed(f)
          && out.log == old(out.log) + Trace(f, data, None)
        case Ignore =>
          t.Snapshot() == old(t.Snapshot()) && t.closed == old(t.closed) && out.log == old(out.log)
    {
      TagsDistinct();
      var msgType := msg[Tags.typeKey].text;
      var rest := msg - {Tags.typeKey};

      if msgType != "" && msgType == Tags.join {
        var roomName := rest[Tags.roomKey].text;
        t.AddToRoom(roomName, ws);
      }
      if msgType != "" && msgType == Tags.leave {
        var roomName := rest[Tags.roomKey].text;
        t.RemoveFromRoom(roomName, ws);
      }
      if msgType != "" && msgType == Tags.quit {
        t.Disconnect(sessID, ws);
      }
      if msgType != "" && msgType == Tags.multicast {
        var roomName := rest[Tags.roomKey].text;
        var data := rest - {Tags.roomKey};
        SendJsonTo(t, ws, sessID, roomName, data, failing);
      }
      if msgType != "" && msgType == Tags.broadcast {
        SendJson(t, ws, sessID, rest, order, failing);
      }
    }

    /** `sendJSON`: write `data` to every registered connection but `ws`, in
        the map's visiting order; at the first failed write, disconnect the
        failing connection under the sender's session id, report the error
        and stop. */
    method SendJson(t: Tables, ws: Conn, sessID: SessionId, data: Payload, order: seq<SessionId>, failing: set<nat>)
      requires Listed(order, t.allCons)
      modifies out`log, t
      ensures var f := Deliver(Recipients(order, old(t.allCons), ws), failing);
        && t.Snapshot() == AfterBroadcast(old(t.Snapshot()), f, sessID)
        && t.closed == old(t.closed) + BroadcastClosed(f)
        && out.log == old(out.log) + Trace(f, data, None)
    {
      ghost var f := Deliver(Recipients(order, t.allCons, ws), failing);
      TraceLog(out.log, f, data, None);
      var failed := out.SendEach(Values(order, t.allCons), ws, data, failing);
      if failed.Some? {
        t.Disconnect(sessID, failed.value);
        out.log := out.log + [OnSendError(None, SendFailed(failed.value))];
      }
    }

    /** `sendJSONTo`: write `data` to the members of `roomName` other than
        `ws`, in list order; at the first failed write, disconnect the sender,
        report the error and stop. */
    method SendJsonTo(t: Tables, ws: Conn, sessID: SessionId, roomName: RoomName, data: Payload, failing: set<nat>)
      modifies out`log, t
      ensures var f := Deliver(Without(Members(old(t.rooms), roomName), ws), failing);
        && t.Snapshot() == AfterMulticast(old(t.Snapshot()), f, sessID, ws)
        && t.closed == old(t.closed) + MulticastClosed(f, ws)
        && out.log == old(out.log) + Trace(f, data, None)
    {
      ghost var f := Deliver(Without(Members(t.rooms, roomName), ws), failing);
      TraceLog(out.log, f, data, None);
      var failed := out.SendEach(Members(t.rooms, roomName), ws, data, failing);
      if failed.Some? {
        t.Disconnect(sessID, ws);
        out.log := out.log + [OnSendError(None, SendFailed(failed.value))];
      }
    }
  }
}
