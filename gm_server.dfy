/** The second variant of the server (server/server.go): reserved keys
    `GmWsType` and `GmWsRoom`, bare type tags, a server built by `New` from a
    default configuration and a list of configuration functions, and an error
    callback given the sender's connection besides the error. The tables and
    their edits are the ones in `Registry`. */
module GmServer {
  import opened Protocol
  import opened Registry
  import opened Delivery

  /** `GmWsType`, `GmWsRoom` and the bare tags. */
  const Tags := Dialect("GmWsType", "GmWsRoom", "join", "leave", "disconnect", "multicast", "broadcast")

  lemma TagsDistinct()
    ensures Distinct(Tags)
  {
  }

  /** The settable part of a `SocketServer`: `Path`, `Port` and `events`,
      which is `None` until `New` sets it (a nil interface). */
  datatype Config = Config(path: string, port: string, events: Option<Sink>)

  /** A `ConfigFunc`, by its effect on the configuration it is handed a
      pointer to. */
  type ConfigFunc = Config -> Config

  /** `defaultConfig()`. */
  function DefaultConfig(): (c: Config)
    ensures c.path == "/ws" && c.port == ":3000" && c.events == None
  {
    Config("/ws", ":3000", None)
  }

  /** The configuration `New(events, configs...)` starts its loop from. */
  function Initial(events: Sink): (c: Config)
  {
    DefaultConfig().(events := Some(events))
  }

  /** The configuration after `configs` have been applied to `c`, first to last. */
  function Applied(configs: seq<ConfigFunc>, c: Config): (r: Config)
    ensures configs == [] ==> r == c
    ensures |configs| == 1 ==> r == configs[0](c)
  {
    if |configs| == 0 then c else configs[|configs| - 1](Applied(configs[..|configs| - 1], c))
  }

  /** Applying a list of configuration functions is applying its parts in turn. */
  lemma {:induction false} AppliedAppend(a: seq<ConfigFunc>, b: seq<ConfigFunc>, c: Config)
    ensures Applied(a + b, c) == Applied(b, Applied(a, c))
  {
    if |b| == 0 {
      assert a + b == a;
    } else {
      var b' := b[..|b| - 1];
      assert (a + b)[..|a + b| - 1] == a + b';
      AppliedAppend(a, b', c);
    }
  }

  /** The first configuration function runs first, on the starting configuration. */
  lemma AppliedFirst(configs: seq<ConfigFunc>, c: Config)
    requires |configs| > 0
    ensures Applied(configs, c) == Applied(configs[1..], configs[0](c))
  {
    assert configs == [configs[0]] + configs[1..];
    AppliedAppend([configs[0]], configs[1..], c);
  }

  /** `f` sets the field `get` reads to `v`, whatever it held. */
  ghost predicate Writes<T>(f: ConfigFunc, get: Config -> T, v: T)
  {
    forall x :: get(f(x)) == v
  }

  /** `f` leaves the field `get` reads as it found it. */
  ghost predicate Keeps<T>(f: ConfigFunc, get: Config -> T)
  {
    forall x :: get(f(x)) == get(x)
  }

  /** A field no configuration function writes keeps the value it started with. */
  lemma {:induction false} UntouchedFieldKept<T>(configs: seq<ConfigFunc>, c: Config, get: Config -> T)
    requires forall i :: 0 <= i < |configs| ==> Keeps(configs[i], get)
    ensures get(Applied(configs, c)) == get(c)
  {
    if |configs| > 0 {
      var init := configs[..|configs| - 1];
      assert forall i :: 0 <= i < |init| ==> init[i] == configs[i];
      UntouchedFieldKept(init, c, get);
      assert Keeps(configs[|configs| - 1], get);
    }
  }

  /** The last configuration function that writes a field decides its value. */
  lemma {:induction false} LastWriterWins<T>(configs: seq<ConfigFunc>, c: Config, get: Config -> T, k: nat, v: T)
    requires k < |configs| && Writes(configs[k], get, v)
    requires forall i :: k < i < |configs| ==> Keeps(configs[i], get)
    ensures get(Applied(configs, c)) == v
  {
    var front := configs[..k + 1];
    var back := configs[k + 1..];
    assert configs == front + back;
    AppliedAppend(front, back, c);
    assert front[..k] == configs[..k];
    assert get(Applied(front, c)) == v;
    assert forall i :: 0 <= i < |back| ==> back[i] == configs[k + 1 + i];
    UntouchedFieldKept(back, Applied(front, c), get);
  }

  /** `SocketServer`: its configuration, and the outbox recording what it
      sends and which callbacks of `events` it fires. */
  class SocketServer {
    var path: string
    var port: string
    var events: Option<Sink>
    const out: Outbox

    /** The struct literal `New` returns a pointer to. */
    constructor Of(c: Config)
      ensures Settings() == c && fresh(out) && out.log == []
    {
      path, port, events := c.path, c.port, c.events;
      out := new Outbox();
    }

    function Settings(): (c: Config)
      reads this
    {
      Config(path, port, events)
    }

    /** One turn of `jsonHandler`'s receive loop for connection `ws`,
        registered as `sessID`, after a successful receive: strip the type key,
        then act on the type. `order` is the order a broadcast would visit
        `allCons` in; `failing` holds the numbers of the writes that fail. */
    method Step(t: Tables, ws: Conn, sessID: SessionId, msg: Payload, order: seq<SessionId>, failing: set<nat>)
      requires WellFormed(Tags, msg)
      requires IsEnumeration(order, t.allCons)
      modifies out`log, t
      ensures match Decode(Tags, msg)
        case Join(room) =>
          t.Snapshot() == Joined(old(t.Snapshot()), room, ws) && t.closed == old(t.closed) && out.log == old(out.log)
        case Leave(room) =>
          t.Snapshot() == Left(old(t.Snapshot()), room, ws) && t.closed == old(t.closed) && out.log == old(out.log)
        case Quit =>
          t.Snapshot() == Disconnected(old(t.Snapshot()), sessID, ws) && t.closed == old(t.closed) + {ws}
          && out.log == old(out.log)
        case Multicast(room, data) =>
          var f := Deliver(Without(Members(old(t.rooms), room), ws), failing);
          && t.Snapshot() == AfterMulticast(old(t.Snapshot()), f, sessID, ws)
          && t.closed == old(t.closed) + MulticastClosed(f, ws)
          && out.log == old(out.log) + Trace(f, data, Some(ws))
        case Broadcast(data) =>
          var f := Deliver(Recipients(order, old(t.allCons), ws), failing);
          && t.Snapshot() == AfterBroadcast(old(t.Snapshot()), f, sessID)
          && t.closed == old(t.closed) + BroadcastClosed(f)
          && out.log == old(out.log) + Trace(f, data, Some(ws))
        case Ignore =>
          t.Snapshot() == old(t.Snapshot()) && t.closed == old(t.closed) && out.log == old(out.log)
    {
      TagsDistinct();
      var msgType := msg[Tags.typeKey].text;
      var rest := msg - {Tags.typeKey};

      if msgType != "" && msgType == Tags.join {
        var roomName := rest[Tags.roomKey].text;
        t.AddToRoom(roomName, ws);
      }
      if msgType != "" && msgType == Tags.leave {
        var roomName := rest[Tags.roomKey].text;
        t.RemoveFromRoom(roomName, ws);
      }
      if msgType != "" && msgType == Tags.quit {
        t.Disconnect(sessID, ws);
      }
      if msgType != "" && msgType == Tags.multicast {
        var roomName := rest[Tags.roomKey].text;
        var data := rest - {Tags.roomKey};
        SendJsonTo(t, ws, sessID, roomName, data, failing);
      }
      if msgType != "" && msgType == Tags.broadcast {
        SendJson(t, ws, sessID, rest, order, failing);
      }
    }

    /** `sendJSON`: write `data` to every registered connection but `ws`, in
        the map's visiting order; at the first failed write, disconnect the
        failing connection under the sender's session id, report the error
        with the sender's connection and stop. */
    method SendJson(t: Tables, ws: Conn, sessID: SessionId, data: Payload, order: seq<SessionId>, failing: set<nat>)
      requires Listed(order, t.allCons)
      modifies out`log, t
      ensures var f := Deliver(Recipients(order, old(t.allCons), ws), failing);
        && t.Snapshot() == AfterBroadcast(old(t.Snapshot()), f, sessID)
        && t.closed == old(t.closed) + BroadcastClosed(f)
        && out.log == old(out.log) + Trace(f, data, Some(ws))
    {
      ghost var f := Deliver(Recipients(order, t.allCons, ws), failing);
      TraceLog(out.log, f, data, Some(ws));
      var failed := out.SendEach(Values(order, t.allCons), ws, data, failing);
      if failed.Some? {
        t.Disconnect(sessID, failed.value);
        out.log := out.log + [OnSendError(Some(ws), SendFailed(failed.value))];
      }
    }

    /** `sendJSONTo`: write `data` to the members of `roomName` other than
        `ws`, in list order; at the first failed write, disconnect the sender,
        report the error with the sender's connection and stop. */
    method SendJsonTo(t: Tables, ws: Conn, sessID: SessionId, roomName: RoomName, data: Payload, failing: set<nat>)
      modifies out`log, t
      ensures var f := Deliver(Without(Members(old(t.rooms), roomName), ws), failing);
        && t.Snapshot() == AfterMulticast(old(t.Snapshot()), f, sessID, ws)
        && t.closed == old(t.closed) + MulticastClosed(f, ws)
        && out.log == old(out.log) + Trace(f, data, Some(ws))
    {
      ghost var f := Deliver(Without(Members(t.rooms, roomName), ws), failing);
      TraceLog(out.log, f, data, Some(ws));
      var failed := out.SendEach(Members(t.rooms, roomName), ws, data, failing);
      if failed.Some? {
        t.Disconnect(sessID, ws);
        out.log := out.log + [OnSendError(Some(ws), SendFailed(failed.value))];
      }
    }
  }

  /** `New(events, configs...)`: start from the default configuration with
      `events` set, apply each configuration function in argument order to
      that one configuration, and return the server it describes. */
  method New(events: Sink, configs: seq<ConfigFunc>) returns (s: SocketServer)
    ensures fresh(s) && fresh(s.out) && s.out.log == []
    ensures s.Settings() == Applied(configs, Initial(events))
    ensures configs == [] ==> s.path == "/ws" && s.port == ":3000" && s.events == Some(events)
  {
    var config := DefaultConfig();
    config := config.(events := Some(events));
    var i := 0;
    while i < |configs|
      invariant 0 <= i <= |configs|
      invariant config == Applied(configs[..i], Initial(events))
    {
      assert configs[..i + 1][..i] == configs[..i];
      config := configs[i](config);
      i := i + 1;
    }
    assert configs[..i] == configs;
    s := new SocketServer.Of(config);
  }
}
