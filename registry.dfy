/** The three process-wide tables of the server package (`allCons`, `rooms`,
    `connToRoom`) and the package functions that edit them: the registration in
    the handlers, `addToRoom`, `removeFromRoom` and `disconnect`. Both variants
    declare these with the same text; each variant has its own tables. */
module Registry {
  import opened Protocol
  import Cookie

  /** `xs` with every occurrence of `c` dropped and the rest kept in order. */
  function Without(xs: seq<Conn>, c: Conn): (r: seq<Conn>)
    ensures forall x :: x in r <==> x in xs && x != c
    ensures |r| <= |xs|
  {
    if |xs| == 0 then []
    else
      assert xs == xs[..|xs| - 1] + [xs[|xs| - 1]];
      Without(xs[..|xs| - 1], c) + (if xs[|xs| - 1] == c then [] else [xs[|xs| - 1]])
  }

  /** Filtering out a connection that is not listed changes nothing. */
  lemma {:induction false} WithoutAbsent(xs: seq<Conn>, c: Conn)
    requires c !in xs
    ensures Without(xs, c) == xs
  {
    if |xs| > 0 {
      WithoutAbsent(xs[..|xs| - 1], c);
      assert xs == xs[..|xs| - 1] + [xs[|xs| - 1]];
    }
  }

  /** Filtering works piecewise, so the survivors keep their relative order. */
  lemma {:induction false} WithoutAppend(a: seq<Conn>, b: seq<Conn>, c: Conn)
    ensures Without(a + b, c) == Without(a, c) + Without(b, c)
  {
    if |b| == 0 {
      assert a + b == a;
    } else {
      var b' := b[..|b| - 1];
      assert (a + b)[..|a + b| - 1] == a + b';
      assert (a + b)[|a + b| - 1] == b[|b| - 1];
      WithoutAppend(a, b', c);
    }
  }

  /** Filtering removes every copy of `c` and no copy of anything else. */
  lemma {:induction false} WithoutCount(xs: seq<Conn>, c: Conn)
    ensures multiset(Without(xs, c)) == multiset(xs)[c := 0]
  {
    if |xs| > 0 {
      var init := xs[..|xs| - 1];
      var last := xs[|xs| - 1];
      WithoutCount(init, c);
      assert xs == init + [last];
      assert multiset(xs) == multiset(init) + multiset{last};
      assert Without(xs, c) == Without(init, c) + (if last == c then [] else [last]);
    }
  }

  /** A snapshot of the three tables. */
  datatype State = State(
    allCons: map<SessionId, Conn>,
    rooms: map<RoomName, seq<Conn>>,
    connToRoom: map<Conn, RoomName>)

  /** `rooms[room]` as Go reads it: a missing room reads as the empty (nil) slice. */
  function Members(rooms: map<RoomName, seq<Conn>>, room: RoomName): (members: seq<Conn>)
  {
    if room in rooms then rooms[room] else []
  }

  /** The tables after `addToRoom(room, ws)`. */
  function Joined(s: State, room: RoomName, ws: Conn): (r: State)
    ensures r.allCons == s.allCons
    ensures r.connToRoom.Keys == s.connToRoom.Keys + {ws} && r.connToRoom[ws] == room
    ensures forall c :: c in s.connToRoom && c != ws ==> r.connToRoom[c] == s.connToRoom[c]
    ensures r.rooms.Keys == s.rooms.Keys + {room}
    ensures room !in s.rooms ==> r.rooms[room] == [ws]
    ensures room in s.rooms ==> r.rooms[room] == s.rooms[room] + [ws]
    ensures multiset(r.rooms[room])[ws] == multiset(Members(s.rooms, room))[ws] + 1
    ensures forall other :: other in s.rooms && other != room ==> r.rooms[other] == s.rooms[other]
  {
    State(s.allCons, s.rooms[room := Members(s.rooms, room) + [ws]], s.connToRoom[ws := room])
  }

  /** The tables after `removeFromRoom(room, ws)`. */
  function Left(s: State, room: RoomName, ws: Conn): (r: State)
    ensures r.allCons == s.allCons
    ensures r.connToRoom.Keys == s.connToRoom.Keys - {ws}
    ensures forall c :: c in r.connToRoom ==> r.connToRoom[c] == s.connToRoom[c]
    ensures r.rooms.Keys == s.rooms.Keys + {room}
    ensures r.rooms[room] == Without(Members(s.rooms, room), ws)
    ensures multiset(r.rooms[room]) == multiset(Members(s.rooms, room))[ws := 0]
    ensures forall other :: other in s.rooms && other != room ==> r.rooms[other] == s.rooms[other]
  {
    WithoutCount(Members(s.rooms, room), ws);
    s.(rooms := s.rooms[room := Without(Members(s.rooms, room), ws)],
       connToRoom := s.connToRoom - {ws})
  }

  /** The tables after `disconnect(sessID, ws)`: `ws` leaves the room the
      reverse map names (if any), loses its reverse entry, and the registry
      entry of `sessID` is deleted, whichever connection it held. */
  function Disconnected(s: State, sessID: SessionId, ws: Conn): (r: State)
    ensures ws !in r.connToRoom
    ensures r.connToRoom.Keys == s.connToRoom.Keys - {ws}
    ensures forall c :: c in r.connToRoom ==> r.connToRoom[c] == s.connToRoom[c]
    ensures r.allCons.Keys == s.allCons.Keys - {sessID}
    ensures forall k :: k in r.allCons ==> r.allCons[k] == s.allCons[k]
    ensures ws in s.connToRoom ==>
      var room := s.connToRoom[ws];
      && r.rooms.Keys == s.rooms.Keys + {room}
      && ws !in r.rooms[room]
      && multiset(r.rooms[room]) == multiset(Members(s.rooms, room))[ws := 0]
    ensures ws !in s.connToRoom ==> r.rooms == s.rooms
    ensures forall other :: other in s.rooms && (ws in s.connToRoom ==> other != s.connToRoom[ws]) ==>
      r.rooms[other] == s.rooms[other]
  {
    var s1 := if ws in s.connToRoom then Left(s, s.connToRoom[ws], ws) else s;
    s1.(allCons := s1.allCons - {sessID}, connToRoom := s1.connToRoom - {ws})
  }

  /** A second `disconnect(sessID, ws)` changes none of the tables. */
  lemma DisconnectIdempotent(s: State, sessID: SessionId, ws: Conn)
    ensures Disconnected(Disconnected(s, sessID, ws), sessID, ws) == Disconnected(s, sessID, ws)
  {
    var once := Disconnected(s, sessID, ws);
    var twice := Disconnected(once, sessID, ws);
    assert twice.rooms == once.rooms;
    assert twice.allCons == once.allCons;
    assert twice.connToRoom == once.connToRoom;
  }

  /** Joining a second room leaves `ws` listed in the first while the reverse
      map names only the second; a later disconnect then cleans up only the
      second, so the first keeps a stale entry for `ws`. */
  lemma JoinDoesNotLeavePreviousRoom(s: State, first: RoomName, second: RoomName, sessID: SessionId, ws: Conn)
    requires first != second
    ensures var joined := Joined(Joined(s, first, ws), second, ws);
      && joined.connToRoom[ws] == second
      && ws in joined.rooms[first]
      && ws in Disconnected(joined, sessID, ws).rooms[first]
  {
    var once := Joined(s, first, ws);
    var joined := Joined(once, second, ws);
    assert ws in once.rooms[first];
    assert joined.rooms[first] == once.rooms[first];
  }

  /** Filtering twice is filtering once. */
  lemma WithoutTwice(xs: seq<Conn>, c: Conn)
    ensures Without(Without(xs, c), c) == Without(xs, c)
  {
    WithoutAbsent(Without(xs, c), c);
  }

  /** A second `removeFromRoom(room, ws)` changes none of the tables. */
  lemma LeaveIdempotent(s: State, room: RoomName, ws: Conn)
    ensures Left(Left(s, room, ws), room, ws) == Left(s, room, ws)
  {
    var once := Left(s, room, ws);
    WithoutTwice(Members(s.rooms, room), ws);
    assert Members(once.rooms, room) == once.rooms[room];
    assert Left(once, room, ws).rooms == once.rooms;
  }

  /** Leaving the room just joined gives the room back its old list with
      every copy of `ws` dropped (so earlier duplicates go too), and drops the
      reverse entry of `ws`. */
  lemma LeaveUndoesJoin(s: State, room: RoomName, ws: Conn)
    ensures var r := Left(Joined(s, room, ws), room, ws);
      && r.rooms[room] == Without(Members(s.rooms, room), ws)
      && r.connToRoom == s.connToRoom - {ws}
      && r.allCons == s.allCons
  {
    var joined := Joined(s, room, ws);
    WithoutAppend(Members(s.rooms, room), [ws], ws);
    assert Members(joined.rooms, room) == Members(s.rooms, room) + [ws];
    assert Without([ws], ws) == [];
  }

  /** The tables themselves, updated in place. A connection that was closed
      (`ws.Close()`) is recorded in the ghost set `closed`. */
  class Tables {
    var allCons: map<SessionId, Conn>
    var rooms: map<RoomName, seq<Conn>>
    var connToRoom: map<Conn, RoomName>
    ghost var closed: set<Conn>

    /** The three `make(map...)` initialisers. */
    constructor ()
      ensures Snapshot() == State(map[], map[], map[]) && closed == {}
    {
      allCons, rooms, connToRoom := map[], map[], map[];
      closed := {};
    }

    function Snapshot(): (s: State)
      reads this
    {
      State(allCons, rooms, connToRoom)
    }

    /** The start of the handler: take the session id from the `Cookie` header
        and register `ws` under it (`allCons[sessID] = ws`), silently replacing
        an earlier entry. A header without `=` makes the handler panic before
        anything is registered; that outcome is `None`. */
    method Accept(header: string, ws: Conn) returns (sessID: Option<SessionId>)
      modifies this
      ensures sessID == Cookie.SessionIdOf(header)
      ensures sessID.Some? ==> allCons == old(allCons)[sessID.value := ws]
      ensures sessID.None? ==> allCons == old(allCons)
      ensures rooms == old(rooms) && connToRoom == old(connToRoom) && closed == old(closed)
    {
      var parts := Cookie.Split(header, '=');
      if |parts| < 2 {
        return None;
      }
      sessID := Some(parts[1]);
      allCons := allCons[parts[1] := ws];
    }

    /** `addToRoom(roomName, ws)`. */
    method AddToRoom(roomName: RoomName, ws: Conn)
      modifies this
      ensures Snapshot() == Joined(old(Snapshot()), roomName, ws)
      ensures closed == old(closed)
    {
      connToRoom := connToRoom[ws := roomName];
      var present := roomName in rooms;
      if !present {
        rooms := rooms[roomName := [ws]];
      }
      if present {
        rooms := rooms[roomName := rooms[roomName] + [ws]];
      }
    }

    /** `removeFromRoom(roomName, ws)`: rebuilds the room's list without `ws`
        and deletes the reverse entry of `ws` whatever room it named. */
    method RemoveFromRoom(roomName: RoomName, ws: Conn)
      modifies this
      ensures Snapshot() == Left(old(Snapshot()), roomName, ws)
      ensures closed == old(closed)
    {
      var sockets := Members(rooms, roomName);
      var newSockets: seq<Conn> := [];
      var i := 0;
      while i < |sockets|
        invariant 0 <= i <= |sockets|
        invariant newSockets == Without(sockets[..i], ws)
      {
        assert sockets[..i + 1][..i] == sockets[..i];
        assert Without(sockets[..i + 1], ws) == newSockets + (if sockets[i] == ws then [] else [sockets[i]]);
        if sockets[i] != ws {
          newSockets := newSockets + [sockets[i]];
        }
        i := i + 1;
      }
      assert sockets[..i] == sockets;
      ghost var before := Snapshot();
      rooms := rooms[roomName := newSockets];
      connToRoom := connToRoom - {ws};
      assert Snapshot() == before.(rooms := before.rooms[roomName := newSockets], connToRoom := before.connToRoom - {ws});
    }

    /** `disconnect(sessID, ws)`. */
    method Disconnect(sessID: SessionId, ws: Conn)
      modifies this
      ensures Snapshot() == Disconnected(old(Snapshot()), sessID, ws)
      ensures closed == old(closed) + {ws}
    {
      var present := ws in connToRoom;
      if present {
        var room := connToRoom[ws];
        RemoveFromRoom(room, ws);
        connToRoom := connToRoom - {ws};
      }
      allCons := allCons - {sessID};
      closed := closed + {ws};
    }
  }
}
