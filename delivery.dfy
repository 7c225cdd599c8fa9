/** What the two fan-out loops (`sendJSON`, `sendJSONTo`) of both variants do,
    stated on values. Which writes fail is given as a set `failing`: the
    `k`-th write attempted by one fan-out call fails iff `k in failing`. */
module Delivery {
  import opened Protocol
  import opened Registry

  /** Every key `order` visits is registered. */
  predicate Listed(order: seq<SessionId>, allCons: map<SessionId, Conn>)
  {
    forall i :: 0 <= i < |order| ==> order[i] in allCons
  }

  /** `order` visits every key of `allCons` exactly once: one possible order
      of a `range` over the Go map. */
  predicate IsEnumeration(order: seq<SessionId>, allCons: map<SessionId, Conn>)
  {
    && Listed(order, allCons)
    && (forall k :: k in allCons ==> k in order)
    && (forall i, j :: 0 <= i < j < |order| ==> order[i] != order[j])
  }

  /** The connections the range visits, in visiting order. */
  function Values(order: seq<SessionId>, allCons: map<SessionId, Conn>): (vs: seq<Conn>)
    requires Listed(order, allCons)
    ensures |vs| == |order|
    ensures forall i :: 0 <= i < |order| ==> vs[i] == allCons[order[i]]
  {
    if |order| == 0 then []
    else Values(order[..|order| - 1], allCons) + [allCons[order[|order| - 1]]]
  }

  lemma {:induction false} ValuesAppend(a: seq<SessionId>, b: seq<SessionId>, allCons: map<SessionId, Conn>)
    requires Listed(a + b, allCons)
    ensures Listed(a, allCons) && Listed(b, allCons)
    ensures Values(a + b, allCons) == Values(a, allCons) + Values(b, allCons)
  {
    assert forall i :: 0 <= i < |a| ==> a[i] == (a + b)[i];
    assert forall i :: 0 <= i < |b| ==> b[i] == (a + b)[|a| + i];
  }

  /** The connections a broadcast from `ws` writes to: the visited
      connections other than `ws`, compared by identity, in visiting order. */
  function Recipients(order: seq<SessionId>, allCons: map<SessionId, Conn>, ws: Conn): (r: seq<Conn>)
    requires Listed(order, allCons)
    ensures |r| <= |order|
    ensures ws !in r
  {
    Without(Values(order, allCons), ws)
  }

  /** A broadcast writes to exactly the connections some visited key maps to,
      the sender's excepted. */
  lemma {:induction false} BroadcastTargets(order: seq<SessionId>, allCons: map<SessionId, Conn>, ws: Conn)
    requires Listed(order, allCons)
    ensures ws !in Recipients(order, allCons, ws)
    ensures forall c :: c in Recipients(order, allCons, ws) <==>
      c != ws && exists i :: 0 <= i < |order| && allCons[order[i]] == c
  {
    var vs := Values(order, allCons);
    forall c | c in vs ensures exists i :: 0 <= i < |order| && allCons[order[i]] == c {
      var i :| 0 <= i < |vs| && vs[i] == c;
      assert allCons[order[i]] == c;
    }
  }

  /** Visiting the keys as `a` then `b` reaches `a`'s recipients first. */
  lemma RecipientsAppend(a: seq<SessionId>, b: seq<SessionId>, allCons: map<SessionId, Conn>, ws: Conn)
    requires Listed(a + b, allCons)
    ensures Listed(a, allCons) && Listed(b, allCons)
    ensures Recipients(a + b, allCons, ws) == Recipients(a, allCons, ws) + Recipients(b, allCons, ws)
  {
    ValuesAppend(a, b, allCons);
    WithoutAppend(Values(a, allCons), Values(b, allCons), ws);
  }

  /** Filtering the first `i + 1` entries of `xs` adds the `i`-th to the
      filtered first `i` unless it is `c`; in that case it is the entry of the
      whole filtered list right after them. */
  lemma WithoutStep(xs: seq<Conn>, c: Conn, i: nat)
    requires i < |xs|
    ensures var done := Without(xs[..i], c);
      && Without(xs[..i + 1], c) == done + (if xs[i] == c then [] else [xs[i]])
      && (xs[i] != c ==> |done| < |Without(xs, c)| && Without(xs, c)[..|done|] == done && Without(xs, c)[|done|] == xs[i])
  {
    var done := Without(xs[..i], c);
    var all := Without(xs, c);
    assert xs[..i + 1][..i] == xs[..i];
    assert xs == xs[..i + 1] + xs[i + 1..];
    WithoutAppend(xs[..i + 1], xs[i + 1..], c);
    if xs[i] != c {
      assert all == done + [xs[i]] + Without(xs[i + 1..], c);
    }
  }

  /** A full enumeration reaches every registered connection except the sender. */
  lemma {:induction false} RecipientsAreAllOthers(order: seq<SessionId>, allCons: map<SessionId, Conn>, ws: Conn)
    requires IsEnumeration(order, allCons)
    ensures forall c :: c in Recipients(order, allCons, ws) <==>
      c != ws && exists k :: k in allCons && allCons[k] == c
  {
    var r := Recipients(order, allCons, ws);
    BroadcastTargets(order, allCons, ws);
    forall c | c != ws && exists k :: k in allCons && allCons[k] == c
      ensures c in r
    {
      var k :| k in allCons && allCons[k] == c;
      var i :| 0 <= i < |order| && order[i] == k;
      assert allCons[order[i]] == c;
    }
  }

  /** The connections a multicast from `ws` to `room` writes to,
      `Without(Members(rooms, room), ws)`, are the room's members other than
      `ws`, each as often as the room lists it (repeated joins included). */
  lemma {:induction false} MulticastTargets(rooms: map<RoomName, seq<Conn>>, room: RoomName, ws: Conn)
    ensures var r := Without(Members(rooms, room), ws);
      && ws !in r
      && (forall c :: c in r <==> c in Members(rooms, room) && c != ws)
      && multiset(r) == multiset(Members(rooms, room))[ws := 0]
  {
    WithoutCount(Members(rooms, room), ws);
  }

  /** The number of the first failing attempt at or after `from`, or `n` when
      attempts `from` to `n - 1` all succeed. */
  function FirstFailure(n: nat, failing: set<nat>, from: nat): (k: nat)
    requires from <= n
    ensures from <= k <= n
    ensures forall j :: from <= j < k ==> j !in failing
    ensures k < n ==> k in failing
    decreases n - from
  {
    if from == n || from in failing then from else FirstFailure(n, failing, from + 1)
  }

  /** A success at attempt `k`, with no failure before it, pushes the first
      failure past `k`. */
  lemma FirstFailureStep(n: nat, failing: set<nat>, k: nat)
    requires k < n && k <= FirstFailure(n, failing, 0) && k !in failing
    ensures k + 1 <= FirstFailure(n, failing, 0)
  {
  }

  /** What one fan-out achieves: the connections sent to successfully, in
      order, and the connection whose send failed, if one did. */
  datatype Fanout = Fanout(delivered: seq<Conn>, failed: Option<Conn>)

  /** A fan-out over `targets` that stops at the first failed send. */
  function Deliver(targets: seq<Conn>, failing: set<nat>): (r: Fanout)
    ensures |r.delivered| <= |targets| && r.delivered == targets[..|r.delivered|]
    ensures r.failed.Some? <==> |r.delivered| < |targets|
    ensures r.failed.Some? ==> r.failed.value == targets[|r.delivered|]
  {
    var k := FirstFailure(|targets|, failing, 0);
    Fanout(targets[..k], if k < |targets| then Some(targets[k]) else None)
  }

  /** A fan-out delivers to a prefix of its targets, every attempt in it
      succeeding; it fails iff that prefix is not all of them, and then the
      failing target is the next one, whose attempt failed. */
  lemma DeliverShape(targets: seq<Conn>, failing: set<nat>)
    ensures var f := Deliver(targets, failing);
      && |f.delivered| <= |targets| && f.delivered == targets[..|f.delivered|]
      && (forall j :: 0 <= j < |f.delivered| ==> j !in failing)
      && (f.failed.None? <==> |f.delivered| == |targets|)
      && (f.failed.Some? ==> f.failed.value == targets[|f.delivered|] && |f.delivered| in failing)
  {
  }

  /** When the first `k` attempts succeed and attempt `k` fails, the fan-out
      delivers exactly to the first `k` targets and reports the next one. */
  lemma {:induction false} DeliverStopsAt(targets: seq<Conn>, failing: set<nat>, k: nat)
    requires k < |targets|
    requires k <= FirstFailure(|targets|, failing, 0)
    requires k in failing
    ensures Deliver(targets, failing) == Fanout(targets[..k], Some(targets[k]))
  {
  }

  /** When every attempt succeeds, every target receives the payload. */
  lemma {:induction false} DeliverAll(targets: seq<Conn>, failing: set<nat>)
    requires forall j :: 0 <= j < |targets| ==> j !in failing
    ensures Deliver(targets, failing) == Fanout(targets, None)
  {
  }

  /** An error reported by the transport: the failed send to `to`. */
  datatype SendError = SendFailed(to: Conn)

  /** The observable trace of a fan-out: the transport's deliveries and the
      callbacks of the server's event sink. */
  datatype Event =
    | Delivered(to: Conn, data: Payload)
    | OnSend(data: Payload)
    | OnSendError(sender: Option<Conn>, err: SendError)

  /** For each successful send, the delivery followed by its `OnSend`. */
  function Successes(cs: seq<Conn>, data: Payload): (r: seq<Event>)
    ensures |r| == 2 * |cs|
  {
    if |cs| == 0 then []
    else
      assert cs == cs[..|cs| - 1] + [cs[|cs| - 1]];
      Successes(cs[..|cs| - 1], data) + [Delivered(cs[|cs| - 1], data), OnSend(data)]
  }

  /** The `i`-th successful write puts its delivery at `2 * i` and its
      `OnSend` callback right after it. */
  lemma {:induction false} SuccessesContents(cs: seq<Conn>, data: Payload)
    ensures var r := Successes(cs, data);
      forall i :: 0 <= i < |cs| ==> r[2 * i] == Delivered(cs[i], data) && r[2 * i + 1] == OnSend(data)
  {
    if |cs| > 0 {
      var init := cs[..|cs| - 1];
      SuccessesContents(init, data);
      assert forall i :: 0 <= i < |init| ==> init[i] == cs[i];
    }
  }

  /** One more successful send extends the trace by its delivery and callback. */
  lemma SuccessesAppend(cs: seq<Conn>, c: Conn, data: Payload)
    ensures Successes(cs + [c], data) == Successes(cs, data) + [Delivered(c, data), OnSend(data)]
  {
    assert (cs + [c])[..|cs|] == cs;
  }

  /** A log that holds the earlier successes grows by one more success. */
  lemma LogStep(base: seq<Event>, done: seq<Conn>, c: Conn, data: Payload)
    ensures base + Successes(done, data) + [Delivered(c, data), OnSend(data)] == base + Successes(done + [c], data)
  {
    SuccessesAppend(done, c, data);
  }

  /** The whole trace of a fan-out; `sender` is what the error callback is
      given besides the error (nothing in one variant, the sender in the other). */
  function Trace(f: Fanout, data: Payload, sender: Option<Conn>): (r: seq<Event>)
    ensures |r| == 2 * |f.delivered| + (if f.failed.Some? then 1 else 0)
    ensures r[..2 * |f.delivered|] == Successes(f.delivered, data)
    ensures f.failed.Some? ==> r[|r| - 1] == OnSendError(sender, SendFailed(f.failed.value))
  {
    Successes(f.delivered, data) + (if f.failed.Some? then [OnSendError(sender, SendFailed(f.failed.value))] else [])
  }

  /** A log that holds a fan-out's successes, followed by its error callback
      when it failed, holds its whole trace. */
  lemma TraceLog(base: seq<Event>, f: Fanout, data: Payload, sender: Option<Conn>)
    ensures f.failed.None? ==> base + Successes(f.delivered, data) == base + Trace(f, data, sender)
    ensures f.failed.Some? ==>
      base + Successes(f.delivered, data) + [OnSendError(sender, SendFailed(f.failed.value))]
      == base + Trace(f, data, sender)
  {
  }

  /** What the process makes visible, in order: each write the transport
      performs and each callback the event sink receives. */
  class Outbox {
    ghost var log: seq<Event>

    constructor ()
      ensures log == []
    {
      log := [];
    }

    /** The loop both senders share: write `data` to each of `sockets` other
        than `ws`, in order, firing `OnSend` after each write, and stop at the
        first write that fails, which is returned. The `k`-th write attempted
        fails iff `k in failing`. */
    method SendEach(sockets: seq<Conn>, ws: Conn, data: Payload, failing: set<nat>) returns (failed: Option<Conn>)
      modifies this`log
      ensures var f := Deliver(Without(sockets, ws), failing);
        && failed == f.failed
        && log == old(log) + Successes(f.delivered, data)
    {
      ghost var targets := Without(sockets, ws);
      ghost var done: seq<Conn> := [];
      var attempt: nat := 0;
      var i := 0;
      while i < |sockets|
        invariant 0 <= i <= |sockets|
        invariant done == Without(sockets[..i], ws) && attempt == |done|
        invariant attempt <= FirstFailure(|targets|, failing, 0)
        invariant log == old(log) + Successes(done, data)
      {
        WithoutStep(sockets, ws, i);
        var socket := sockets[i];
        if socket != ws {
          var sent := attempt !in failing;
          if !sent {
            DeliverStopsAt(targets, failing, attempt);
            return Some(socket);
          }
          FirstFailureStep(|targets|, failing, attempt);
          LogStep(old(log), done, socket, data);
          log := log + [Delivered(socket, data), OnSend(data)];
          done := done + [socket];
          attempt := attempt + 1;
        }
        i := i + 1;
      }
      assert sockets[..i] == sockets;
      DeliverAll(targets, failing);
      return None;
    }
  }

  /** A broadcast's failure path calls `disconnect(sessID, socket)` with the
      sender's session id and the failing recipient's connection. */
  function AfterBroadcast(s: State, f: Fanout, sessID: SessionId): (r: State)
    ensures f.failed.None? ==> r == s
    ensures f.failed.Some? ==>
      && sessID !in r.allCons && f.failed.value !in r.connToRoom
      && r.allCons.Keys == s.allCons.Keys - {sessID}
  {
    match f.failed
    case None => s
    case Some(c) => Disconnected(s, sessID, c)
  }

  /** A multicast's failure path calls `disconnect(sessID, ws)`: the sender. */
  function AfterMulticast(s: State, f: Fanout, sessID: SessionId, ws: Conn): (r: State)
    ensures f.failed.None? ==> r == s
    ensures f.failed.Some? ==>
      && sessID !in r.allCons && ws !in r.connToRoom
      && r.allCons.Keys == s.allCons.Keys - {sessID}
  {
    if f.failed.Some? then Disconnected(s, sessID, ws) else s
  }

  /** The connection a fan-out's failure path closes, if any. */
  function BroadcastClosed(f: Fanout): (closed: set<Conn>)
  {
    if f.failed.Some? then {f.failed.value} else {}
  }

  function MulticastClosed(f: Fanout, ws: Conn): (closed: set<Conn>)
  {
    if f.failed.Some? then {ws} else {}
  }

  /** A broadcast in which every send succeeds reaches every registered
      connection other than the sender, and changes no table. */
  lemma BroadcastReachesAllOthers(s: State, order: seq<SessionId>, ws: Conn, sessID: SessionId, failing: set<nat>)
    requires IsEnumeration(order, s.allCons)
    requires forall j :: 0 <= j < |s.allCons| ==> j !in failing
    ensures var f := Deliver(Recipients(order, s.allCons, ws), failing);
      && f.failed.None?
      && ws !in f.delivered
      && (forall k :: k in s.allCons && s.allCons[k] != ws ==> s.allCons[k] in f.delivered)
      && AfterBroadcast(s, f, sessID) == s
  {
    var targets := Recipients(order, s.allCons, ws);
    assert |order| == |s.allCons| by { EnumerationSize(order, s.allCons); }
    DeliverAll(targets, failing);
    RecipientsAreAllOthers(order, s.allCons, ws);
  }

  /** An enumeration has as many entries as the map has keys. */
  lemma {:induction false} EnumerationSize(order: seq<SessionId>, allCons: map<SessionId, Conn>)
    requires IsEnumeration(order, allCons)
    ensures |order| == |allCons|
  {
    var keys := set i | 0 <= i < |order| :: order[i];
    assert keys == allCons.Keys;
    DistinctSize(order);
  }

  lemma {:induction false} DistinctSize(order: seq<SessionId>)
    requires forall i, j :: 0 <= i < j < |order| ==> order[i] != order[j]
    ensures |set i | 0 <= i < |order| :: order[i]| == |order|
  {
    if |order| > 0 {
      var init := order[..|order| - 1];
      DistinctSize(init);
      var last := order[|order| - 1];
      var all := set i | 0 <= i < |order| :: order[i];
      var front := set i | 0 <= i < |init| :: init[i];
      assert all == front + {last};
      assert last !in front;
    }
  }

  /** A failed broadcast send evicts the sender's registry entry and the
      failing recipient's room membership, and nothing else; the sends after
      the failure never happen. */
  lemma BroadcastFailureEvicts(s: State, targets: seq<Conn>, failing: set<nat>, sessID: SessionId)
    requires Deliver(targets, failing).failed.Some?
    ensures var f := Deliver(targets, failing);
      var c := f.failed.value;
      var r := AfterBroadcast(s, f, sessID);
      && |f.delivered| < |targets| && c == targets[|f.delivered|]
      && sessID !in r.allCons
      && c !in r.connToRoom
      && (c in s.connToRoom ==> c !in r.rooms[s.connToRoom[c]])
      && r.allCons == s.allCons - {sessID}
  {
  }

  /** A failed multicast send disconnects the sender; the failing recipient
      keeps its registry entries, its reverse entry and its room memberships. */
  lemma MulticastFailureEvictsSender(s: State, targets: seq<Conn>, failing: set<nat>, sessID: SessionId, ws: Conn)
    requires ws !in targets
    requires Deliver(targets, failing).failed.Some?
    ensures var f := Deliver(targets, failing);
      var c := f.failed.value;
      var r := AfterMulticast(s, f, sessID, ws);
      && c != ws
      && ws !in r.connToRoom && sessID !in r.allCons
      && (forall k :: k in s.allCons && k != sessID ==> k in r.allCons && r.allCons[k] == s.allCons[k])
      && (c in s.connToRoom ==> c in r.connToRoom && r.connToRoom[c] == s.connToRoom[c])
      && (forall room :: room in s.rooms ==> multiset(r.rooms[room])[c] == multiset(s.rooms[room])[c])
  {
    var f := Deliver(targets, failing);
    var c := f.failed.value;
    assert c in targets;
    if ws in s.connToRoom {
      var home := s.connToRoom[ws];
      forall room | room in s.rooms
        ensures multiset(AfterMulticast(s, f, sessID, ws).rooms[room])[c] == multiset(s.rooms[room])[c]
      {
        if room == home {
          assert Members(s.rooms, home) == s.rooms[home];
        }
      }
    }
  }

  /** Filtering a list that holds nothing but `c` leaves it empty. */
  lemma {:induction false} WithoutOnly(xs: seq<Conn>, c: Conn)
    requires forall x :: x in xs ==> x == c
    ensures Without(xs, c) == []
  {
    if |xs| > 0 {
      var init := xs[..|xs| - 1];
      assert forall x :: x in init ==> x in xs;
      assert xs[|xs| - 1] in xs;
      WithoutOnly(init, c);
    }
  }

  /** A multicast from a connection alone in its room (possibly listed more
      than once) sends nothing and changes nothing. */
  lemma LoneSenderMulticast(s: State, room: RoomName, ws: Conn, sessID: SessionId, failing: set<nat>)
    requires forall c :: c in Members(s.rooms, room) ==> c == ws
    ensures var f := Deliver(Without(Members(s.rooms, room), ws), failing);
      && f == Fanout([], None)
      && AfterMulticast(s, f, sessID, ws) == s
  {
    WithoutOnly(Members(s.rooms, room), ws);
  }
}
