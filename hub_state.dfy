/**
 The abstract state of the bidding hub and the effect of each event on it.

 The hub owns two pieces of state: the set of registered connections and the
 table of rooms, each room holding a roster of connections. Every event the
 hub serialises (register, remove, join, broadcast) is a function from one
 state to the next; a broadcast additionally yields the set of connections
 the message is written to.
 */
module HubState {

  /** Identity of one websocket connection: opaque, compared only for equality. */
  type Conn = nat

  type RoomName = string

  datatype Option<T> = None | Some(value: T)

  /** A bid as posted by a client: the room it targets, the sender's display name and the price text. */
  datatype Message = Message(room: RoomName, name: string, price: string)

  /** The events the hub processes one at a time. */
  datatype Event =
    | Register(conn: Conn)
    | Remove(conn: Conn)
    | Join(conn: Conn, room: RoomName)
    | Broadcast(msg: Message)

  /** The registry of connections and the room table. */
  datatype State = State(clients: set<Conn>, rooms: map<RoomName, set<Conn>>)

  /** A hub that has just been created: no clients, no rooms. */
  const Empty: State := State({}, map[])

  /** Connection `c` is in the roster of room `room` (and the room exists). */
  predicate InRoster(s: State, room: RoomName, c: Conn)
  {
    room in s.rooms && c in s.rooms[room]
  }

  /** Every connection that sits in some roster is a registered client. */
  ghost predicate RostersRegistered(s: State)
  {
    forall room, c :: InRoster(s, room, c) ==> c in s.clients
  }

  /** A register event: the connection becomes a client; rooms are not touched. */
  function AfterRegister(s: State, c: Conn): (t: State)
    ensures c in t.clients
    ensures forall d :: d != c ==> (d in t.clients <==> d in s.clients)
    ensures t.rooms == s.rooms
  {
    State(s.clients + {c}, s.rooms)
  }

  /** The room table with `c` taken out of every roster; empty rosters stay. */
  function WithoutConn(rooms: map<RoomName, set<Conn>>, c: Conn): (r: map<RoomName, set<Conn>>)
    ensures r.Keys == rooms.Keys
    ensures forall room :: room in r ==> c !in r[room]
    ensures forall room, d :: room in r && d != c ==> (d in r[room] <==> d in rooms[room])
  {
    map room | room in rooms :: rooms[room] - {c}
  }

  /** A remove event: the connection stops being a client and leaves every room. */
  function AfterRemove(s: State, c: Conn): (t: State)
    ensures c !in t.clients
    ensures forall d :: d != c ==> (d in t.clients <==> d in s.clients)
    ensures forall room :: !InRoster(t, room, c)
    ensures t.rooms.Keys == s.rooms.Keys
    ensures forall room, d :: d != c ==> (InRoster(t, room, d) <==> InRoster(s, room, d))
  {
    State(s.clients - {c}, WithoutConn(s.rooms, c))
  }

  /** Joining a room: the room is created with an empty roster when missing, then `c` is added. */
  function AfterJoin(s: State, c: Conn, room: RoomName): (t: State)
    ensures t.clients == s.clients
    ensures InRoster(t, room, c)
    ensures t.rooms.Keys == s.rooms.Keys + {room}
    ensures forall other :: other in s.rooms && other != room ==> t.rooms[other] == s.rooms[other]
    ensures forall d :: d != c ==> (InRoster(t, room, d) <==> InRoster(s, room, d))
  {
    var roster := if room in s.rooms then s.rooms[room] else {};
    State(s.clients, s.rooms[room := roster + {c}])
  }

  /** The connections a broadcast writes to: the current roster of the message's room, or nobody. */
  function Recipients(s: State, msg: Message): (to: set<Conn>)
    ensures forall c :: c in to <==> InRoster(s, msg.room, c)
  {
    if msg.room in s.rooms then s.rooms[msg.room] else {}
  }

  /**
   The effect of one event on the state: the dispatch of the event loop. No
   event deletes a room; only the event's own connection changes registration;
   a broadcast changes nothing.
   */
  function Step(s: State, e: Event): (t: State)
    ensures s.rooms.Keys <= t.rooms.Keys
    ensures e.Broadcast? ==> t == s
    ensures !e.Broadcast? ==> forall d :: d != e.conn ==> (d in t.clients <==> d in s.clients)
    ensures e.Register? ==> e.conn in t.clients && t.rooms == s.rooms
    ensures e.Remove? ==> e.conn !in t.clients && forall room :: !InRoster(t, room, e.conn)
    ensures e.Join? ==> t.clients == s.clients && InRoster(t, e.room, e.conn)
  {
    match e
    case Register(c) => AfterRegister(s, c)
    case Remove(c) => AfterRemove(s, c)
    case Join(c, room) => AfterJoin(s, c, room)
    case Broadcast(_) => s
  }

  /** The connections written to while processing one event: only a broadcast writes. */
  function Output(s: State, e: Event): (to: set<Conn>)
    ensures !e.Broadcast? ==> to == {}
    ensures e.Broadcast? ==> forall c :: c in to <==> InRoster(s, e.msg.room, c)
  {
    if e.Broadcast? then Recipients(s, e.msg) else {}
  }

  /**
   The state after processing `evs` in order, starting from `s`. No room is
   ever deleted, and a connection is a client afterwards only if it was one
   before or some event of `evs` registered it.
   */
  function Run(s: State, evs: seq<Event>): (t: State)
    ensures s.rooms.Keys <= t.rooms.Keys
    ensures forall c :: c in t.clients ==> c in s.clients || Register(c) in evs
    decreases |evs|
  {
    if evs == [] then s
    else Step(Run(s, evs[..|evs| - 1]), evs[|evs| - 1])
  }

  /** For each event of `evs`, the connections written to while processing it. */
  function Sent(s: State, evs: seq<Event>): (out: seq<set<Conn>>)
    ensures |out| == |evs|
    decreases |evs|
  {
    if evs == [] then []
    else Sent(s, evs[..|evs| - 1]) + [Output(Run(s, evs[..|evs| - 1]), evs[|evs| - 1])]
  }

  /**
   Reference reading of the registry: the last register or remove event for
   `c` in `evs`, as Some(true) for a register and Some(false) for a remove,
   or None when `evs` has neither.
   */
  function LastMembership(evs: seq<Event>, c: Conn): Option<bool>
    decreases |evs|
  {
    if evs == [] then None
    else
      var e := evs[|evs| - 1];
      if e == Register(c) then Some(true)
      else if e == Remove(c) then Some(false)
      else LastMembership(evs[..|evs| - 1], c)
  }

  /**
   Reference reading of one roster: the last event in `evs` that puts `c` into
   room `room` (a join, Some(true)) or takes it out (a remove, Some(false)),
   or None when `evs` has neither.
   */
  function LastRosterChange(evs: seq<Event>, c: Conn, room: RoomName): Option<bool>
    decreases |evs|
  {
    if evs == [] then None
    else
      var e := evs[|evs| - 1];
      if e == Join(c, room) then Some(true)
      else if e == Remove(c) then Some(false)
      else LastRosterChange(evs[..|evs| - 1], c, room)
  }

  /** Some event of `evs` joins room `room`. */
  predicate JoinsRoom(evs: seq<Event>, room: RoomName)
  {
    exists i :: 0 <= i < |evs| && evs[i].Join? && evs[i].room == room
  }

  /** The events a connection handler submits over one connection's lifetime. */
  function Session(c: Conn, room: RoomName, name: string, prices: seq<string>): (evs: seq<Event>)
    ensures |evs| == |prices| + 3
    ensures evs[0] == Register(c) && evs[1] == Join(c, room) && evs[|evs| - 1] == Remove(c)
    ensures forall i :: 0 <= i < |prices| ==> evs[i + 2] == Broadcast(Message(room, name, prices[i]))
  {
    [Register(c), Join(c, room)] + Bids(room, name, prices) + [Remove(c)]
  }

  /** One broadcast event per price, in order. */
  function Bids(room: RoomName, name: string, prices: seq<string>): (evs: seq<Event>)
    ensures |evs| == |prices|
    ensures forall i :: 0 <= i < |prices| ==> evs[i] == Broadcast(Message(room, name, prices[i]))
  {
    seq(|prices|, i requires 0 <= i < |prices| => Broadcast(Message(room, name, prices[i])))
  }
}
