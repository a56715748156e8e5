/**
 The hub as the program keeps it: one object whose registry and room table
 are updated in place by the event loop. Each method is proved against the
 event semantics of module HubState.
 */
module HubRuntime {
  import opened HubState

  class Hub {
    /** The registered connections (a map to `true` in the program, a set here). */
    var clients: set<Conn>
    /** Room name to roster. */
    var rooms: map<RoomName, set<Conn>>

    /** The abstract state this object holds. */
    function Snapshot(): State
      reads this
    {
      State(clients, rooms)
    }

    /** A fresh hub: no clients and no rooms. */
    constructor ()
      ensures Snapshot() == Empty
    {
      clients := {};
      rooms := map[];
    }

    /** The register case of the event loop. */
    method Register(c: Conn)
      modifies this
      ensures Snapshot() == AfterRegister(old(Snapshot()), c)
    {
      clients := clients + {c};
    }

    /**
     Walks every room and deletes `c` from each roster that holds it; rooms
     left empty stay in the table.
     */
    method LeaveRoom(c: Conn)
      modifies this
      ensures clients == old(clients)
      ensures rooms == WithoutConn(old(rooms), c)
    {
      var pending := rooms.Keys;
      while pending != {}
        invariant pending <= rooms.Keys
        invariant clients == old(clients)
        invariant rooms.Keys == old(rooms).Keys
        invariant forall room :: room in rooms ==>
          rooms[room] == if room in pending then old(rooms)[room] else old(rooms)[room] - {c}
        decreases pending
      {
        var room :| room in pending;
        if c in rooms[room] {
          rooms := rooms[room := rooms[room] - {c}];
        }
        pending := pending - {room};
      }
    }

    /** The remove case of the event loop: unregister, then leave every room. */
    method Remove(c: Conn)
      modifies this
      ensures Snapshot() == AfterRemove(old(Snapshot()), c)
    {
      clients := clients - {c};
      LeaveRoom(c);
    }

    /** Creates the room's roster when it is missing, then adds `c` to it. */
    method JoinRoom(c: Conn, room: RoomName)
      modifies this
      ensures Snapshot() == AfterJoin(old(Snapshot()), c, room)
    {
      if room !in rooms {
        rooms := rooms[room := {}];
      }
      rooms := rooms[room := rooms[room] + {c}];
    }

    /**
     Writes `msg` to every member of its room's roster, the sender included;
     a missing room means nobody. Returns the connections written to.
     */
    method BroadcastToRoom(msg: Message) returns (sent: set<Conn>)
      ensures forall c :: c in sent <==> InRoster(Snapshot(), msg.room, c)
    {
      sent := {};
      if msg.room in rooms {
        var roster := rooms[msg.room];
        var pending := roster;
        while pending != {}
          invariant sent + pending == roster
          decreases pending
        {
          var c :| c in pending;
          sent := sent + {c};
          pending := pending - {c};
        }
      }
    }

    /**
     The event loop, fed a finite sequence of events and processing them one
     at a time. Returns, per event, the connections written to.
     */
    method Run(events: seq<Event>) returns (sent: seq<set<Conn>>)
      modifies this
      ensures Snapshot() == HubState.Run(old(Snapshot()), events)
      ensures sent == Sent(old(Snapshot()), events)
    {
      ghost var start := Snapshot();
      sent := [];
      var i := 0;
      while i < |events|
        invariant 0 <= i <= |events|
        invariant Snapshot() == HubState.Run(start, events[..i])
        invariant sent == Sent(start, events[..i])
      {
        ghost var before := Snapshot();
        var out: set<Conn> := {};
        match events[i] {
          case Register(c) =>
            Register(c);
          case Remove(c) =>
            Remove(c);
          case Join(c, room) =>
            JoinRoom(c, room);
          case Broadcast(msg) =>
            out := BroadcastToRoom(msg);
            assert out == Recipients(before, msg);
        }
        assert events[..i + 1][..i] == events[..i];
        sent := sent + [out];
        i := i + 1;
      }
      assert events[..i] == events;
    }
  }
}
