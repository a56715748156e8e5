/**
 Properties of the hub's event semantics: what one event does and does not
 change, idempotence of remove and join, and what holds after processing any
 sequence of events.
 */
module HubProperties {
  import opened HubState

  /** A broadcast reads the state and changes nothing; it writes to nobody when the room is missing. */
  lemma BroadcastKeepsState(s: State, msg: Message)
    ensures Step(s, Broadcast(msg)) == s
    ensures msg.room !in s.rooms ==> Output(s, Broadcast(msg)) == {}
    ensures msg.room in s.rooms ==> Output(s, Broadcast(msg)) == s.rooms[msg.room]
  {
  }

  /** Self-echo: a member of the target room receives its own bid. */
  lemma SelfEcho(s: State, sender: Conn, msg: Message)
    requires InRoster(s, msg.room, sender)
    ensures sender in Output(s, Broadcast(msg))
  {
  }

  /** Removing a connection twice leaves the same state as removing it once. */
  lemma RemoveIdempotent(s: State, c: Conn)
    ensures AfterRemove(AfterRemove(s, c), c) == AfterRemove(s, c)
  {
    var once := AfterRemove(s, c);
    forall room | room in once.rooms
      ensures WithoutConn(once.rooms, c)[room] == once.rooms[room]
    {
      assert c !in once.rooms[room];
    }
    assert WithoutConn(once.rooms, c) == once.rooms;
  }

  /** Removing a connection that is neither registered nor in any roster changes nothing. */
  lemma RemoveUnregisteredIsNoop(s: State, c: Conn)
    requires RostersRegistered(s)
    requires c !in s.clients
    ensures AfterRemove(s, c) == s
  {
    forall room | room in s.rooms
      ensures WithoutConn(s.rooms, c)[room] == s.rooms[room]
    {
      assert !InRoster(s, room, c);
    }
    assert WithoutConn(s.rooms, c) == s.rooms;
  }

  /** Joining a room twice leaves the same state as joining it once. */
  lemma JoinIdempotent(s: State, c: Conn, room: RoomName)
    ensures AfterJoin(AfterJoin(s, c, room), c, room) == AfterJoin(s, c, room)
  {
    var once := AfterJoin(s, c, room);
    assert once.rooms[room] + {c} == once.rooms[room];
  }

  /** One event keeps every roster member registered, provided a join names a registered connection. */
  lemma StepKeepsRostersRegistered(s: State, e: Event)
    requires RostersRegistered(s)
    requires e.Join? ==> e.conn in s.clients
    ensures RostersRegistered(Step(s, e))
  {
    var t := Step(s, e);
    forall room, c | InRoster(t, room, c)
      ensures c in t.clients
    {
      match e
      case Register(d) =>
        assert InRoster(s, room, c);
      case Remove(d) =>
        assert c != d && InRoster(s, room, c);
      case Join(d, r) =>
        if c != d {
          assert InRoster(s, room, c);
        }
      case Broadcast(_) =>
    }
  }

  /** Taking the last event off a non-empty sequence. */
  lemma RunLast(s: State, evs: seq<Event>)
    requires evs != []
    ensures Run(s, evs) == Step(Run(s, evs[..|evs| - 1]), evs[|evs| - 1])
    ensures Sent(s, evs) == Sent(s, evs[..|evs| - 1]) + [Output(Run(s, evs[..|evs| - 1]), evs[|evs| - 1])]
  {
  }

  /**
   After any sequence of events, a connection is a client exactly when its
   last register/remove event was a register (or, with neither, when it was a
   client to begin with). Broadcasts and joins in between play no part.
   */
  lemma {:induction false} RunClients(s: State, evs: seq<Event>, c: Conn)
    ensures c in Run(s, evs).clients <==>
      match LastMembership(evs, c)
      case Some(registered) => registered
      case None => c in s.clients
    decreases |evs|
  {
    if evs != [] {
      RunClients(s, evs[..|evs| - 1], c);
    }
  }

  /**
   After any sequence of events, a connection is in a room's roster exactly
   when its last join of that room came after its last remove (or, with
   neither, when it was there to begin with). In particular a removed
   connection is in no roster until it joins again.
   */
  lemma {:induction false} RunRosters(s: State, evs: seq<Event>, c: Conn, room: RoomName)
    ensures InRoster(Run(s, evs), room, c) <==>
      match LastRosterChange(evs, c, room)
      case Some(joined) => joined
      case None => InRoster(s, room, c)
    decreases |evs|
  {
    if evs != [] {
      var init := evs[..|evs| - 1];
      RunRosters(s, init, c, room);
      var before := Run(s, init);
      match evs[|evs| - 1]
      case Register(d) =>
      case Remove(d) =>
      case Join(d, r) =>
        if d == c && r != room {
          assert InRoster(Run(s, evs), room, c) == InRoster(before, room, c);
        }
      case Broadcast(_) =>
    }
  }

  /** Rooms are never deleted: a room exists after `evs` exactly when it existed before or some event joined it. */
  lemma {:induction false} RunRoomNames(s: State, evs: seq<Event>, room: RoomName)
    ensures room in Run(s, evs).rooms <==> room in s.rooms || JoinsRoom(evs, room)
    decreases |evs|
  {
    if evs != [] {
      var init := evs[..|evs| - 1];
      var last := evs[|evs| - 1];
      RunRoomNames(s, init, room);
      if JoinsRoom(init, room) {
        var i :| 0 <= i < |init| && init[i].Join? && init[i].room == room;
        assert evs[i] == init[i];
      }
      if JoinsRoom(evs, room) {
        var i :| 0 <= i < |evs| && evs[i].Join? && evs[i].room == room;
        if i < |init| {
          assert init[i] == evs[i];
        }
      }
      if last.Join? && last.room == room {
        assert evs[|evs| - 1] == last;
      }
    }
  }

  /**
   Every event's output is fixed by the state at the moment it is processed:
   a broadcast writes to exactly the roster of its room at that moment, every
   other event writes to nobody.
   */
  lemma {:induction false} SentAt(s: State, evs: seq<Event>, i: nat)
    requires i < |evs|
    ensures Sent(s, evs)[i] == Output(Run(s, evs[..i]), evs[i])
    decreases |evs|
  {
    var init := evs[..|evs| - 1];
    if i < |init| {
      SentAt(s, init, i);
      assert init[..i] == evs[..i];
    } else {
      assert init == evs[..i];
    }
  }

  /**
   No retroactive delivery: the bid at position `i` reaches `c` exactly when
   `c` sits in the room's roster after the events before it, that is when
   its last join of the room is later than its last remove.
   */
  lemma DeliveredExactlyToRoster(s: State, evs: seq<Event>, i: nat, c: Conn)
    requires i < |evs| && evs[i].Broadcast?
    ensures c in Sent(s, evs)[i] <==>
      match LastRosterChange(evs[..i], c, evs[i].msg.room)
      case Some(joined) => joined
      case None => InRoster(s, evs[i].msg.room, c)
  {
    SentAt(s, evs, i);
    RunRosters(s, evs[..i], c, evs[i].msg.room);
  }

  /** Joins of registered connections keep every roster member registered along a whole run. */
  lemma {:induction false} RunKeepsRostersRegistered(s: State, evs: seq<Event>)
    requires RostersRegistered(s)
    requires forall i :: 0 <= i < |evs| && evs[i].Join? ==> evs[i].conn in Run(s, evs[..i]).clients
    ensures RostersRegistered(Run(s, evs))
    decreases |evs|
  {
    if evs != [] {
      var init := evs[..|evs| - 1];
      forall i | 0 <= i < |init| && init[i].Join?
        ensures init[i].conn in Run(s, init[..i]).clients
      {
        assert init[i] == evs[i] && init[..i] == evs[..i];
      }
      RunKeepsRostersRegistered(s, init);
      assert init == evs[..|evs| - 1];
      StepKeepsRostersRegistered(Run(s, init), evs[|evs| - 1]);
    }
  }

  /** Dropping the last event of `a + b` drops the last event of `b`. */
  lemma AppendInit(a: seq<Event>, b: seq<Event>)
    requires b != []
    ensures (a + b)[..|a + b| - 1] == a + b[..|b| - 1]
    ensures (a + b)[|a + b| - 1] == b[|b| - 1]
  {
  }

  /** Processing `a` then `b` is processing `a + b`. */
  lemma {:induction false} RunAppend(s: State, a: seq<Event>, b: seq<Event>)
    ensures Run(s, a + b) == Run(Run(s, a), b)
    decreases |b|
  {
    if b == [] {
      assert a + b == a;
    } else {
      RunAppend(s, a, b[..|b| - 1]);
      AppendInit(a, b);
    }
  }

  /** The outputs of `a + b` are those of `a` followed by those of `b` from the state `a` leaves. */
  lemma {:induction false} SentAppend(s: State, a: seq<Event>, b: seq<Event>)
    ensures Sent(s, a + b) == Sent(s, a) + Sent(Run(s, a), b)
    decreases |b|
  {
    if b == [] {
      assert a + b == a;
    } else {
      var binit := b[..|b| - 1];
      SentAppend(s, a, binit);
      RunAppend(s, a, binit);
      AppendInit(a, b);
      RunLast(s, a + b);
      RunLast(Run(s, a), b);
    }
  }

  /** A run of broadcasts changes nothing, and each writes to the roster of its room in the unchanged state. */
  lemma {:induction false} BroadcastsKeepState(s: State, evs: seq<Event>)
    requires forall i :: 0 <= i < |evs| ==> evs[i].Broadcast?
    ensures Run(s, evs) == s
    ensures forall i :: 0 <= i < |evs| ==> Sent(s, evs)[i] == Recipients(s, evs[i].msg)
    decreases |evs|
  {
    if evs != [] {
      var init := evs[..|evs| - 1];
      BroadcastsKeepState(s, init);
      forall i | 0 <= i < |evs|
        ensures Sent(s, evs)[i] == Recipients(s, evs[i].msg)
      {
        if i < |init| {
          assert init[i] == evs[i];
        }
      }
    }
  }

  /** The first two events of a session: register, then join. */
  lemma OpenSession(s: State, c: Conn, room: RoomName)
    ensures Run(s, [Register(c), Join(c, room)]) == AfterJoin(AfterRegister(s, c), c, room)
  {
    var start := [Register(c), Join(c, room)];
    RunLast(s, start);
    assert start[..1] == [Register(c)];
    RunLast(s, [Register(c)]);
    assert [Register(c)][..0] == [];
  }

  /**
   One connection's whole lifetime as its handler submits it: register, join,
   one broadcast per bid, remove. At the end the connection is neither a
   client nor in any roster, and everybody else's membership is as it was.
   */
  lemma SessionLifecycle(s: State, c: Conn, room: RoomName, name: string, prices: seq<string>)
    ensures var t := Run(s, Session(c, room, name, prices));
      && c !in t.clients
      && (forall d :: d != c ==> (d in t.clients <==> d in s.clients))
      && (forall r :: !InRoster(t, r, c))
      && (forall r, d :: d != c ==> (InRoster(t, r, d) <==> InRoster(s, r, d)))
  {
    var start := [Register(c), Join(c, room)];
    var bids := Bids(room, name, prices);
    var stop := [Remove(c)];
    assert Session(c, room, name, prices) == (start + bids) + stop;
    var joined := AfterJoin(AfterRegister(s, c), c, room);
    OpenSession(s, c, room);
    RunAppend(s, start, bids);
    BroadcastsKeepState(joined, bids);
    RunAppend(s, start + bids, stop);
    RunLast(joined, stop);
    assert stop[..0] == [];
    var t := AfterRemove(joined, c);
    assert Run(s, Session(c, room, name, prices)) == t;
    forall r, d | d != c
      ensures InRoster(t, r, d) <==> InRoster(s, r, d)
    {
      if r != room && r in s.rooms {
        assert joined.rooms[r] == s.rooms[r];
      }
    }
  }

  /**
   Every bid of a session reaches the room's roster as it stood right after
   the join, so the sender receives its own bids (self-echo).
   */
  lemma SessionDeliveries(s: State, c: Conn, room: RoomName, name: string, prices: seq<string>)
    ensures forall i :: 0 <= i < |prices| ==>
      Sent(s, Session(c, room, name, prices))[i + 2] == Recipients(AfterJoin(AfterRegister(s, c), c, room), Message(room, name, prices[i]))
    ensures forall k :: 2 <= k < |prices| + 2 ==> c in Sent(s, Session(c, room, name, prices))[k]
  {
    var start := [Register(c), Join(c, room)];
    var bids := Bids(room, name, prices);
    var stop := [Remove(c)];
    var evs := Session(c, room, name, prices);
    assert evs == (start + bids) + stop;
    var joined := AfterJoin(AfterRegister(s, c), c, room);
    OpenSession(s, c, room);
    SentAppend(s, start + bids, stop);
    SentAppend(s, start, bids);
    BroadcastsKeepState(joined, bids);
    forall i | 0 <= i < |prices|
      ensures Sent(s, evs)[i + 2] == Recipients(joined, Message(room, name, prices[i]))
    {
      assert Sent(s, evs)[i + 2] == Sent(s, start + bids)[i + 2];
      assert Sent(s, start + bids)[i + 2] == Sent(joined, bids)[i];
    }
    forall k | 2 <= k < |prices| + 2
      ensures c in Sent(s, evs)[k]
    {
      assert Sent(s, evs)[(k - 2) + 2] == Recipients(joined, Message(room, name, prices[k - 2]));
    }
  }
}
