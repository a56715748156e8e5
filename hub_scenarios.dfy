/**
 Concrete runs of the hub: two bidders in one auction room, a third client in
 another room, a disconnect, and a bid to a room nobody has joined.
 */
module HubScenarios {
  import opened HubState
  import opened HubProperties

  const Alice: Conn := 1
  const Bob: Conn := 2
  const Carol: Conn := 3

  /** Alice and Bob register and join "auction-1". */
  const Bidders: seq<Event> :=
    [Register(Alice), Join(Alice, "auction-1"), Register(Bob), Join(Bob, "auction-1")]

  /** Carol registers and joins "auction-2". */
  const Onlooker: seq<Event> := [Register(Carol), Join(Carol, "auction-2")]

  /** Alice bids, disconnects, Bob bids, and somebody bids to a room nobody has joined. */
  const Bidding: seq<Event> := [
    Broadcast(Message("auction-1", "alice", "100")),
    Remove(Alice),
    Broadcast(Message("auction-1", "bob", "110")),
    Broadcast(Message("ghost-room", "bob", "120"))]

  const AfterBidders: State := State({Alice, Bob}, map["auction-1" := {Alice, Bob}])
  const AfterOnlooker: State :=
    State({Alice, Bob, Carol}, map["auction-1" := {Alice, Bob}, "auction-2" := {Carol}])
  const AfterBidding: State := State({Bob, Carol}, map["auction-1" := {Bob}, "auction-2" := {Carol}])

  /** Processing two events. */
  lemma Pair(s: State, a: Event, b: Event)
    ensures Run(s, [a, b]) == Step(Step(s, a), b)
    ensures Sent(s, [a, b]) == [Output(s, a), Output(Step(s, a), b)]
  {
    RunLast(s, [a, b]);
    assert [a, b][..1] == [a];
    RunLast(s, [a]);
    assert [a][..0] == [];
  }

  lemma AliceJoins()
    ensures AfterJoin(AfterRegister(Empty, Alice), Alice, "auction-1") == State({Alice}, map["auction-1" := {Alice}])
  {
    var none: set<Conn> := {};
    assert none + {Alice} == {Alice};
  }

  lemma BobJoins()
    ensures AfterJoin(AfterRegister(State({Alice}, map["auction-1" := {Alice}]), Bob), Bob, "auction-1") == AfterBidders
  {
    var registered := AfterRegister(State({Alice}, map["auction-1" := {Alice}]), Bob);
    assert registered == State({Alice, Bob}, map["auction-1" := {Alice}]);
    assert {Alice} + {Bob} == {Alice, Bob};
    assert AfterJoin(registered, Bob, "auction-1").rooms == map["auction-1" := {Alice, Bob}];
  }

  lemma BiddersJoin()
    ensures Run(Empty, Bidders) == AfterBidders
    ensures Sent(Empty, Bidders) == [{}, {}, {}, {}]
  {
    var alice := [Register(Alice), Join(Alice, "auction-1")];
    var bob := [Register(Bob), Join(Bob, "auction-1")];
    assert Bidders == alice + bob;
    Pair(Empty, Register(Alice), Join(Alice, "auction-1"));
    AliceJoins();
    Pair(State({Alice}, map["auction-1" := {Alice}]), Register(Bob), Join(Bob, "auction-1"));
    BobJoins();
    RunAppend(Empty, alice, bob);
    SentAppend(Empty, alice, bob);
  }

  lemma OnlookerJoins()
    ensures Run(AfterBidders, Onlooker) == AfterOnlooker
    ensures Sent(AfterBidders, Onlooker) == [{}, {}]
  {
    Pair(AfterBidders, Register(Carol), Join(Carol, "auction-2"));
    var registered := AfterRegister(AfterBidders, Carol);
    assert registered == State({Alice, Bob, Carol}, map["auction-1" := {Alice, Bob}]);
    assert "auction-1"[8] != "auction-2"[8];
    var none: set<Conn> := {};
    assert none + {Carol} == {Carol};
    assert AfterJoin(registered, Carol, "auction-2").rooms == AfterOnlooker.rooms;
  }

  lemma AlicesDisconnect()
    ensures AfterRemove(AfterOnlooker, Alice) == AfterBidding
  {
    var left := WithoutConn(AfterOnlooker.rooms, Alice);
    assert left["auction-1"] == {Alice, Bob} - {Alice} == {Bob};
    assert left["auction-2"] == {Carol} - {Alice} == {Carol};
    assert left.Keys == AfterBidding.rooms.Keys;
    assert left == AfterBidding.rooms;
  }

  lemma BiddingRound()
    ensures Run(AfterOnlooker, Bidding) == AfterBidding
    ensures Sent(AfterOnlooker, Bidding) == [{Alice, Bob}, {}, {Bob}, {}]
  {
    var first := Bidding[..2];
    var second := Bidding[2..];
    assert Bidding == first + second;
    Pair(AfterOnlooker, Bidding[0], Bidding[1]);
    assert first == [Bidding[0], Bidding[1]];
    AlicesDisconnect();
    Pair(AfterBidding, Bidding[2], Bidding[3]);
    assert second == [Bidding[2], Bidding[3]];
    assert "ghost-room" !in AfterBidding.rooms;
    RunAppend(AfterOnlooker, first, second);
    SentAppend(AfterOnlooker, first, second);
  }

  lemma Opening()
    ensures Run(Empty, Bidders + Onlooker) == AfterOnlooker
    ensures Sent(Empty, Bidders + Onlooker) == [{}, {}, {}, {}, {}, {}]
  {
    BiddersJoin();
    OnlookerJoins();
    RunAppend(Empty, Bidders, Onlooker);
    SentAppend(Empty, Bidders, Onlooker);
  }

  /**
   Alice and Bob join "auction-1", Carol joins "auction-2". Alice bids 100:
   Alice and Bob receive it, Carol does not. Alice disconnects; Bob's bid of
   110 reaches only Bob. A bid to "ghost-room" reaches nobody.
   */
  lemma AuctionScenario()
    ensures Sent(Empty, Bidders + Onlooker + Bidding) == [{}, {}, {}, {}, {}, {}, {Alice, Bob}, {}, {Bob}, {}]
    ensures Run(Empty, Bidders + Onlooker + Bidding).clients == {Bob, Carol}
  {
    Opening();
    BiddingRound();
    RunAppend(Empty, Bidders + Onlooker, Bidding);
    SentAppend(Empty, Bidders + Onlooker, Bidding);
  }
}
