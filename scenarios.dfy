/**
 * A whole run of the session machine: two players connect, each places a single one-cell ship,
 * the first shot wins, and the loser may still fire afterwards.
 */
module Scenarios {
  import opened Wrappers
  import opened Text
  import opened Protocol
  import opened Fleet
  import opened Registry
  import opened GameSession
  import opened SessionProperties

  const Sub00: seq<ShipData> := [ShipData("Sub", [CellData(0, 0)])]
  const Sub55: seq<ShipData> := [ShipData("Sub", [CellData(5, 5)])]
  const Json00: string := "[{\"Name\":\"Sub\",\"Cells\":[{\"X\":0,\"Y\":0}]}]"
  const Json55: string := "[{\"Name\":\"Sub\",\"Cells\":[{\"X\":5,\"Y\":5}]}]"

  /** A decoder that knows the two payloads of the game below. */
  function Decode(json: string): JsonResult {
    if json == Json00 then Decoded(Sub00) else if json == Json55 then Decoded(Sub55) else Malformed
  }

  /** Both players connected, nothing placed yet. */
  function Connected(): Session {
    Session(3, map[1 := 1, 2 := 2], [], map[], map[], 1, [])
  }

  /** A one-cell sub at (x, y). */
  function SubAt(x: int, y: int): seq<ShipData> {
    [ShipData("Sub", [CellData(x, y)])]
  }

  /** Both fleets placed and READY sent to both players. */
  function Placed(fleet1: seq<ShipData>, fleet2: seq<ShipData>): Session {
    Session(3, map[1 := 1, 2 := 2], [], map[1 := true, 2 := true],
            map[1 := BuildFleet(fleet1), 2 := BuildFleet(fleet2)], 1, [Sent(1, Ready), Sent(2, Ready)])
  }

  /** The first two connections hold players 1 and 2. */
  lemma TwoConnections()
    ensures Connect(Connect(Init()).session).session == Connected()
    ensures Inv(Connected())
  {
    InitSatisfiesInv();
    ConnectKeepsInv(Init());
    ConnectKeepsInv(Connect(Init()).session);
  }

  /**
   * The first placement is acknowledged without READY; the second is acknowledged too and
   * broadcasts READY to both players. Any decoder and payloads will do; the game below uses
   * `Decode` with the two one-cell subs (`PlacementPhase`).
   */
  lemma Placements(json1: string, json2: string, fleet1: seq<ShipData>, fleet2: seq<ShipData>,
                   decode: string -> JsonResult)
    requires decode(json1) == Decoded(fleet1) && decode(json2) == Decoded(fleet2)
    ensures var s1 := Process(Connected(), ShipsPlacedPrefix + json1, 1, decode);
      && s1.outcome == Reply(Some(ShipsReceived(1)))
      && s1.session.sent == []
      && var s2 := Process(s1.session, ShipsPlacedPrefix + json2, 2, decode);
      && s2.outcome == Reply(Some(ShipsReceived(2)))
      && s2.session == Placed(fleet1, fleet2)
  {
    TwoConnections();
    var s0 := Connected();
    PlacementDispatched(s0, 1, json1, fleet1, decode);
    PlaceReady(s0, 1, fleet1);
    var t1 := Place(s0, 1, fleet1);
    assert t1 == s0.(shipsPlaced := map[1 := true], playerShips := map[1 := BuildFleet(fleet1)]);
    assert t1.clients[2] == 2;
    PlacementDispatched(t1, 2, json2, fleet2, decode);
    PlaceReady(t1, 2, fleet2);
    assert Place(t1, 2, fleet2).shipsPlaced == map[1 := true, 2 := true];
    assert Place(t1, 2, fleet2).playerShips == map[1 := BuildFleet(fleet1), 2 := BuildFleet(fleet2)];
  }

  /** A `SHIPSPLACED_` message from a player whose payload decodes reaches the placement step. */
  lemma PlacementDispatched(s: Session, clientId: int, json: string, fleet: seq<ShipData>,
                            decode: string -> JsonResult)
    requires clientId in s.clients && s.clients[clientId] != Spectator && decode(json) == Decoded(fleet)
    ensures Process(s, ShipsPlacedPrefix + json, clientId, decode) ==
      Processed(Place(s, s.clients[clientId], fleet), Reply(Some(ShipsReceived(s.clients[clientId]))))
  {
    var m := ShipsPlacedPrefix + json;
    assert StartsWith(m, ShipsPlacedPrefix) && m[|ShipsPlacedPrefix|..] == json;
  }

  /** The placements of the one-cell subs at (0, 0) and (5, 5). */
  lemma PlacementPhase()
    ensures var s1 := Process(Connected(), ShipsPlacedPrefix + Json00, 1, Decode);
      && s1.outcome == Reply(Some(ShipsReceived(1)))
      && s1.session.sent == []
      && var s2 := Process(s1.session, ShipsPlacedPrefix + Json55, 2, Decode);
      && s2.outcome == Reply(Some(ShipsReceived(2)))
      && s2.session == Placed(Sub00, Sub55)
  {
    assert Json55 != Json00 by { assert Json55[29] != Json00[29]; }
    Placements(Json00, Json55, Sub00, Sub55, Decode);
  }

  /**
   * With player 2's only ship a one-cell sub at (x, y) (in the game above, (5, 5)), player 1's
   * shot at (x, y) ends the game: the hit, the sunk notices and the announcement that player 1
   * wins reach both players in that order, and the turn stays with player 1. The `FIRE_x_y`
   * command that asks for this shot reaches it through `FireDispatched`.
   */
  lemma WinningShotScenario(fleet1: seq<ShipData>, x: int, y: int)
    ensures var st := Fire(Placed(fleet1, SubAt(x, y)), 1, x, y);
      && st.reply == None
      && st.session.sent == Placed(fleet1, SubAt(x, y)).sent +
           [Sent(1, FireResultHit(x, y)), Sent(2, OpponentHit(x, y)),
            Sent(1, ShipSunk("Sub")), Sent(2, YourShipSunk("Sub")),
            Sent(1, GameOver(1)), Sent(2, GameOver(1))]
      && st.session.currentPlayerTurn == 1
      && st.session.playerShips[2] == [Ship("Sub", 1, [Cell(x, y, true)])]
  {
    var t2 := Placed(fleet1, SubAt(x, y));
    PlacedInv(fleet1, SubAt(x, y));
    SubStruck(x, y);
    StrikesSub(fleet1, x, y);
    StrikeLog(t2, 1, x, y, 0, 0);
    StrikeFrame(t2, 1, 2, x, y, 0, 0);
  }

  /** Both players are connected, and player 1's shot at the sub is a strike of its only cell. */
  lemma StrikesSub(fleet1: seq<ShipData>, x: int, y: int)
    ensures var t2 := Placed(fleet1, SubAt(x, y));
      && Holds(t2.clients, 1) && Holds(t2.clients, 2)
      && Fire(t2, 1, x, y) == Step(Strike(t2, 1, 2, x, y, 0, 0), None)
  {
    var t2 := Placed(fleet1, SubAt(x, y));
    SubStruck(x, y);
    assert t2.clients[1] == 1 && t2.clients[2] == 2;
  }

  /**
   * The session has no terminal state: once player 1 has won, player 2 may still fire, and a shot
   * that misses player 1's sub is answered with the miss notices and hands the turn back to
   * player 1.
   */
  lemma ShotAfterGameOver(a: int, b: int, x: int, y: int, u: int, v: int)
    requires (u, v) != (a, b)
    ensures var s3 := Fire(Placed(SubAt(a, b), SubAt(x, y)), 1, x, y).session;
      var st := Fire(s3, 2, u, v);
      && st.reply == None
      && st.session.sent == s3.sent +
           [Sent(2, FireResultMiss(u, v)), Sent(1, OpponentMiss(u, v)),
            Sent(1, NextTurn(1)), Sent(2, NextTurn(1))]
      && st.session.currentPlayerTurn == 1
  {
    var s3 := Fire(Placed(SubAt(a, b), SubAt(x, y)), 1, x, y).session;
    AfterWin(a, b, x, y);
    MissesSub(s3, a, b, u, v);
    assert Holds(s3.clients, 2) by { assert s3.clients[2] == 2; }
    assert Holds(s3.clients, 1) by { assert s3.clients[1] == 1; }
    MissLog(s3, 2, u, v);
    MissFrame(s3, 2, 1, u, v);
  }

  /** The winning shot keeps the invariant, both players and the winner's untouched sub. */
  lemma AfterWin(a: int, b: int, x: int, y: int)
    ensures var s3 := Fire(Placed(SubAt(a, b), SubAt(x, y)), 1, x, y).session;
      && Inv(s3) && s3.clients == map[1 := 1, 2 := 2]
      && 1 in s3.playerShips && s3.playerShips[1] == BuildFleet(SubAt(a, b))
  {
    var t2 := Placed(SubAt(a, b), SubAt(x, y));
    PlacedInv(SubAt(a, b), SubAt(x, y));
    StrikesSub(SubAt(a, b), x, y);
    FireKeepsInv(t2, 1, x, y);
    StrikeFrame(t2, 1, 2, x, y, 0, 0);
  }

  /** A shot that is not at the one-cell sub of player 1 misses it. */
  lemma MissesSub(s3: Session, a: int, b: int, u: int, v: int)
    requires s3.clients == map[1 := 1, 2 := 2] && 1 in s3.playerShips
    requires s3.playerShips[1] == BuildFleet(SubAt(a, b)) && (u, v) != (a, b)
    ensures Fire(s3, 2, u, v) == Step(MissNotices(s3, 2, 1, u, v), None)
  {
    var fleet := BuildFleet(SubAt(a, b));
    assert fleet[0].cells == [Cell(a, b, false)];
    assert Aim(fleet, u, v) == Miss;
    assert s3.clients[1] == 1;
  }

  /** A shot at a one-cell sub strikes its only cell and defeats the fleet. */
  lemma SubStruck(x: int, y: int)
    ensures Aim(BuildFleet(SubAt(x, y)), x, y) == Struck(0, 0)
    ensures Hit(BuildFleet(SubAt(x, y)), 0, 0) == [Ship("Sub", 1, [Cell(x, y, true)])]
    ensures IsSunk(Hit(BuildFleet(SubAt(x, y)), 0, 0)[0]) && FleetDefeated(Hit(BuildFleet(SubAt(x, y)), 0, 0))
  {
    var fleet := BuildFleet(SubAt(x, y));
    assert fleet[0].cells == [Cell(x, y, false)];
    assert fleet == [Ship("Sub", 1, [Cell(x, y, false)])];
    assert FirstCellAt(fleet[0].cells, x, y) == Some(0);
    var cells := fleet[0].cells[0 := fleet[0].cells[0].(isHit := true)];
    assert cells == [Cell(x, y, true)];
    assert Hit(fleet, 0, 0) == fleet[0 := fleet[0].(cells := cells)];
  }

  /**
   * A well-formed `FIRE_` command from a player, with or without a trailing NUL, reaches the
   * firing logic with its coordinates, whatever the JSON decoder.
   */
  lemma FireDispatched(s: Session, clientId: int, x: int, y: int, decode: string -> JsonResult)
    requires InInt32(x) && InInt32(y)
    requires clientId in s.clients && s.clients[clientId] != Spectator
    ensures var st := Fire(s, s.clients[clientId], x, y);
      Process(s, FireCommand(x, y), clientId, decode) == Processed(st.session, Reply(st.reply))
    ensures var st := Fire(s, s.clients[clientId], x, y);
      Process(s, FireCommand(x, y) + ['\0'], clientId, decode) == Processed(st.session, Reply(st.reply))
  {
    FireCommandRoundTrip(x, y);
    FireCommandTrailingNul(x, y);
  }

  lemma PlacedInv(fleet1: seq<ShipData>, fleet2: seq<ShipData>)
    ensures Inv(Placed(fleet1, fleet2))
  {
    var s := Placed(fleet1, fleet2);
    assert s.clients[1] == 1 && s.clients[2] == 2;
  }
}
