/**
 * `TorpedoGameServer` with its static fields as the fields of one object. Each method is the
 * server's own step, written statement by statement, and is proved to move the object from
 * one state of the pure session machine (GameSession) to the next; the properties of those
 * steps are the lemmas of SessionProperties.
 */
module GameServer {
  import opened Wrappers
  import opened Protocol
  import opened Fleet
  import opened Registry
  import opened GameSession
  import opened SessionProperties

  class TorpedoGameServer {
    var clientIdCounter: int
    var clients: map<int, int>
    var availablePlayerIds: seq<int>
    var shipsPlaced: map<int, bool>
    var playerShips: map<int, seq<Ship>>
    var currentPlayerTurn: int
    /** Every message written to a client by `SendMessageToClient` and `SendMessageToPlayers`, oldest first. */
    var sent: seq<Sent>

    ghost function State(): Session
      reads this
    {
      Session(clientIdCounter, clients, availablePlayerIds, shipsPlaced, playerShips, currentPlayerTurn, sent)
    }

    ghost predicate Valid()
      reads this
    {
      Inv(State())
    }

    /** The initial values of the static fields (Program.cs:16-26). */
    constructor ()
      ensures Valid() && State() == Init()
    {
      clientIdCounter := 1;
      clients := map[];
      availablePlayerIds := [1, 2];
      shipsPlaced := map[];
      playerShips := map[];
      currentPlayerTurn := 1;
      sent := [];
      InitSatisfiesInv();
    }

    /** An accepted connection (Program.cs:37-55): its client id, its player id and the greeting sent to it. */
    method Connect() returns (clientId: int, playerId: int, greeting: string)
      requires Valid()
      modifies this
      ensures Valid()
      ensures Connection(State(), clientId, playerId) == GameSession.Connect(old(State()))
      ensures playerId == if old(availablePlayerIds) == [] then Spectator else old(availablePlayerIds)[0]
      ensures greeting == Greeting(playerId)
    {
      ConnectKeepsInv(State());
      ghost var next := GameSession.Connect(State());
      clientId := clientIdCounter;
      clientIdCounter := clientIdCounter + 1;
      if |availablePlayerIds| > 0 {
        playerId := availablePlayerIds[0];
        availablePlayerIds := availablePlayerIds[1..];
      } else {
        playerId := Spectator;
      }
      if clientId !in clients {
        clients := clients[clientId := playerId];
      }
      greeting := Greeting(playerId);
      assert State() == next.session;
    }

    /** The cleanup when a client's connection ends (Program.cs:111-124). */
    method Disconnect(clientId: int)
      requires Valid()
      modifies this
      ensures Valid()
      ensures State() == GameSession.Disconnect(old(State()), clientId)
    {
      DisconnectKeepsInv(State(), clientId);
      if clientId in clients {
        var playerId := clients[clientId];
        clients := clients - {clientId};
        if playerId != Spectator {
          availablePlayerIds := availablePlayerIds + [playerId];
          shipsPlaced := shipsPlaced - {playerId};
          playerShips := playerShips - {playerId};
        }
      }
    }

    method SendMessageToClient(playerId: int, message: string)
      requires Valid()
      modifies this
      ensures Valid()
      ensures State() == SendToClient(old(State()), playerId, message)
    {
      InvDuringPlay(State(), SendToClient(State(), playerId, message));
      if Holds(clients, playerId) {
        sent := sent + [Sent(playerId, message)];
      }
    }

    method SendMessageToPlayers(message: string)
      requires Valid()
      modifies this
      ensures Valid()
      ensures State() == SendToPlayers(old(State()), message)
    {
      InvDuringPlay(State(), SendToPlayers(State(), message));
      sent := sent + Broadcast(clients, message);
    }

    /** `HandleFiringAction`: the scan of the opponent's ships stops at the first one with a cell at (x, y). */
    method HandleFiringAction(playerId: int, x: int, y: int) returns (reply: Option<string>)
      requires Valid()
      modifies this
      ensures Valid()
      ensures Step(State(), reply) == Fire(old(State()), playerId, x, y)
      ensures reply != Some(OpponentNotConnected)
    {
      FireKeepsInv(State(), playerId, x, y);
      ghost var pre := State();
      var opponentId := Opponent(playerId);
      if opponentId !in playerShips {
        return Some(OpponentShipsMissing);
      }
      if !Holds(clients, opponentId) {
        return Some(OpponentNotConnected);
      }
      var opponentShips := playerShips[opponentId];
      var i := 0;
      while i < |opponentShips|
        invariant 0 <= i <= |opponentShips|
        invariant unchanged(this)
        invariant LocateFrom(opponentShips, x, y, 0) == LocateFrom(opponentShips, x, y, i)
      {
        var ship := opponentShips[i];
        var cell := FirstCellAt(ship.cells, x, y);
        if cell.Some? {
          var j := cell.value;
          assert LocateFrom(opponentShips, x, y, 0) == Some((i, j));
          if ship.cells[j].isHit {
            assert Aim(opponentShips, x, y) == AlreadyHit(i, j);
            return Some(CellAlreadyHit);
          }
          assert Fire(pre, playerId, x, y) == Step(Strike(pre, playerId, opponentId, x, y, i, j), None);
          StrikeCell(playerId, opponentId, x, y, i, j);
          return None;
        }
        i := i + 1;
      }
      assert Fire(pre, playerId, x, y) == Step(MissNotices(pre, playerId, opponentId, x, y), None);
      SendMessageToClient(playerId, FireResultMiss(x, y));
      SendMessageToClient(opponentId, OpponentMiss(x, y));
      ghost var sentMiss := State();
      currentPlayerTurn := opponentId;
      InvDuringPlay(sentMiss, State());
      SendMessageToPlayers(NextTurn(currentPlayerTurn));
      return None;
    }

    /**
     * The body of `HandleFiringAction` once the scan finds an unhit cell `j` of ship `i` at
     * (x, y): the cell is flagged, then the notices are sent and the turn handed over unless the
     * fleet is defeated.
     */
    method StrikeCell(playerId: int, opponentId: int, x: int, y: int, i: nat, j: nat)
      requires Valid() && opponentId == Opponent(playerId)
      requires opponentId in playerShips
      requires i < |playerShips[opponentId]| && j < |playerShips[opponentId][i].cells|
      modifies this
      ensures Valid()
      ensures State() == Strike(old(State()), playerId, opponentId, x, y, i, j)
    {
      var ship := playerShips[opponentId][i];
      var hitFleet := Hit(playerShips[opponentId], i, j);
      ghost var pre := State();
      playerShips := playerShips[opponentId := hitFleet];
      InvDuringPlay(pre, State());
      var isSunk := IsSunk(hitFleet[i]);
      var gameOver := FleetDefeated(hitFleet);
      SendMessageToClient(playerId, FireResultHit(x, y));
      SendMessageToClient(opponentId, OpponentHit(x, y));
      if isSunk {
        SendMessageToClient(playerId, ShipSunk(ship.name));
        SendMessageToClient(opponentId, YourShipSunk(ship.name));
      }
      if gameOver {
        SendMessageToPlayers(GameOver(playerId));
      } else {
        ghost var sentHit := State();
        currentPlayerTurn := opponentId;
        InvDuringPlay(sentHit, State());
        SendMessageToPlayers(NextTurn(currentPlayerTurn));
      }
    }

    /** `ProcessMessage`: the reply to one inbound message, or `Fault` where the C# code throws. */
    method ProcessMessage(message: string, clientId: int, decode: string -> JsonResult) returns (outcome: Outcome)
      requires Valid()
      modifies this
      ensures Valid()
      ensures Processed(State(), outcome) == Process(old(State()), message, clientId, decode)
    {
      ProcessKeepsInv(State(), message, clientId, decode);
      if clientId !in clients {
        return Reply(Some(InvalidClient));
      }
      var playerId := clients[clientId];
      if playerId == Spectator {
        return Reply(Some(SpectatorReply));
      }
      if StartsWith(message, ShipsPlacedPrefix) {
        var json := message[|ShipsPlacedPrefix|..];
        match decode(json)
        case Malformed =>
          return Fault;
        case JsonNull =>
          return Reply(Some(InvalidShipData));
        case Decoded(shipsData) =>
          playerShips := playerShips[playerId := BuildFleet(shipsData)];
          shipsPlaced := shipsPlaced[playerId := true];
          if BothPlaced(shipsPlaced) {
            SendMessageToPlayers(Ready);
          }
          return Reply(Some(ShipsReceived(playerId)));
      } else if StartsWith(message, FirePrefix) {
        match ParseFire(message)
        case Some((x, y)) =>
          var reply := HandleFiringAction(playerId, x, y);
          return Reply(reply);
        case None =>
          return Reply(Some(InvalidFire));
      }
      return Reply(Some(Echo(playerId, message)));
    }

    /**
     * One pass of `HandleClient`'s read loop (Program.cs:87-101, 104-124): the response written
     * back, if any, and whether the connection closed because processing threw.
     */
    method ReceiveMessage(clientId: int, message: string, decode: string -> JsonResult)
      returns (response: Option<string>, closed: bool)
      requires Valid()
      modifies this
      ensures Valid()
      ensures Received(State(), response, closed) == Receive(old(State()), clientId, message, decode)
    {
      ReceiveKeepsInv(State(), clientId, message, decode);
      var outcome := ProcessMessage(message, clientId, decode);
      match outcome
      case Fault =>
        Disconnect(clientId);
        response, closed := None, true;
      case Reply(r) =>
        response := if r.Some? && r.value != "" then r else None;
        closed := false;
    }
  }
}
