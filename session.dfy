/**
 * The match session of `TorpedoGameServer` as a pure state machine: the static fields of the
 * server (Program.cs:16-26) as one value together with the log of messages written to
 * clients, and one function per step: a connection (Program.cs:37-51), a disconnection
 * (Program.cs:111-124), an inbound message (`ProcessMessage`, Program.cs:128-190) and a shot
 * (`HandleFiringAction`, Program.cs:192-261).
 */
module GameSession {
  import opened Wrappers
  import opened Text
  import opened Protocol
  import opened Fleet
  import opened Registry

  /** What `JsonSerializer.Deserialize<List<ShipData>>` gives for a payload. */
  datatype JsonResult =
    | Malformed                       // it throws, or building the fleet dereferences a null
    | JsonNull                        // the payload is the JSON literal null
    | Decoded(ships: seq<ShipData>)

  /** The static state of the server, and every message it has written so far. */
  datatype Session = Session(
    clientIdCounter: int,
    clients: map<int, int>,
    availablePlayerIds: seq<int>,
    shipsPlaced: map<int, bool>,
    playerShips: map<int, seq<Ship>>,
    currentPlayerTurn: int,
    sent: seq<Sent>)

  datatype Connection = Connection(session: Session, clientId: int, playerId: int)

  /** A step that answers the caller with a reply, or with nothing (C# null). */
  datatype Step = Step(session: Session, reply: Option<string>)

  /** `ProcessMessage` either returns a reply or throws. */
  datatype Outcome = Reply(text: Option<string>) | Fault
  datatype Processed = Processed(session: Session, outcome: Outcome)

  /** One turn of `HandleClient`'s read loop: what is written back, and whether the connection closed. */
  datatype Received = Received(session: Session, response: Option<string>, closed: bool)

  function Init(): Session {
    Session(1, map[], [1, 2], map[], map[], 1, [])
  }

  /**
   * The invariant of every reachable state: the slot invariant; client ids from 1 to below the
   * counter;
   * a placement flag, always true, exactly for the players that have a fleet; a fleet only for
   * a player id that a client holds; and the turn is 1 or 2.
   */
  predicate Inv(s: Session) {
    && SlotsValid(s.availablePlayerIds, s.clients)
    && s.clientIdCounter >= 1
    && (forall c :: c in s.clients ==> 1 <= c < s.clientIdCounter)
    && s.shipsPlaced.Keys == s.playerShips.Keys
    && (forall p :: p in s.shipsPlaced ==> s.shipsPlaced[p])
    && (forall p :: p in s.playerShips ==> p != Spectator && Holds(s.clients, p))
    && (s.currentPlayerTurn == 1 || s.currentPlayerTurn == 2)
  }

  /** A new connection: the next client id, and the front of the slot pool or the spectator id. */
  function Connect(s: Session): Connection {
    var clientId := s.clientIdCounter;
    var playerId := if |s.availablePlayerIds| > 0 then s.availablePlayerIds[0] else Spectator;
    var pool := if |s.availablePlayerIds| > 0 then s.availablePlayerIds[1..] else s.availablePlayerIds;
    var clients := if clientId in s.clients then s.clients else s.clients[clientId := playerId];
    Connection(s.(clientIdCounter := clientId + 1, clients := clients, availablePlayerIds := pool),
               clientId, playerId)
  }

  /**
   * The cleanup in `HandleClient`'s finally block: the client record goes, and a player's id
   * goes back to the end of the pool together with its placement flag and fleet.
   */
  function Disconnect(s: Session, clientId: int): Session {
    if clientId !in s.clients then s
    else
      var playerId := s.clients[clientId];
      var s1 := s.(clients := s.clients - {clientId});
      if playerId != Spectator then
        s1.(availablePlayerIds := s.availablePlayerIds + [playerId],
            shipsPlaced := s.shipsPlaced - {playerId},
            playerShips := s.playerShips - {playerId})
      else s1
  }

  function SendToClient(s: Session, playerId: int, message: string): Session {
    s.(sent := s.sent + Deliver(s.clients, playerId, message))
  }

  function SendToPlayers(s: Session, message: string): Session {
    s.(sent := s.sent + Broadcast(s.clients, message))
  }

  /** `shipsPlaced.Count == 2 && shipsPlaced.Values.All(placed => placed)`. */
  predicate BothPlaced(shipsPlaced: map<int, bool>) {
    |shipsPlaced| == 2 && forall p :: p in shipsPlaced ==> shipsPlaced[p]
  }

  /** A decoded placement: store the new fleet, flag the player, and broadcast READY once both are flagged. */
  function Place(s: Session, playerId: int, payload: seq<ShipData>): Session {
    var s1 := s.(playerShips := s.playerShips[playerId := BuildFleet(payload)],
                 shipsPlaced := s.shipsPlaced[playerId := true]);
    if BothPlaced(s1.shipsPlaced) then SendToPlayers(s1, Ready) else s1
  }

  function Opponent(playerId: int): int {
    if playerId == 1 then 2 else 1
  }

  /** The notices of a miss, and the turn handed to the opponent (Program.cs:252-258). */
  function MissNotices(s: Session, playerId: int, opponentId: int, x: int, y: int): Session {
    var s1 := SendToClient(SendToClient(s, playerId, FireResultMiss(x, y)), opponentId, OpponentMiss(x, y));
    SendToPlayers(s1.(currentPlayerTurn := opponentId), NextTurn(opponentId))
  }

  /**
   * The strike of unhit cell `j` of ship `i` of the opponent's fleet: the cell is flagged, then
   * the hit notices, the sunk notices if the ship is sunk, and either game over or the turn
   * handed over (Program.cs:216-247).
   */
  function Strike(s: Session, playerId: int, opponentId: int, x: int, y: int, i: nat, j: nat): Session
    requires opponentId in s.playerShips
    requires i < |s.playerShips[opponentId]| && j < |s.playerShips[opponentId][i].cells|
  {
    var fleet := s.playerShips[opponentId];
    var hitFleet := Hit(fleet, i, j);
    var s1 := s.(playerShips := s.playerShips[opponentId := hitFleet]);
    var s2 := SendToClient(SendToClient(s1, playerId, FireResultHit(x, y)), opponentId, OpponentHit(x, y));
    var s3 := if IsSunk(hitFleet[i])
              then SendToClient(SendToClient(s2, playerId, ShipSunk(fleet[i].name)), opponentId, YourShipSunk(fleet[i].name))
              else s2;
    if FleetDefeated(hitFleet)
    then SendToPlayers(s3, GameOver(playerId))
    else SendToPlayers(s3.(currentPlayerTurn := opponentId), NextTurn(opponentId))
  }

  /** `HandleFiringAction(playerId, x, y)`. */
  function Fire(s: Session, playerId: int, x: int, y: int): Step {
    var opponentId := Opponent(playerId);
    if opponentId !in s.playerShips then Step(s, Some(OpponentShipsMissing))
    else if !Holds(s.clients, opponentId) then Step(s, Some(OpponentNotConnected))
    else
      match Aim(s.playerShips[opponentId], x, y)
      case AlreadyHit(_, _) => Step(s, Some(CellAlreadyHit))
      case Miss => Step(MissNotices(s, playerId, opponentId, x, y), None)
      case Struck(i, j) => Step(Strike(s, playerId, opponentId, x, y, i, j), None)
  }

  /** `ProcessMessage(message, clientId)`, with the JSON decoder as a parameter. */
  function Process(s: Session, message: string, clientId: int, decode: string -> JsonResult): Processed {
    if clientId !in s.clients then Processed(s, Reply(Some(InvalidClient)))
    else
      var playerId := s.clients[clientId];
      if playerId == Spectator then Processed(s, Reply(Some(SpectatorReply)))
      else if StartsWith(message, ShipsPlacedPrefix) then
        match decode(message[|ShipsPlacedPrefix|..])
        case Malformed => Processed(s, Fault)
        case JsonNull => Processed(s, Reply(Some(InvalidShipData)))
        case Decoded(payload) => Processed(Place(s, playerId, payload), Reply(Some(ShipsReceived(playerId))))
      else if StartsWith(message, FirePrefix) then
        match ParseFire(message)
        case None => Processed(s, Reply(Some(InvalidFire)))
        case Some((x, y)) =>
          var step := Fire(s, playerId, x, y);
          Processed(step.session, Reply(step.reply))
      else Processed(s, Reply(Some(Echo(playerId, message))))
  }

  /**
   * One message read by `HandleClient`: the reply is written back unless it is null or empty;
   * an exception ends the connection and runs the cleanup.
   */
  function Receive(s: Session, clientId: int, message: string, decode: string -> JsonResult): Received {
    var p := Process(s, message, clientId, decode);
    match p.outcome
    case Fault => Received(Disconnect(s, clientId), None, true)
    case Reply(r) => Received(p.session, if r.Some? && r.value != "" then r else None, false)
  }
}
