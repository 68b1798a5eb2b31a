# Torpedo game server: the match session

A model of the match-session core of `TorpedoGameServer`, a two-player Battleship ("torpedo")
server. With the sockets, JSON and logging taken away, the server is a sequential state machine
over a few static fields:

- the **slot pool** `availablePlayerIds`, which starts as [1, 2]. A connection takes its front
  slot, or becomes a spectator (-1) when the pool is empty. A disconnecting player gives the
  slot back at the rear;
- the **client registry** `clients`, a map from client id to player id;
- the **placement barrier** `shipsPlaced` / `playerShips`. `READY` is broadcast to both players
  once two placed flags exist and both are true;
- **firing** (`HandleFiringAction`): the first cell at (x, y) in the first ship that has one is
  flagged hit. Sunk and game over are read off the updated flags. Then either the turn passes to
  the opponent, or the shooter is announced as the winner;
- **dispatch** (`ProcessMessage`): `SHIPSPLACED_<json>`, `FIRE_<x>_<y>`, spectators, unknown
  clients and any other text each get their fixed reply.

Every message sent by `SendMessageToClient` or `SendMessageToPlayers` is appended to a log of
`(playerId, message)` pairs. `SendMessageToClient` appends one entry for the client holding the
id, or none if no client holds it. `SendMessageToPlayers` appends one entry per client that holds
a slot. The two other writes are not in the log: the `PlayerID:<id>` greeting (Program.cs:55,
62-69) is the value `Connect` returns, and the reply `HandleClient` writes back
(Program.cs:95-99) is the response `Receive` returns.

Modules:
- `Text`: `int.TryParse`, `String.Split` and integer rendering.
- `Protocol`: the wire strings and the `FIRE_` parser.
- `Fleet`: ships, cells, the shot and the sunk/defeated predicates.
- `Registry`: the slot invariant and message delivery.
- `GameSession`: the state and one function per step.
- `SessionProperties`: what the steps keep and promise.
- `GameServer`: the class `TorpedoGameServer`. Its fields are the static fields, and its methods
  update them in place. Each method is proved to end in the state the `GameSession` function
  gives. `HandleFiringAction` keeps the source's `foreach` with its early returns as a loop.
- `Scenarios`: a whole game. Two players connect and place one-cell subs, and the first shot
  wins; the loser may still fire after that.

The model follows the code, including where a reader of the game's rules would expect more. There
is no "not your turn" check: `currentPlayerTurn` is never checked before a shot, and is read only
to build the `NEXT_TURN_` notice (Program.cs:244, 258). Firing is allowed before `READY` as
long as the opponent's fleet exists. There is no terminal state after `GAME_OVER`
(`Scenarios.ShotAfterGameOver`). The placed flags are never cleared by play, so every later
placement broadcasts `READY` again.

## Model

| member | source | states |
|---|---|---|
| Text.ParseInt | Program.cs:178 | a successful parse is a 32-bit value; the body reads leading white space, an optional sign, digits, trailing white space and then any number of NULs, and `Text.PaddingIgnored`, `Text.ParseIntPadded` the three `Parse…Digits` lemmas and the two `…Overflow` lemmas state those rules |
| Text.PaddingIgnored | Program.cs:178 | white space before a text, white space after it and then NULs do not change how it parses |
| Text.ParseIntPadded | Program.cs:178 | a rendered 32-bit integer with any white space around it and any NULs after it parses to itself |
| Text.ParseIntTrailingNul | Program.cs:178 | a rendered 32-bit integer followed by a NUL still parses to itself |
| Text.ParseIntToString | Program.cs:178 | every 32-bit integer, rendered in decimal, parses back to itself |
| Text.ParseDigits | Program.cs:178 | unsigned digits parse to their value when it fits in 32 bits |
| Text.ParseMinusDigits | Program.cs:178 | a '-' before such digits parses to the negated value when it fits in 32 bits |
| Text.ParseDigitsOverflow | Program.cs:178 | digits whose value does not fit in 32 bits are rejected, not wrapped |
| Text.ParseMinusDigitsOverflow | Program.cs:178 | a '-' before digits whose negated value does not fit in 32 bits is rejected |
| Text.ParsePlusDigits | Program.cs:178 | a '+' before digits parses to their value when it fits in 32 bits |
| Text.DigitsValueOfNat | Program.cs:178 | reading back the digits of a natural number gives the number |
| Text.IntToString | Program.cs:225-258 | an interpolated integer is non-empty, has digits and at most a leading '-', ends in a digit, and never contains '_' |
| Text.Split | Program.cs:177 | `Split('_')` gives at least one part, no part holds the separator, and joining the parts gives the message back |
| Text.SplitJoin | Program.cs:177 | splitting parts that were joined, none of which holds the separator, gives the parts back |
| Text.SplitFree | Program.cs:177 | a string without the separator splits into itself alone |
| Text.SplitAfterPrefix | Program.cs:177 | splitting `a + sep + b`, where `a` has no separator, gives `a` followed by the parts of `b` |
| Protocol.StartsWith | Program.cs:141-174 | the prefix tests of `ProcessMessage`, read ordinally: the message begins with the prefix (the cultural reading is under Left out) |
| Protocol.Greeting | Program.cs:64 | the `PlayerID:<id>` greeting a new connection is sent |
| Protocol.ShipsReceived | Program.cs:167 | the acknowledgement of a placement, `Player <id> ships received.` |
| Protocol.Echo | Program.cs:189 | the reply to any other text, `Player <id> says: <message>` |
| Protocol.Coordinates | Program.cs:225-254 | the `<x>_<y>` tail of every shot notice |
| Protocol.FireResultHit | Program.cs:225 | the shooter's hit notice `FIRE_RESULT_HIT_<x>_<y>` |
| Protocol.OpponentHit | Program.cs:228 | the target's hit notice `OPPONENT_HIT_<x>_<y>` |
| Protocol.ShipSunk | Program.cs:232 | the shooter's sunk notice `SHIP_SUNK_<name>` |
| Protocol.YourShipSunk | Program.cs:233 | the target's sunk notice `YOUR_SHIP_SUNK_<name>` |
| Protocol.GameOver | Program.cs:238 | the broadcast `GAME_OVER_Player_<id>_Wins` |
| Protocol.NextTurn | Program.cs:244 | the broadcast `NEXT_TURN_<id>` |
| Protocol.FireResultMiss | Program.cs:253 | the shooter's miss notice `FIRE_RESULT_MISS_<x>_<y>` |
| Protocol.OpponentMiss | Program.cs:254 | the target's miss notice `OPPONENT_MISS_<x>_<y>` |
| Protocol.FireCommand | Program.cs:174-178 | the `FIRE_<x>_<y>` command that `ProcessMessage` reads a shot from; `Protocol.FireCommandRoundTrip` states that it parses back |
| Protocol.ParseFire | Program.cs:177-178 | a `FIRE_` message yields coordinates exactly when it splits into three parts whose second and third both parse, and then they are those values |
| Protocol.FireCommandRoundTrip | Program.cs:174-181 | the command for any 32-bit (x, y) is a `FIRE_` message, not a `SHIPSPLACED_` one, and parses back to (x, y) |
| Protocol.FireCommandTrailingNul | Program.cs:174-181 | the same command followed by a NUL is still a `FIRE_` message that parses to (x, y) |
| Fleet.BuildShip | Program.cs:149-154 | one ship of a placement: the payload's name, `Size` equal to its cell count, and its cells unhit; `Fleet.BuildFleet` states this per entry |
| Fleet.IsSunk | Program.cs:219 | a ship is sunk when all its cells are hit; `Fleet.CellsHitBound` relates it to the hit count |
| Fleet.FleetDefeated | Program.cs:222 | a fleet is defeated when all its ships are sunk; `Fleet.DefeatedIffAllHit` relates it to the hit count |
| Fleet.BuildFleet | Program.cs:149-154 | one ship per payload entry in order, with the same name, `Size` equal to its cell count, and every cell unhit at the payload's coordinates |
| Fleet.LayoutOfBuildFleet | Program.cs:149-154 | the stored fleet lays the ships out exactly as the payload does |
| Fleet.BuildFleetUnhit | Program.cs:153 | a freshly built fleet has no hit cell |
| Fleet.CellsNoneHit | Program.cs:153 | a ship whose cells are all unhit has a hit count of zero |
| Fleet.FirstCellAt | Program.cs:207 | `FirstOrDefault` finds the first cell at (x, y), or reports that the ship has none |
| Fleet.LocateFrom | Program.cs:205-208 | the scan from a given ship finds the first ship with a cell at (x, y) and that ship's first such cell |
| Fleet.Aim | Program.cs:205-216 | a shot misses exactly when no cell is at (x, y); otherwise it names the first matching cell of the first matching ship, and strikes exactly when that cell is unhit |
| Fleet.Hit | Program.cs:216 | flagging a cell keeps the fleet's shape and makes that cell hit |
| Fleet.HitChangesOneCell | Program.cs:216 | a hit changes no other cell, keeps names, sizes and layout, and undoes no hit |
| Fleet.CellsHitStep | Program.cs:216 | flagging an unhit cell adds one to its ship's count of hit cells |
| Fleet.HitCountStep | Program.cs:216 | every strike adds exactly one to the fleet's hit count and leaves its cell count alone |
| Fleet.CellsHitBound | Program.cs:219 | a ship is sunk exactly when its hit count equals its cell count, and the count never exceeds it |
| Fleet.DefeatedIffAllHit | Program.cs:222 | a fleet is defeated exactly when every one of its cells is hit, and its hit count never exceeds its cell count |
| Fleet.DefeatSinksStruckShip | Program.cs:219-222 | the shot that defeats a fleet also sinks the ship it struck |
| Registry.Deliver | Program.cs:263-273 | a direct send writes one message to the id's holder when some client holds the id, and nothing otherwise |
| Registry.Broadcast | Program.cs:275-287 | `SendMessageToPlayers`: one entry per slot-holding client, to player 1 and then 2; `Registry.BroadcastOncePerPlayer` states its contract |
| Registry.BroadcastOncePerPlayer | Program.cs:275-287 | under the slot invariant a broadcast reaches every client holding a slot, once each, with the same message and nobody else |
| Registry.HolderOf | Program.cs:199-201 | a held player id has a client that holds it |
| GameSession.Init | Program.cs:16-26 | the static fields as the server starts: counter 1, no clients, pool [1, 2], no flags or fleets, turn 1; `SessionProperties.InitSatisfiesInv` states that it satisfies the invariant |
| GameSession.Inv | Program.cs:16-26 | the invariant of every reachable state, which the `…KeepsInv` lemmas carry across each step |
| GameSession.Connect | Program.cs:37-51 | a connection; `SessionProperties.ConnectKeepsInv` carries its contract |
| GameSession.Disconnect | Program.cs:111-124 | the cleanup of a connection; `SessionProperties.DisconnectKeepsInv` carries its contract |
| GameSession.SendToClient | Program.cs:263-273 | `SendMessageToClient` on the log, through `Registry.Deliver` |
| GameSession.SendToPlayers | Program.cs:275-287 | `SendMessageToPlayers` on the log, through `Registry.Broadcast` |
| GameSession.BothPlaced | Program.cs:161 | the placement barrier's test; `SessionProperties.BarrierOpens` carries its contract |
| GameSession.Place | Program.cs:147-167 | a decoded placement; `SessionProperties.PlaceReady` carries its contract |
| GameSession.Opponent | Program.cs:194 | the other player of 1 and 2; `SessionProperties.FireKeepsInv` uses that it is connected |
| GameSession.MissNotices | Program.cs:252-258 | the miss branch; `SessionProperties.MissFrame` and `SessionProperties.MissLog` carry its contract |
| GameSession.Strike | Program.cs:216-247 | the hit branch; `SessionProperties.StrikeFrame` and `SessionProperties.StrikeLog` carry its contract |
| GameSession.Fire | Program.cs:192-261 | `HandleFiringAction`; `SessionProperties.FireKeepsInv`, `FireRejections`, `FireKeepsHits`, `FireTurn` and `FireNotices` carry its contract |
| GameSession.Process | Program.cs:128-190 | `ProcessMessage`; `SessionProperties.ProcessKeepsInv`, `ProcessRejections` and `ProcessKeepsHits` carry its contract |
| GameSession.Receive | Program.cs:87-124 | one read of `HandleClient`; `SessionProperties.ReceiveKeepsInv` carries its contract |
| SessionProperties.InitSatisfiesInv | Program.cs:16-26 | the initial fields satisfy the slot invariant: pool [1, 2] and turn 1 |
| SessionProperties.ThreeConnections | Program.cs:21-51 | starting from [1, 2], three connections get 1, 2 and -1 |
| SessionProperties.ConnectKeepsInv | Program.cs:37-51 | a connection takes the next client id and the front of the pool, or -1 when the pool is empty; nothing else changes and each of 1 and 2 stays either pooled or held by exactly one client |
| SessionProperties.SlotTakenInv | Program.cs:39-51 | a connection that takes the front slot keeps the slot invariant |
| SessionProperties.SlotAccounted | Program.cs:39-51 | after a connection takes the front slot, each of 1 and 2 is still pooled or held |
| SessionProperties.SpectatorJoinsInv | Program.cs:41-51 | a connection that finds the pool empty joins as a spectator and keeps the invariant |
| SessionProperties.DisconnectKeepsInv | Program.cs:111-124 | the client record goes; a player's id goes to the back of the pool and its placed flag and fleet are removed; a spectator's departure leaves pool and maps unchanged; in both cases nothing else changes, so no notice is sent and the counter and the turn stay; the invariant holds |
| SessionProperties.PlayerLeavesInv | Program.cs:111-120 | a player's departure, with its id back at the end of the pool and its fleet and flag gone, keeps the invariant |
| SessionProperties.SpectatorLeavesInv | Program.cs:111-124 | a spectator's departure keeps the invariant |
| SessionProperties.PlayerIsOneOrTwo | Program.cs:299 | a client that is not a spectator holds 1 or 2 |
| SessionProperties.PlaceReady | Program.cs:147-167 | a placement stores the fleet built from the payload (same layout, nothing hit) and sets the flag; `READY` goes to both players exactly when both flags are then set; nothing else changes |
| SessionProperties.BarrierOpens | Program.cs:161 | flagging a player completes the two-flag barrier exactly when the opponent was already flagged |
| SessionProperties.ProcessRejections | Program.cs:141-189 | a null payload, an unparsable `FIRE_` command and other text get their fixed replies and change nothing; a decoder exception changes nothing |
| SessionProperties.InvDuringPlay | Program.cs:205-258 | play (the log, fleet contents, the turn between 1 and 2) cannot break the slot invariant |
| SessionProperties.MissFrame | Program.cs:252-258 | a miss changes only the turn, which goes to the opponent, and the log |
| SessionProperties.StrikeFrame | Program.cs:216-247 | a strike changes only the struck cell, the log and, unless the game is over, the turn |
| SessionProperties.FireKeepsInv | Program.cs:192-261 | every shot keeps the invariant; under it "Opponent not connected." is never the reply, because a fleet exists only for a connected player |
| SessionProperties.FireRejections | Program.cs:194-213 | with no opponent fleet, or at a first matching cell already hit, the reply says so and nothing changes; every other shot is answered with null |
| SessionProperties.FireKeepsHits | Program.cs:205-216 | no shot undoes a hit or moves a ship; the opponent's hit count rises by one exactly when the shot strikes; registry, pool and flags are unchanged |
| SessionProperties.FireTurn | Program.cs:236-258 | a rejected or winning shot leaves the turn alone, every other resolved shot hands it to the opponent; a shot wins exactly when it leaves every opponent cell hit |
| SessionProperties.FireNotices | Program.cs:219-260 | the exact messages of a shot, in order: miss result, miss notice and `NEXT_TURN` to both; or hit result, hit notice, the sunk pair if the ship sank, then `GAME_OVER` naming the shooter or `NEXT_TURN` to both |
| SessionProperties.BothConnected | Program.cs:263-287 | with both players connected, a direct send reaches exactly its player and a broadcast goes to 1 and then 2 |
| SessionProperties.MissLog | Program.cs:252-258 | the messages a miss writes, in order |
| SessionProperties.StrikeLog | Program.cs:224-245 | the messages a strike writes, in order |
| SessionProperties.WinningShotSinks | Program.cs:230-238 | a game-over announcement always follows the sunk notices of the ship struck |
| SessionProperties.ProcessKeepsInv | Program.cs:128-190 | every message keeps the invariant and leaves registry and pool alone; unknown clients get "Invalid client." and spectators "Spectator: Commands are limited.", with no change and nothing sent |
| SessionProperties.ProcessKeepsHits | Program.cs:141-186 | a hit is undone only by a fresh placement from the fleet's own player |
| SessionProperties.ReceiveKeepsInv | Program.cs:87-124 | one read of the client loop keeps the invariant; a connection closed by an exception runs the disconnect cleanup |
| GameServer.TorpedoGameServer.constructor | Program.cs:16-26 | the fields start as the initial session, which satisfies the invariant |
| GameServer.TorpedoGameServer.Connect | Program.cs:37-55 | the fields change as a connection does; the greeting is `PlayerID:<id>` for the slot taken |
| GameServer.TorpedoGameServer.Disconnect | Program.cs:111-124 | the fields change as the cleanup does, and the invariant is kept |
| GameServer.TorpedoGameServer.SendMessageToClient | Program.cs:263-273 | appends the direct send to the log and changes nothing else; the invariant is kept |
| GameServer.TorpedoGameServer.SendMessageToPlayers | Program.cs:275-287 | appends the broadcast to the log and changes nothing else; the invariant is kept |
| GameServer.TorpedoGameServer.HandleFiringAction | Program.cs:192-261 | the scan over the opponent's ships flags the cell and writes the notices the firing step specifies, and never replies "Opponent not connected." |
| GameServer.TorpedoGameServer.StrikeCell | Program.cs:216-247 | the hit branch of the scan: the fields end as the strike step gives, and the invariant is kept |
| GameServer.TorpedoGameServer.ProcessMessage | Program.cs:128-190 | the fields and the reply are those of the dispatch step, and the invariant is kept |
| GameServer.TorpedoGameServer.ReceiveMessage | Program.cs:87-124 | one read of the client loop: the reply written back (none when null or empty), and the cleanup when an exception ends the connection |
| Scenarios.TwoConnections | Program.cs:37-51 | the first two connections hold players 1 and 2 |
| Scenarios.Placements | Program.cs:141-167 | with any payloads the decoder accepts, the first placement is acknowledged without `READY`; the second is acknowledged and broadcasts `READY` to both players |
| Scenarios.PlacementDispatched | Program.cs:141-167 | a `SHIPSPLACED_` message from a player whose payload decodes reaches the placement step |
| Scenarios.PlacementPhase | Program.cs:141-167 | the same for the placements of the one-cell subs at (0, 0) and (5, 5) |
| Scenarios.WinningShotScenario | Program.cs:216-247 | the shot at a lone one-cell sub writes hit, sunk and `GAME_OVER_Player_1_Wins` to both players in order, and leaves the turn with player 1 |
| Scenarios.StrikesSub | Program.cs:196-216 | with both players connected, the shot at a lone one-cell sub strikes its only cell |
| Scenarios.ShotAfterGameOver | Program.cs:192-258 | after game over the loser can still fire; a miss is answered in full and hands the turn back |
| Scenarios.AfterWin | Program.cs:216-247 | the winning shot keeps the invariant, both players and the winner's fleet |
| Scenarios.MissesSub | Program.cs:205-253 | a shot away from the opponent's lone sub misses |
| Scenarios.SubStruck | Program.cs:205-222 | a shot at a one-cell sub strikes it, sinks it and defeats the fleet |
| Scenarios.FireDispatched | Program.cs:174-181 | a well-formed `FIRE_` command from a player, with or without a trailing NUL, reaches the firing step with its coordinates, whatever the JSON decoder |

## Left out

- TCP plumbing: the listener, the accept loop, stream reads and writes, the 4096-byte buffer, UTF-8 encoding and `Main` (Program.cs:28-69, 79-101, 289-292). A message is a whole `string`. A write by `SendMessageToClient` or `SendMessageToPlayers` is a log entry; the greeting and the `HandleClient` reply are return values.
- Concurrency: fire-and-forget `WriteAsync` and the thread safety of the concurrent collections. Every operation is one atomic sequential step.
- JSON decoding: `JsonSerializer.Deserialize` is a function parameter with three results: a list of ships, JSON `null`, or an exception. A ship whose `Name` or `Cells` is null is not modelled. A null `Cells` would throw inside the `Select`, and that case is covered by the exception result.
- Console logging.
- Registry.Broadcast: `clients.Values` has no specified order. The model broadcasts to player 1 and then player 2. The slot invariant makes this the same set of messages as any order (`Registry.BroadcastOncePerPlayer`).
- Text.ParseInt: only the default `NumberStyles.Integer` reading with an invariant culture: white space (U+0009 to U+000D and U+0020), an optional ASCII sign, ASCII digits, trailing white space, trailing NULs and the 32-bit range. The current culture's positive and negative sign strings, when they differ from '+' and '-', are not modelled.
- Text.IntToString: interpolation writes the current culture's `NumberFormatInfo.NegativeSign`; the model renders for a culture whose negative sign is '-'. Under a culture whose sign differs (U+2212 in some ICU cultures), the spectator greeting `PlayerID:-1` and the notices for negative coordinates read differently.
- Protocol.StartsWith: `String.StartsWith(string)` is culture-sensitive in .NET, and the model compares ordinally. The two differ on messages that carry code points a culture-sensitive comparison ignores (U+0000, the soft hyphen U+00AD, the zero-width space U+200B and others): the source dispatches `"\u00ADFIRE_5_5"` as a shot, while the model echoes it. Such text is outside the model.
- GameSession.Connect: `clientIdCounter++` is unbounded here. The 32-bit wrap-around after 2^31 connections is not modelled.
- GameServer.TorpedoGameServer.SendMessageToPlayers: written as one log append of the broadcast rather than a loop over `clients.Values`, so the model fixes the order.
- `cell.IsHit = true` updates a cell object shared only by its fleet. The model updates the fleet value held in `playerShips`, which no other record can observe.
- `HandleClient`'s initial lookup of its own client (Program.cs:73-77) and its stored `playerId` are folded into `Receive`: a client is looked up on each message.
