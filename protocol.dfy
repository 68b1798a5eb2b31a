/**
 * The wire vocabulary of the torpedo server: the fixed replies, the notices it sends, and the
 * parsing of an inbound `FIRE_<x>_<y>` command (Program.cs:174-185).
 */
module Protocol {
  import opened Wrappers
  import opened Text

  const ShipsPlacedPrefix: string := "SHIPSPLACED_"
  const FirePrefix: string := "FIRE_"

  const InvalidClient: string := "Invalid client."
  const SpectatorReply: string := "Spectator: Commands are limited."
  const InvalidShipData: string := "Invalid ship data."
  const InvalidFire: string := "Invalid fire command."
  const OpponentShipsMissing: string := "Opponent ships not available."
  const OpponentNotConnected: string := "Opponent not connected."
  const CellAlreadyHit: string := "Cell already hit."
  const Ready: string := "READY"

  /** The ordinal reading of `message.StartsWith(prefix)`. */
  predicate StartsWith(message: string, prefix: string) {
    prefix <= message
  }

  function Greeting(playerId: int): string {
    "PlayerID:" + IntToString(playerId)
  }

  function ShipsReceived(playerId: int): string {
    "Player " + IntToString(playerId) + " ships received."
  }

  function Echo(playerId: int, message: string): string {
    "Player " + IntToString(playerId) + " says: " + message
  }

  function Coordinates(x: int, y: int): string {
    IntToString(x) + "_" + IntToString(y)
  }

  function FireResultHit(x: int, y: int): string { "FIRE_RESULT_HIT_" + Coordinates(x, y) }
  function FireResultMiss(x: int, y: int): string { "FIRE_RESULT_MISS_" + Coordinates(x, y) }
  function OpponentHit(x: int, y: int): string { "OPPONENT_HIT_" + Coordinates(x, y) }
  function OpponentMiss(x: int, y: int): string { "OPPONENT_MISS_" + Coordinates(x, y) }
  function ShipSunk(name: string): string { "SHIP_SUNK_" + name }
  function YourShipSunk(name: string): string { "YOUR_SHIP_SUNK_" + name }
  function GameOver(winner: int): string { "GAME_OVER_Player_" + IntToString(winner) + "_Wins" }
  function NextTurn(player: int): string { "NEXT_TURN_" + IntToString(player) }

  /** The command a client sends to fire at (x, y). */
  function FireCommand(x: int, y: int): string {
    FirePrefix + Coordinates(x, y)
  }

  /**
   * The coordinates of a `FIRE_` message: splitting on '_' must give exactly three parts and
   * the second and third must both pass `int.TryParse`.
   */
  function ParseFire(message: string): (r: Option<(int, int)>)
    ensures r.Some? ==> |Split(message, '_')| == 3
    ensures r.Some? ==> InInt32(r.value.0) && InInt32(r.value.1)
    ensures r.Some? ==> ParseInt(Split(message, '_')[1]) == Some(r.value.0)
    ensures r.Some? ==> ParseInt(Split(message, '_')[2]) == Some(r.value.1)
    ensures (|Split(message, '_')| == 3 && ParseInt(Split(message, '_')[1]).Some? &&
             ParseInt(Split(message, '_')[2]).Some?) ==> r.Some?
  {
    var parts := Split(message, '_');
    if |parts| != 3 then None
    else
      match (ParseInt(parts[1]), ParseInt(parts[2]))
      case (Some(x), Some(y)) => Some((x, y))
      case _ => None
  }

  /**
   * Every shot a client can ask for is understood: the command for (x, y) is a `FIRE_` message,
   * not a `SHIPSPLACED_` one, and parses back to (x, y).
   */
  lemma FireCommandRoundTrip(x: int, y: int)
    requires InInt32(x) && InInt32(y)
    ensures StartsWith(FireCommand(x, y), FirePrefix)
    ensures !StartsWith(FireCommand(x, y), ShipsPlacedPrefix)
    ensures ParseFire(FireCommand(x, y)) == Some((x, y))
  {
    var parts := ["FIRE", IntToString(x), IntToString(y)];
    assert Join(parts, '_') == FireCommand(x, y) by {
      assert Join(parts[2..], '_') == IntToString(y);
      assert parts[1..][1..] == parts[2..];
    }
    SplitJoin(parts, '_');
    ParseIntToString(x);
    ParseIntToString(y);
    assert FireCommand(x, y)[0] != ShipsPlacedPrefix[0];
  }

  /** `int.TryParse` skips trailing NULs, so a `FIRE_x_y` command followed by NUL still reads as (x, y). */
  lemma FireCommandTrailingNul(x: int, y: int)
    requires InInt32(x) && InInt32(y)
    ensures StartsWith(FireCommand(x, y) + ['\0'], FirePrefix)
    ensures !StartsWith(FireCommand(x, y) + ['\0'], ShipsPlacedPrefix)
    ensures ParseFire(FireCommand(x, y) + ['\0']) == Some((x, y))
  {
    var last := IntToString(y) + ['\0'];
    var parts := ["FIRE", IntToString(x), last];
    assert '_' !in last;
    assert Join(parts, '_') == FireCommand(x, y) + ['\0'] by {
      assert Join(parts[2..], '_') == last;
      assert parts[1..][1..] == parts[2..];
    }
    SplitJoin(parts, '_');
    ParseIntToString(x);
    ParseIntTrailingNul(y);
    assert (FireCommand(x, y) + ['\0'])[0] != ShipsPlacedPrefix[0];
  }
}
