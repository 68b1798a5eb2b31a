/**
 * What the match session promises, proved about the pure state machine of GameSession:
 * the invariant every step keeps, slot allocation, placement and the READY barrier, and the
 * resolution of a shot (rejections, the one cell it changes, the notices, the turn).
 */
module SessionProperties {
  import opened Wrappers
  import opened Text
  import opened Protocol
  import opened Fleet
  import opened Registry
  import opened GameSession

  lemma InitSatisfiesInv()
    ensures Inv(Init())
    ensures Init().availablePlayerIds == [1, 2] && Init().currentPlayerTurn == 1
  {
  }

  /** Starting from the pool [1, 2], three connections receive 1, 2 and the spectator id. */
  lemma ThreeConnections()
    ensures Connect(Init()).playerId == 1
    ensures Connect(Connect(Init()).session).playerId == 2
    ensures Connect(Connect(Connect(Init()).session).session).playerId == Spectator
  {
  }

  /**
   * A connection takes the front of the pool, or the spectator id when the pool is empty, under
   * a client id not in use; only the counter, the registry and the pool change, and the
   * invariant is kept.
   */
  lemma ConnectKeepsInv(s: Session)
    requires Inv(s)
    ensures Inv(Connect(s).session)
    ensures Connect(s).clientId == s.clientIdCounter && Connect(s).clientId !in s.clients
    ensures Connect(s).session.clients == s.clients[Connect(s).clientId := Connect(s).playerId]
    ensures s.availablePlayerIds == [] ==>
      Connect(s).playerId == Spectator && Connect(s).session.availablePlayerIds == []
    ensures s.availablePlayerIds != [] ==>
      Connect(s).playerId == s.availablePlayerIds[0] &&
      Connect(s).session.availablePlayerIds == s.availablePlayerIds[1..]
    ensures Connect(s).session == s.(clientIdCounter := s.clientIdCounter + 1,
                                     clients := Connect(s).session.clients,
                                     availablePlayerIds := Connect(s).session.availablePlayerIds)
  {
    if s.availablePlayerIds != [] {
      SlotTakenInv(s);
    } else {
      SpectatorJoinsInv(s);
    }
  }

  /** A connection that takes the front slot: no client held it, and it leaves the pool. */
  lemma SlotTakenInv(s: Session)
    requires Inv(s) && s.availablePlayerIds != []
    ensures Inv(Connect(s).session)
  {
    var c := Connect(s);
    var t := c.session;
    var q := s.availablePlayerIds;
    assert q[0] in q;
    forall i | 0 <= i < |t.availablePlayerIds| ensures !Holds(t.clients, t.availablePlayerIds[i]) {
      assert t.availablePlayerIds[i] == q[i + 1];
      assert !Holds(s.clients, q[i + 1]);
    }
    forall p | p in t.playerShips ensures Holds(t.clients, p) {
      var h := HolderOf(s.clients, p);
      assert t.clients[h] == p;
    }
    SlotAccounted(s, 1);
    SlotAccounted(s, 2);
  }

  /** After a connection that takes the front slot, slot `k` is still pooled or held. */
  lemma SlotAccounted(s: Session, k: int)
    requires Inv(s) && s.availablePlayerIds != [] && (k == 1 || k == 2)
    ensures k in Connect(s).session.availablePlayerIds || Holds(Connect(s).session.clients, k)
  {
    var c := Connect(s);
    var t := c.session;
    var q := s.availablePlayerIds;
    if q[0] == k {
      assert t.clients[c.clientId] == k;
    } else if k in q {
      var i :| 0 <= i < |q| && q[i] == k;
      assert t.availablePlayerIds[i - 1] == k;
    } else {
      var h := HolderOf(s.clients, k);
      assert t.clients[h] == k;
    }
  }

  /** A connection that finds the pool empty joins as a spectator: both slots stay held. */
  lemma SpectatorJoinsInv(s: Session)
    requires Inv(s) && s.availablePlayerIds == []
    ensures Inv(Connect(s).session)
  {
    var t := Connect(s).session;
    forall p | p in t.playerShips ensures Holds(t.clients, p) {
      var h := HolderOf(s.clients, p);
      assert t.clients[h] == p;
    }
    assert Holds(t.clients, 1) by {
      var h := HolderOf(s.clients, 1);
      assert t.clients[h] == 1;
    }
    assert Holds(t.clients, 2) by {
      var h := HolderOf(s.clients, 2);
      assert t.clients[h] == 2;
    }
  }

  /**
   * A disconnection removes the client record; a player's id goes to the back of the pool and
   * its placement flag and fleet are removed; a spectator's leaves the pool and both maps as
   * they were. Nothing else changes: no notice is sent, and the counter and the turn stay. The
   * invariant is kept.
   */
  lemma DisconnectKeepsInv(s: Session, clientId: int)
    requires Inv(s)
    ensures Inv(Disconnect(s, clientId))
    ensures Disconnect(s, clientId).clients == s.clients - {clientId}
    ensures clientId in s.clients && s.clients[clientId] != Spectator ==>
      var p := s.clients[clientId];
      && Disconnect(s, clientId).availablePlayerIds == s.availablePlayerIds + [p]
      && Disconnect(s, clientId).shipsPlaced == s.shipsPlaced - {p}
      && Disconnect(s, clientId).playerShips == s.playerShips - {p}
      && Disconnect(s, clientId) == s.(clients := s.clients - {clientId}, availablePlayerIds := s.availablePlayerIds + [p],
                                       shipsPlaced := s.shipsPlaced - {p}, playerShips := s.playerShips - {p})
    ensures clientId !in s.clients || s.clients[clientId] == Spectator ==>
      Disconnect(s, clientId) == s.(clients := s.clients - {clientId})
  {
    if clientId in s.clients {
      if s.clients[clientId] != Spectator {
        PlayerLeavesInv(s, clientId);
      } else {
        SpectatorLeavesInv(s, clientId);
      }
    } else {
      assert s.clients - {clientId} == s.clients;
    }
  }

  /** A player's departure puts its id back at the end of the pool, where no client holds it. */
  lemma PlayerLeavesInv(s: Session, clientId: int)
    requires Inv(s) && clientId in s.clients && s.clients[clientId] != Spectator
    ensures Inv(Disconnect(s, clientId))
  {
    var t := Disconnect(s, clientId);
    var p := s.clients[clientId];
    var q := s.availablePlayerIds;
    forall other | other in t.clients ensures t.clients[other] != p {
      assert other != clientId;
    }
    assert !(p in q) by {
      if p in q {
        var i :| 0 <= i < |q| && q[i] == p;
        assert Holds(s.clients, q[i]);
      }
    }
    forall i | 0 <= i < |t.availablePlayerIds| ensures !Holds(t.clients, t.availablePlayerIds[i]) {
      if i < |q| {
        assert t.availablePlayerIds[i] == q[i];
        assert !Holds(s.clients, q[i]);
      }
    }
    forall r | r in t.playerShips ensures Holds(t.clients, r) {
      var h := HolderOf(s.clients, r);
      assert h != clientId;
      assert t.clients[h] == r;
    }
    assert p in t.availablePlayerIds by { assert t.availablePlayerIds[|q|] == p; }
    assert 1 in t.availablePlayerIds || Holds(t.clients, 1) by {
      if 1 !in q && p != 1 {
        var h := HolderOf(s.clients, 1);
        assert t.clients[h] == 1;
      } else if 1 in q {
        var i :| 0 <= i < |q| && q[i] == 1;
        assert t.availablePlayerIds[i] == 1;
      }
    }
    assert 2 in t.availablePlayerIds || Holds(t.clients, 2) by {
      if 2 !in q && p != 2 {
        var h := HolderOf(s.clients, 2);
        assert t.clients[h] == 2;
      } else if 2 in q {
        var i :| 0 <= i < |q| && q[i] == 2;
        assert t.availablePlayerIds[i] == 2;
      }
    }
  }

  /** A spectator's departure leaves every slot where it was. */
  lemma SpectatorLeavesInv(s: Session, clientId: int)
    requires Inv(s) && clientId in s.clients && s.clients[clientId] == Spectator
    ensures Inv(Disconnect(s, clientId))
  {
    var t := Disconnect(s, clientId);
    forall r | r in t.playerShips ensures Holds(t.clients, r) {
      var h := HolderOf(s.clients, r);
      assert t.clients[h] == r;
    }
    forall i | 0 <= i < |t.availablePlayerIds| ensures !Holds(t.clients, t.availablePlayerIds[i]) {
      assert !Holds(s.clients, t.availablePlayerIds[i]);
    }
    assert 1 in t.availablePlayerIds || Holds(t.clients, 1) by {
      if 1 !in t.availablePlayerIds {
        var h := HolderOf(s.clients, 1);
        assert t.clients[h] == 1;
      }
    }
    assert 2 in t.availablePlayerIds || Holds(t.clients, 2) by {
      if 2 !in t.availablePlayerIds {
        var h := HolderOf(s.clients, 2);
        assert t.clients[h] == 2;
      }
    }
  }

  /** A client that holds a slot holds 1 or 2. */
  lemma PlayerIsOneOrTwo(s: Session, clientId: int)
    requires Inv(s) && clientId in s.clients && s.clients[clientId] != Spectator
    ensures s.clients[clientId] == 1 || s.clients[clientId] == 2
    ensures Holds(s.clients, s.clients[clientId])
  {
  }

  /**
   * A placement stores the payload's ships, in order and all unhit, as the player's fleet, sets
   * the player's flag, leaves the opponent's fleet alone, and broadcasts READY exactly when the
   * opponent's flag was already set. The invariant is kept.
   */
  lemma PlaceReady(s: Session, playerId: int, payload: seq<ShipData>)
    requires Inv(s)
    requires (playerId == 1 || playerId == 2) && Holds(s.clients, playerId)
    ensures Inv(Place(s, playerId, payload))
    ensures Place(s, playerId, payload).playerShips == s.playerShips[playerId := BuildFleet(payload)]
    ensures Place(s, playerId, payload).shipsPlaced == s.shipsPlaced[playerId := true]
    ensures Layout(Place(s, playerId, payload).playerShips[playerId]) == payload
    ensures HitCount(Place(s, playerId, payload).playerShips[playerId]) == 0
    ensures Place(s, playerId, payload).sent ==
      s.sent + (if Opponent(playerId) in s.shipsPlaced then [Sent(1, Ready), Sent(2, Ready)] else [])
    ensures Place(s, playerId, payload) ==
      s.(playerShips := Place(s, playerId, payload).playerShips,
         shipsPlaced := Place(s, playerId, payload).shipsPlaced,
         sent := Place(s, playerId, payload).sent)
  {
    BarrierOpens(s, playerId);
    if Opponent(playerId) in s.shipsPlaced {
      assert Holds(s.clients, Opponent(playerId));
      BothConnected(s, playerId, Ready);
    }
    LayoutOfBuildFleet(payload);
    BuildFleetUnhit(payload);
  }

  /** Flagging a player completes the barrier exactly when the opponent was already flagged. */
  lemma BarrierOpens(s: Session, playerId: int)
    requires Inv(s) && (playerId == 1 || playerId == 2)
    ensures BothPlaced(s.shipsPlaced[playerId := true]) <==> Opponent(playerId) in s.shipsPlaced
  {
    var placed := s.shipsPlaced[playerId := true];
    var opp := Opponent(playerId);
    forall p | p in placed ensures p == 1 || p == 2 {
      if p != playerId {
        var h := HolderOf(s.clients, p);
      }
    }
    if opp in s.shipsPlaced {
      assert placed.Keys == {1, 2};
    } else {
      assert placed.Keys == {playerId};
    }
  }

  /** The invariant does not depend on the log, the fleets' contents or which of 1 and 2 has the turn. */
  lemma InvDuringPlay(s: Session, t: Session)
    requires Inv(s)
    requires t.clientIdCounter == s.clientIdCounter && t.clients == s.clients
    requires t.availablePlayerIds == s.availablePlayerIds && t.shipsPlaced == s.shipsPlaced
    requires t.playerShips.Keys == s.playerShips.Keys
    requires t.currentPlayerTurn == 1 || t.currentPlayerTurn == 2
    ensures Inv(t)
  {
  }

  /** A miss changes only the turn, which goes to the opponent, and the log. */
  lemma MissFrame(s: Session, playerId: int, opponentId: int, x: int, y: int)
    ensures MissNotices(s, playerId, opponentId, x, y) ==
      s.(currentPlayerTurn := opponentId, sent := MissNotices(s, playerId, opponentId, x, y).sent)
  {
  }

  /**
   * A strike changes only the opponent's fleet, which gets the one cell hit, the turn, which
   * goes to the opponent unless the fleet is now defeated, and the log.
   */
  lemma StrikeFrame(s: Session, playerId: int, opponentId: int, x: int, y: int, i: nat, j: nat)
    requires opponentId in s.playerShips
    requires i < |s.playerShips[opponentId]| && j < |s.playerShips[opponentId][i].cells|
    ensures var after := Hit(s.playerShips[opponentId], i, j);
      Strike(s, playerId, opponentId, x, y, i, j) ==
        s.(playerShips := s.playerShips[opponentId := after],
           currentPlayerTurn := if FleetDefeated(after) then s.currentPlayerTurn else opponentId,
           sent := Strike(s, playerId, opponentId, x, y, i, j).sent)
  {
  }

  /**
   * A shot keeps the invariant and never meets a disconnected opponent who still has a fleet:
   * the invariant ties every fleet to a connected holder.
   */
  lemma FireKeepsInv(s: Session, playerId: int, x: int, y: int)
    requires Inv(s)
    ensures Inv(Fire(s, playerId, x, y).session)
    ensures Fire(s, playerId, x, y).reply != Some(OpponentNotConnected)
  {
    var opp := Opponent(playerId);
    if opp in s.playerShips {
      assert Holds(s.clients, opp);
      match Aim(s.playerShips[opp], x, y)
      case AlreadyHit(_, _) =>
      case Miss =>
        MissFrame(s, playerId, opp, x, y);
        InvDuringPlay(s, Fire(s, playerId, x, y).session);
      case Struck(i, j) =>
        StrikeFrame(s, playerId, opp, x, y, i, j);
        InvDuringPlay(s, Fire(s, playerId, x, y).session);
    }
  }

  /**
   * The rejections of a shot: with no opponent fleet, or at a first matching cell that is
   * already hit, the reply says so and nothing changes (fleets, turn, log). Every other shot
   * is resolved and answered with nothing.
   */
  lemma FireRejections(s: Session, playerId: int, x: int, y: int)
    requires Inv(s)
    ensures Opponent(playerId) !in s.playerShips ==>
      Fire(s, playerId, x, y) == Step(s, Some(OpponentShipsMissing))
    ensures Opponent(playerId) in s.playerShips && Aim(s.playerShips[Opponent(playerId)], x, y).AlreadyHit? ==>
      Fire(s, playerId, x, y) == Step(s, Some(CellAlreadyHit))
    ensures Opponent(playerId) in s.playerShips && !Aim(s.playerShips[Opponent(playerId)], x, y).AlreadyHit? ==>
      Fire(s, playerId, x, y).reply == None
  {
    var opp := Opponent(playerId);
    if opp in s.playerShips {
      assert Holds(s.clients, opp);
    }
  }

  /**
   * No shot undoes a hit: every fleet keeps its layout and every hit cell stays hit; the
   * opponent's hit count goes up by one exactly when the shot strikes an unhit cell, and by
   * nothing otherwise.
   */
  lemma FireKeepsHits(s: Session, playerId: int, x: int, y: int)
    requires Inv(s)
    ensures Fire(s, playerId, x, y).session.playerShips.Keys == s.playerShips.Keys
    ensures forall q :: q in s.playerShips ==>
      Dominates(s.playerShips[q], Fire(s, playerId, x, y).session.playerShips[q])
    ensures Opponent(playerId) in s.playerShips ==>
      var before := s.playerShips[Opponent(playerId)];
      HitCount(Fire(s, playerId, x, y).session.playerShips[Opponent(playerId)]) ==
        HitCount(before) + (if Aim(before, x, y).Struck? then 1 else 0)
    ensures Fire(s, playerId, x, y).session.clients == s.clients
    ensures Fire(s, playerId, x, y).session.availablePlayerIds == s.availablePlayerIds
    ensures Fire(s, playerId, x, y).session.shipsPlaced == s.shipsPlaced
  {
    var opp := Opponent(playerId);
    var t := Fire(s, playerId, x, y).session;
    if opp in s.playerShips {
      var f := s.playerShips[opp];
      assert Holds(s.clients, opp);
      match Aim(f, x, y)
      case AlreadyHit(_, _) =>
      case Miss =>
        MissFrame(s, playerId, opp, x, y);
      case Struck(i, j) =>
        StrikeFrame(s, playerId, opp, x, y, i, j);
        HitChangesOneCell(f, i, j);
        HitCountStep(f, i, j);
    }
  }

  /** The shot struck the last unhit cell of the opponent's fleet. */
  predicate WinningShot(s: Session, playerId: int, x: int, y: int) {
    var opp := Opponent(playerId);
    && opp in s.playerShips
    && Aim(s.playerShips[opp], x, y).Struck?
    && FleetDefeated(Hit(s.playerShips[opp], Aim(s.playerShips[opp], x, y).ship, Aim(s.playerShips[opp], x, y).cell))
  }

  /**
   * The turn after a shot: a rejected shot leaves it alone, the winning shot leaves it alone,
   * and every other resolved shot hands it to the opponent. A shot wins exactly when it leaves
   * every cell of the opponent's fleet hit.
   */
  lemma FireTurn(s: Session, playerId: int, x: int, y: int)
    requires Inv(s)
    ensures Fire(s, playerId, x, y).reply.Some? ==>
      Fire(s, playerId, x, y).session.currentPlayerTurn == s.currentPlayerTurn
    ensures Fire(s, playerId, x, y).reply.None? && WinningShot(s, playerId, x, y) ==>
      Fire(s, playerId, x, y).session.currentPlayerTurn == s.currentPlayerTurn
    ensures Fire(s, playerId, x, y).reply.None? && !WinningShot(s, playerId, x, y) ==>
      Fire(s, playerId, x, y).session.currentPlayerTurn == Opponent(playerId)
    ensures WinningShot(s, playerId, x, y) <==>
      Opponent(playerId) in s.playerShips && Aim(s.playerShips[Opponent(playerId)], x, y).Struck? &&
      HitCount(Fire(s, playerId, x, y).session.playerShips[Opponent(playerId)]) ==
        CellCount(s.playerShips[Opponent(playerId)])
  {
    var opp := Opponent(playerId);
    if opp in s.playerShips {
      var f := s.playerShips[opp];
      assert Holds(s.clients, opp);
      match Aim(f, x, y)
      case AlreadyHit(_, _) =>
      case Miss =>
        MissFrame(s, playerId, opp, x, y);
      case Struck(i, j) =>
        StrikeFrame(s, playerId, opp, x, y, i, j);
        HitCountStep(f, i, j);
        DefeatedIffAllHit(Hit(f, i, j));
    }
  }

  /**
   * The notices of a resolved shot between two connected players, in order. A miss: the miss
   * result to the shooter, the miss notice to the opponent, then NEXT_TURN to both. A hit: the
   * hit result and the hit notice, the two sunk notices if the struck ship is now sunk, then
   * GAME_OVER naming the shooter if the fleet is defeated, or NEXT_TURN to both otherwise.
   */
  lemma FireNotices(s: Session, playerId: int, x: int, y: int)
    requires Inv(s) && (playerId == 1 || playerId == 2) && Holds(s.clients, playerId)
    requires Opponent(playerId) in s.playerShips
    ensures var opp := Opponent(playerId);
      var fleet := s.playerShips[opp];
      var t := Fire(s, playerId, x, y).session;
      match Aim(fleet, x, y)
      case AlreadyHit(_, _) => t.sent == s.sent
      case Miss =>
        t.sent == s.sent + [Sent(playerId, FireResultMiss(x, y)), Sent(opp, OpponentMiss(x, y)),
                            Sent(1, NextTurn(opp)), Sent(2, NextTurn(opp))]
      case Struck(i, j) =>
        var after := Hit(fleet, i, j);
        var last := if FleetDefeated(after) then GameOver(playerId) else NextTurn(opp);
        t.sent == s.sent + [Sent(playerId, FireResultHit(x, y)), Sent(opp, OpponentHit(x, y))]
                         + (if IsSunk(after[i]) then [Sent(playerId, ShipSunk(fleet[i].name)), Sent(opp, YourShipSunk(fleet[i].name))] else [])
                         + [Sent(1, last), Sent(2, last)]
  {
    var opp := Opponent(playerId);
    assert Holds(s.clients, opp);
    var fleet := s.playerShips[opp];
    match Aim(fleet, x, y)
    case AlreadyHit(_, _) =>
    case Miss =>
      MissLog(s, playerId, x, y);
    case Struck(i, j) =>
      StrikeLog(s, playerId, x, y, i, j);
  }

  lemma BothConnected(s: Session, playerId: int, m: string)
    requires Inv(s) && (playerId == 1 || playerId == 2) && Holds(s.clients, playerId)
    requires Holds(s.clients, Opponent(playerId))
    ensures Deliver(s.clients, playerId, m) == [Sent(playerId, m)]
    ensures Deliver(s.clients, Opponent(playerId), m) == [Sent(Opponent(playerId), m)]
    ensures Broadcast(s.clients, m) == [Sent(1, m), Sent(2, m)]
  {
    assert Holds(s.clients, 1) && Holds(s.clients, 2);
  }

  lemma MissLog(s: Session, playerId: int, x: int, y: int)
    requires Inv(s) && (playerId == 1 || playerId == 2) && Holds(s.clients, playerId)
    requires Holds(s.clients, Opponent(playerId))
    ensures var opp := Opponent(playerId);
      MissNotices(s, playerId, opp, x, y).sent ==
        s.sent + [Sent(playerId, FireResultMiss(x, y)), Sent(opp, OpponentMiss(x, y)),
                  Sent(1, NextTurn(opp)), Sent(2, NextTurn(opp))]
  {
    var opp := Opponent(playerId);
    BothConnected(s, playerId, FireResultMiss(x, y));
    BothConnected(s, playerId, OpponentMiss(x, y));
    BothConnected(s, playerId, NextTurn(opp));
  }

  lemma StrikeLog(s: Session, playerId: int, x: int, y: int, i: nat, j: nat)
    requires Inv(s) && (playerId == 1 || playerId == 2) && Holds(s.clients, playerId)
    requires Opponent(playerId) in s.playerShips && Holds(s.clients, Opponent(playerId))
    requires i < |s.playerShips[Opponent(playerId)]| && j < |s.playerShips[Opponent(playerId)][i].cells|
    ensures var opp := Opponent(playerId);
      var fleet := s.playerShips[opp];
      var after := Hit(fleet, i, j);
      var last := if FleetDefeated(after) then GameOver(playerId) else NextTurn(opp);
      Strike(s, playerId, opp, x, y, i, j).sent ==
        s.sent + [Sent(playerId, FireResultHit(x, y)), Sent(opp, OpponentHit(x, y))]
               + (if IsSunk(after[i]) then [Sent(playerId, ShipSunk(fleet[i].name)), Sent(opp, YourShipSunk(fleet[i].name))] else [])
               + [Sent(1, last), Sent(2, last)]
  {
    var opp := Opponent(playerId);
    var fleet := s.playerShips[opp];
    var after := Hit(fleet, i, j);
    var last := if FleetDefeated(after) then GameOver(playerId) else NextTurn(opp);
    BothConnected(s, playerId, FireResultHit(x, y));
    BothConnected(s, playerId, OpponentHit(x, y));
    BothConnected(s, playerId, ShipSunk(fleet[i].name));
    BothConnected(s, playerId, YourShipSunk(fleet[i].name));
    BothConnected(s, playerId, last);
    var s1 := s.(playerShips := s.playerShips[opp := after]);
    var s2 := SendToClient(SendToClient(s1, playerId, FireResultHit(x, y)), opp, OpponentHit(x, y));
    assert s2.sent == s.sent + [Sent(playerId, FireResultHit(x, y)), Sent(opp, OpponentHit(x, y))];
    var s3 := if IsSunk(after[i])
              then SendToClient(SendToClient(s2, playerId, ShipSunk(fleet[i].name)), opp, YourShipSunk(fleet[i].name))
              else s2;
    assert s3.sent == s2.sent + (if IsSunk(after[i]) then [Sent(playerId, ShipSunk(fleet[i].name)), Sent(opp, YourShipSunk(fleet[i].name))] else []);
    assert s3.clients == s.clients;
    assert Strike(s, playerId, opp, x, y, i, j).sent == s3.sent + [Sent(1, last), Sent(2, last)];
  }

  /** A game-over announcement always comes with the sunk notices of the ship that was struck. */
  lemma WinningShotSinks(s: Session, playerId: int, x: int, y: int)
    requires WinningShot(s, playerId, x, y)
    ensures var f := s.playerShips[Opponent(playerId)];
      IsSunk(Hit(f, Aim(f, x, y).ship, Aim(f, x, y).cell)[Aim(f, x, y).ship])
  {
    var f := s.playerShips[Opponent(playerId)];
    DefeatSinksStruckShip(f, Aim(f, x, y).ship, Aim(f, x, y).cell);
  }

  /** The message was a decoded placement from the client holding `playerId`. */
  predicate PlacementBy(s: Session, message: string, clientId: int, decode: string -> JsonResult, playerId: int) {
    && clientId in s.clients && s.clients[clientId] == playerId && playerId != Spectator
    && StartsWith(message, ShipsPlacedPrefix)
    && decode(message[|ShipsPlacedPrefix|..]).Decoded?
  }

  /**
   * Every inbound message keeps the invariant and leaves the registry and the pool alone. The
   * unknown client's and the spectator's messages are answered with a fixed text and change
   * nothing, not even the log.
   */
  lemma ProcessKeepsInv(s: Session, message: string, clientId: int, decode: string -> JsonResult)
    requires Inv(s)
    ensures Inv(Process(s, message, clientId, decode).session)
    ensures Process(s, message, clientId, decode).session.clients == s.clients
    ensures Process(s, message, clientId, decode).session.availablePlayerIds == s.availablePlayerIds
    ensures clientId !in s.clients ==>
      Process(s, message, clientId, decode) == Processed(s, Reply(Some(InvalidClient)))
    ensures clientId in s.clients && s.clients[clientId] == Spectator ==>
      Process(s, message, clientId, decode) == Processed(s, Reply(Some(SpectatorReply)))
  {
    if clientId in s.clients && s.clients[clientId] != Spectator {
      var p := s.clients[clientId];
      PlayerIsOneOrTwo(s, clientId);
      if StartsWith(message, ShipsPlacedPrefix) {
        match decode(message[|ShipsPlacedPrefix|..])
        case Decoded(payload) =>
          PlaceReady(s, p, payload);
        case _ =>
      } else if StartsWith(message, FirePrefix) {
        match ParseFire(message)
        case Some((x, y)) =>
          FireKeepsInv(s, p, x, y);
          FireKeepsHits(s, p, x, y);
        case None =>
      }
    }
  }

  /**
   * The replies to a player's message that change nothing, not even the log: a null payload,
   * a `FIRE_` command that does not parse, and any other text, which is echoed back. A payload
   * the decoder throws on also leaves the state alone, and ends the connection in `Receive`.
   */
  lemma ProcessRejections(s: Session, message: string, clientId: int, decode: string -> JsonResult)
    requires clientId in s.clients && s.clients[clientId] != Spectator
    ensures StartsWith(message, ShipsPlacedPrefix) && decode(message[|ShipsPlacedPrefix|..]).JsonNull? ==>
      Process(s, message, clientId, decode) == Processed(s, Reply(Some(InvalidShipData)))
    ensures StartsWith(message, ShipsPlacedPrefix) && decode(message[|ShipsPlacedPrefix|..]).Malformed? ==>
      Process(s, message, clientId, decode) == Processed(s, Fault)
    ensures !StartsWith(message, ShipsPlacedPrefix) && StartsWith(message, FirePrefix) && ParseFire(message).None? ==>
      Process(s, message, clientId, decode) == Processed(s, Reply(Some(InvalidFire)))
    ensures !StartsWith(message, ShipsPlacedPrefix) && !StartsWith(message, FirePrefix) ==>
      Process(s, message, clientId, decode) == Processed(s, Reply(Some(Echo(s.clients[clientId], message))))
  {
  }

  /**
   * A hit is undone only by a fresh placement: after any inbound message every fleet is still
   * there and dominates its old self, except the fleet of the player whose placement it was.
   */
  lemma ProcessKeepsHits(s: Session, message: string, clientId: int, decode: string -> JsonResult)
    requires Inv(s)
    ensures forall q :: q in s.playerShips ==>
      && q in Process(s, message, clientId, decode).session.playerShips
      && (Dominates(s.playerShips[q], Process(s, message, clientId, decode).session.playerShips[q]) ||
          PlacementBy(s, message, clientId, decode, q))
  {
    var t := Process(s, message, clientId, decode).session;
    if clientId in s.clients && s.clients[clientId] != Spectator {
      var p := s.clients[clientId];
      PlayerIsOneOrTwo(s, clientId);
      if StartsWith(message, ShipsPlacedPrefix) {
        match decode(message[|ShipsPlacedPrefix|..])
        case Decoded(payload) =>
          PlaceReady(s, p, payload);
          assert PlacementBy(s, message, clientId, decode, p);
          assert forall q :: q in s.playerShips && q != p ==> t.playerShips[q] == s.playerShips[q];
        case _ =>
      } else if StartsWith(message, FirePrefix) {
        match ParseFire(message)
        case Some((x, y)) =>
          FireKeepsHits(s, p, x, y);
        case None =>
      }
    }
  }

  /** One read of `HandleClient` keeps the invariant, also when an exception closes the connection. */
  lemma ReceiveKeepsInv(s: Session, clientId: int, message: string, decode: string -> JsonResult)
    requires Inv(s)
    ensures Inv(Receive(s, clientId, message, decode).session)
    ensures Receive(s, clientId, message, decode).closed ==>
      clientId in s.clients && Receive(s, clientId, message, decode).session == Disconnect(s, clientId)
  {
    ProcessKeepsInv(s, message, clientId, decode);
    DisconnectKeepsInv(s, clientId);
  }
}
