/**
 * The client registry (`clients`, clientId -> PlayerId), the player-slot pool
 * (`availablePlayerIds`, Program.cs:19-21) and the notifier that appends to the outbound log
 * (`SendMessageToClient`, `SendMessageToPlayers`, Program.cs:263-287).
 */
module Registry {
  /** The player id of a connection that found the slot pool empty. */
  const Spectator: int := -1

  /** One message written to the connection of the client holding `playerId`. */
  datatype Sent = Sent(playerId: int, message: string)

  /** Some client holds `playerId`: `clients.Values.Any(c => c.PlayerId == playerId)`. */
  predicate Holds(clients: map<int, int>, playerId: int) {
    exists c :: c in clients && clients[c] == playerId
  }

  /** The clients that hold a player slot. */
  function NonSpectators(clients: map<int, int>): set<int> {
    set c | c in clients && clients[c] != Spectator
  }

  /**
   * The slot invariant: every id in the pool is 1 or 2 and appears once; every client holds 1,
   * 2 or the spectator id; no two clients hold the same slot; and each of 1 and 2 is either in
   * the pool or held by a client, never both.
   */
  predicate SlotsValid(pool: seq<int>, clients: map<int, int>) {
    && (forall i :: 0 <= i < |pool| ==> pool[i] == 1 || pool[i] == 2)
    && (forall i, j :: 0 <= i < j < |pool| ==> pool[i] != pool[j])
    && (forall c :: c in clients ==> clients[c] == Spectator || clients[c] == 1 || clients[c] == 2)
    && (forall c, d :: c in clients && d in clients && c != d && clients[c] != Spectator ==> clients[c] != clients[d])
    && (forall i :: 0 <= i < |pool| ==> !Holds(clients, pool[i]))
    && (1 in pool || Holds(clients, 1))
    && (2 in pool || Holds(clients, 2))
  }

  /** `SendMessageToClient`: one entry if some client holds `playerId`, none otherwise. */
  function Deliver(clients: map<int, int>, playerId: int, message: string): (log: seq<Sent>)
    ensures |log| <= 1
    ensures log != [] <==> Holds(clients, playerId)
    ensures log != [] ==> log[0] == Sent(playerId, message)
  {
    if Holds(clients, playerId) then [Sent(playerId, message)] else []
  }

  /**
   * `SendMessageToPlayers`: one entry per client that is not a spectator. The model writes the
   * entries in ascending player id.
   */
  function Broadcast(clients: map<int, int>, message: string): seq<Sent> {
    Deliver(clients, 1, message) + Deliver(clients, 2, message)
  }

  /**
   * Under the slot invariant a broadcast reaches every non-spectator client exactly once and no
   * one else: each entry carries the message, each player client gets an entry, entries go to
   * distinct players that hold a slot, and there are as many entries as player clients.
   */
  lemma BroadcastOncePerPlayer(pool: seq<int>, clients: map<int, int>, message: string)
    requires SlotsValid(pool, clients)
    ensures forall k :: 0 <= k < |Broadcast(clients, message)| ==>
      Broadcast(clients, message)[k].message == message &&
      Holds(clients, Broadcast(clients, message)[k].playerId) &&
      Broadcast(clients, message)[k].playerId != Spectator
    ensures forall c :: c in NonSpectators(clients) ==> Sent(clients[c], message) in Broadcast(clients, message)
    ensures forall k, l :: 0 <= k < l < |Broadcast(clients, message)| ==>
      Broadcast(clients, message)[k].playerId != Broadcast(clients, message)[l].playerId
    ensures |Broadcast(clients, message)| == |NonSpectators(clients)|
  {
    var players := NonSpectators(clients);
    forall c | c in players ensures Holds(clients, clients[c]) && (clients[c] == 1 || clients[c] == 2) {
      assert c in clients && clients[c] == clients[c];
    }
    if Holds(clients, 1) && Holds(clients, 2) {
      var c1 := HolderOf(clients, 1);
      var c2 := HolderOf(clients, 2);
      forall c | c in players ensures c == c1 || c == c2 {
        assert clients[c] == clients[c1] || clients[c] == clients[c2];
      }
      assert players == {c1, c2};
    } else if Holds(clients, 1) {
      var c1 := HolderOf(clients, 1);
      forall c | c in players ensures c == c1 {
        assert clients[c] == clients[c1];
      }
      assert players == {c1};
    } else if Holds(clients, 2) {
      var c2 := HolderOf(clients, 2);
      forall c | c in players ensures c == c2 {
        assert clients[c] == clients[c2];
      }
      assert players == {c2};
    } else {
      assert players == {};
    }
  }

  /** The client that holds a held player id. */
  lemma HolderOf(clients: map<int, int>, playerId: int) returns (c: int)
    requires Holds(clients, playerId)
    ensures c in clients && clients[c] == playerId
  {
    c :| c in clients && clients[c] == playerId;
  }
}
