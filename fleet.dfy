/**
 * Ships, cells and fleets (Program.cs:302-328), the fleet built from a placement payload
 * (Program.cs:149-154), the scan that finds the cell a shot lands on (Program.cs:205-207) and
 * the sunk and defeated predicates (Program.cs:219, 222).
 */
module Fleet {
  import opened Wrappers

  /** The decoded JSON of one cell and one ship of a `SHIPSPLACED_` payload. */
  datatype CellData = CellData(x: int, y: int)
  datatype ShipData = ShipData(name: string, cells: seq<CellData>)

  /** The server's own records; `isHit` is the only thing that changes during play. */
  datatype Cell = Cell(x: int, y: int, isHit: bool)
  datatype Ship = Ship(name: string, size: int, cells: seq<Cell>)

  /** A shot at (x, y), resolved against the fleet it aims at. */
  datatype Shot =
    | Miss
    | AlreadyHit(ship: nat, cell: nat)
    | Struck(ship: nat, cell: nat)

  function BuildShip(sd: ShipData): Ship {
    Ship(sd.name, |sd.cells|,
         seq(|sd.cells|, j requires 0 <= j < |sd.cells| => Cell(sd.cells[j].x, sd.cells[j].y, false)))
  }

  /** The fleet stored for a player on a placement: one ship per entry of the payload, in order. */
  function BuildFleet(payload: seq<ShipData>): (fleet: seq<Ship>)
    ensures |fleet| == |payload|
    ensures forall i :: 0 <= i < |fleet| ==>
      fleet[i].name == payload[i].name &&
      fleet[i].size == |fleet[i].cells| == |payload[i].cells| &&
      forall j :: 0 <= j < |fleet[i].cells| ==>
        fleet[i].cells[j] == Cell(payload[i].cells[j].x, payload[i].cells[j].y, false)
  {
    seq(|payload|, i requires 0 <= i < |payload| => BuildShip(payload[i]))
  }

  /** What a fleet says about where its ships are, forgetting which cells are hit. */
  function LayoutOf(ship: Ship): ShipData {
    ShipData(ship.name, seq(|ship.cells|, j requires 0 <= j < |ship.cells| => CellData(ship.cells[j].x, ship.cells[j].y)))
  }

  function Layout(fleet: seq<Ship>): seq<ShipData> {
    seq(|fleet|, i requires 0 <= i < |fleet| => LayoutOf(fleet[i]))
  }

  /** The fleet built from a payload lays the ships out exactly as the payload does. */
  lemma LayoutOfBuildFleet(payload: seq<ShipData>)
    ensures Layout(BuildFleet(payload)) == payload
  {
    var fleet := BuildFleet(payload);
    forall i | 0 <= i < |payload|
      ensures LayoutOf(fleet[i]) == payload[i]
    {
      assert LayoutOf(fleet[i]).cells == payload[i].cells;
    }
  }

  predicate At(c: Cell, x: int, y: int) {
    c.x == x && c.y == y
  }

  /** `ship.Cells.FirstOrDefault(c => c.X == x && c.Y == y)`, as an index. */
  function FirstCellAt(cells: seq<Cell>, x: int, y: int): (r: Option<nat>)
    ensures r.Some? ==> r.value < |cells| && At(cells[r.value], x, y)
    ensures r.Some? ==> forall k :: 0 <= k < r.value ==> !At(cells[k], x, y)
    ensures r.None? ==> forall k :: 0 <= k < |cells| ==> !At(cells[k], x, y)
    decreases |cells|
  {
    if cells == [] then None
    else if At(cells[0], x, y) then Some(0)
    else match FirstCellAt(cells[1..], x, y)
      case None => None
      case Some(k) => Some(k + 1)
  }

  /** The first ship at index `from` or later that has a cell at (x, y), with that cell's index. */
  function LocateFrom(fleet: seq<Ship>, x: int, y: int, from: nat): (r: Option<(nat, nat)>)
    requires from <= |fleet|
    ensures r.Some? ==> from <= r.value.0 < |fleet| && FirstCellAt(fleet[r.value.0].cells, x, y) == Some(r.value.1)
    ensures r.Some? ==> forall i :: from <= i < r.value.0 ==> FirstCellAt(fleet[i].cells, x, y).None?
    ensures r.None? ==> forall i :: from <= i < |fleet| ==> FirstCellAt(fleet[i].cells, x, y).None?
    decreases |fleet| - from
  {
    if from == |fleet| then None
    else match FirstCellAt(fleet[from].cells, x, y)
      case Some(j) => Some((from, j))
      case None => LocateFrom(fleet, x, y, from + 1)
  }

  /**
   * Where a shot at (x, y) lands: the first matching cell of the first ship that has one. Only
   * that cell decides the outcome, even if a later ship overlaps it.
   */
  function Aim(fleet: seq<Ship>, x: int, y: int): (r: Shot)
    ensures r.Miss? <==> forall i, j :: 0 <= i < |fleet| && 0 <= j < |fleet[i].cells| ==> !At(fleet[i].cells[j], x, y)
    ensures !r.Miss? ==> r.ship < |fleet| && r.cell < |fleet[r.ship].cells| && At(fleet[r.ship].cells[r.cell], x, y)
    ensures !r.Miss? ==> (r.Struck? <==> !fleet[r.ship].cells[r.cell].isHit)
    ensures !r.Miss? ==> forall i, j :: 0 <= i < r.ship && 0 <= j < |fleet[i].cells| ==> !At(fleet[i].cells[j], x, y)
    ensures !r.Miss? ==> forall j :: 0 <= j < r.cell ==> !At(fleet[r.ship].cells[j], x, y)
  {
    match LocateFrom(fleet, x, y, 0)
    case None =>
      assert forall i, j :: 0 <= i < |fleet| && 0 <= j < |fleet[i].cells| ==> !At(fleet[i].cells[j], x, y) by {
        forall i, j | 0 <= i < |fleet| && 0 <= j < |fleet[i].cells| ensures !At(fleet[i].cells[j], x, y) {
          assert FirstCellAt(fleet[i].cells, x, y).None?;
        }
      }
      Miss
    case Some((i, j)) =>
      assert forall i', j' :: 0 <= i' < i && 0 <= j' < |fleet[i'].cells| ==> !At(fleet[i'].cells[j'], x, y) by {
        forall i', j' | 0 <= i' < i && 0 <= j' < |fleet[i'].cells| ensures !At(fleet[i'].cells[j'], x, y) {
          assert FirstCellAt(fleet[i'].cells, x, y).None?;
        }
      }
      if fleet[i].cells[j].isHit then AlreadyHit(i, j) else Struck(i, j)
  }

  /** `cell.IsHit = true` on cell `j` of ship `i`. */
  function Hit(fleet: seq<Ship>, i: nat, j: nat): (r: seq<Ship>)
    requires i < |fleet| && j < |fleet[i].cells|
    ensures |r| == |fleet| && forall k :: 0 <= k < |r| ==> |r[k].cells| == |fleet[k].cells|
    ensures r[i].cells[j].isHit
  {
    fleet[i := fleet[i].(cells := fleet[i].cells[j := fleet[i].cells[j].(isHit := true)])]
  }

  /** `ship.Cells.All(c => c.IsHit)`; a ship with no cells counts as sunk. */
  predicate IsSunk(ship: Ship) {
    forall j :: 0 <= j < |ship.cells| ==> ship.cells[j].isHit
  }

  /** `opponentShips.All(s => s.Cells.All(c => c.IsHit))`. */
  predicate FleetDefeated(fleet: seq<Ship>) {
    forall i :: 0 <= i < |fleet| ==> IsSunk(fleet[i])
  }

  /**
   * `after` is `before` with possibly more cells hit: same ships, names, sizes and coordinates,
   * and no hit undone.
   */
  predicate Dominates(before: seq<Ship>, after: seq<Ship>) {
    && |after| == |before|
    && (forall i :: 0 <= i < |before| ==> |after[i].cells| == |before[i].cells|)
    && Layout(after) == Layout(before)
    && (forall i :: 0 <= i < |before| ==> after[i].size == before[i].size)
    && (forall i, j :: 0 <= i < |before| && 0 <= j < |before[i].cells| && before[i].cells[j].isHit ==>
          after[i].cells[j].isHit)
  }

  /**
   * A hit changes exactly one cell's flag, from unhit to hit where it was unhit, and nothing
   * else: every other cell, every name, size and coordinate stays as it was.
   */
  lemma HitChangesOneCell(fleet: seq<Ship>, i: nat, j: nat)
    requires i < |fleet| && j < |fleet[i].cells|
    ensures Dominates(fleet, Hit(fleet, i, j))
    ensures forall k, c :: 0 <= k < |fleet| && 0 <= c < |fleet[k].cells| && (k, c) != (i, j) ==>
      Hit(fleet, i, j)[k].cells[c] == fleet[k].cells[c]
    ensures Hit(fleet, i, j)[i].cells[j] == fleet[i].cells[j].(isHit := true)
  {
    var after := Hit(fleet, i, j);
    assert |Layout(after)| == |Layout(fleet)|;
    forall k | 0 <= k < |fleet| ensures Layout(after)[k] == Layout(fleet)[k] {
      assert LayoutOf(after[k]).cells == LayoutOf(fleet[k]).cells;
    }
  }

  function CellsHit(cells: seq<Cell>): nat
    decreases |cells|
  {
    if cells == [] then 0 else (if cells[0].isHit then 1 else 0) + CellsHit(cells[1..])
  }

  /** The number of hit cells in a fleet. */
  function HitCount(fleet: seq<Ship>): nat
    decreases |fleet|
  {
    if fleet == [] then 0 else CellsHit(fleet[0].cells) + HitCount(fleet[1..])
  }

  /** The number of cells in a fleet. */
  function CellCount(fleet: seq<Ship>): nat
    decreases |fleet|
  {
    if fleet == [] then 0 else |fleet[0].cells| + CellCount(fleet[1..])
  }

  lemma {:induction false} CellsHitStep(cells: seq<Cell>, j: nat)
    requires j < |cells| && !cells[j].isHit
    ensures CellsHit(cells[j := cells[j].(isHit := true)]) == CellsHit(cells) + 1
    decreases |cells|
  {
    var after := cells[j := cells[j].(isHit := true)];
    if j > 0 {
      assert after[1..] == cells[1..][j - 1 := cells[j].(isHit := true)];
      CellsHitStep(cells[1..], j - 1);
    } else {
      assert after[1..] == cells[1..];
    }
  }

  /** Every successful hit adds exactly one to the fleet's hit count. */
  lemma {:induction false} HitCountStep(fleet: seq<Ship>, i: nat, j: nat)
    requires i < |fleet| && j < |fleet[i].cells| && !fleet[i].cells[j].isHit
    ensures HitCount(Hit(fleet, i, j)) == HitCount(fleet) + 1
    ensures CellCount(Hit(fleet, i, j)) == CellCount(fleet)
    decreases |fleet|
  {
    var after := Hit(fleet, i, j);
    if i > 0 {
      assert after[1..] == Hit(fleet[1..], i - 1, j);
      HitCountStep(fleet[1..], i - 1, j);
    } else {
      assert after[1..] == fleet[1..];
      CellsHitStep(fleet[0].cells, j);
    }
  }

  lemma {:induction false} CellsHitBound(cells: seq<Cell>)
    ensures CellsHit(cells) <= |cells|
    ensures CellsHit(cells) == |cells| <==> forall j :: 0 <= j < |cells| ==> cells[j].isHit
    decreases |cells|
  {
    if cells != [] {
      CellsHitBound(cells[1..]);
      assert forall j :: 1 <= j < |cells| ==> cells[j] == cells[1..][j - 1];
    }
  }

  /**
   * The hit count never exceeds the number of cells, and a fleet is defeated exactly when every
   * one of its cells is hit.
   */
  lemma {:induction false} DefeatedIffAllHit(fleet: seq<Ship>)
    ensures HitCount(fleet) <= CellCount(fleet)
    ensures FleetDefeated(fleet) <==> HitCount(fleet) == CellCount(fleet)
    decreases |fleet|
  {
    if fleet != [] {
      DefeatedIffAllHit(fleet[1..]);
      CellsHitBound(fleet[0].cells);
      assert forall i :: 1 <= i < |fleet| ==> fleet[i] == fleet[1..][i - 1];
    }
  }

  /** Every cell of a freshly built fleet is unhit. */
  lemma {:induction false} BuildFleetUnhit(payload: seq<ShipData>)
    ensures HitCount(BuildFleet(payload)) == 0
    decreases |payload|
  {
    var fleet := BuildFleet(payload);
    if payload != [] {
      assert fleet[1..] == BuildFleet(payload[1..]);
      BuildFleetUnhit(payload[1..]);
      CellsHitBound(fleet[0].cells);
      CellsNoneHit(fleet[0].cells);
    }
  }

  lemma {:induction false} CellsNoneHit(cells: seq<Cell>)
    requires forall j :: 0 <= j < |cells| ==> !cells[j].isHit
    ensures CellsHit(cells) == 0
    decreases |cells|
  {
    if cells != [] {
      CellsNoneHit(cells[1..]);
    }
  }

  /** The shot that defeats a fleet also sinks the ship it hit. */
  lemma DefeatSinksStruckShip(fleet: seq<Ship>, i: nat, j: nat)
    requires i < |fleet| && j < |fleet[i].cells|
    requires FleetDefeated(Hit(fleet, i, j))
    ensures IsSunk(Hit(fleet, i, j)[i])
  {
  }
}
