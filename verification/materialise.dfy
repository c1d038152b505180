/**
 The placement decisions of `LevelGenerator.Start`: one row-major sweep over
 the finished map (`z` outer, `x` inner) that, for every cell, emits three
 wall blocks over a wall, moves the player onto the first open cell, and lays
 a floor tile and (with the roof on) a ceiling tile wherever `x % 3 != 0 ||
 z % 3 != 0`; after the sweep the pickup is spawned over the carving cursor.
 The engine calls become abstract placement records.
 */
module Materialiser {
  import opened MazeGrid

  datatype Kind = WallBlock | FloorTile | CeilingTile | PlayerSpawn | PickupSpawn

  /** One decision: what is placed at world position `(x, y, z)`. */
  datatype Placement = Placement(kind: Kind, x: int, y: int, z: int)

  /** Floor and ceiling tiles are left out where both coordinates are multiples of 3. */
  predicate Tiled(x: int, z: int) {
    x % 3 != 0 || z % 3 != 0
  }

  /** Cell `(z', x')` comes strictly before cell `(z, x)` in the sweep. */
  predicate Before(z': int, x': int, z: int, x: int) {
    z' < z || (z' == z && x' < x)
  }

  predicate InGrid(n: int, z: int, x: int) {
    0 <= z < n && 0 <= x < n
  }

  /** Row `z` has an open cell among its first `x` cells. */
  predicate RowOpenBefore(g: Grid, n: int, z: int, x: int)
    requires IsSquare(g, n) && 0 <= z < n && 0 <= x <= n
  {
    exists c :: 0 <= c < x && !g[z][c]
  }

  /** Taking one more cell of row `z` into account. */
  lemma RowOpenStep(g: Grid, n: int, z: int, x: int)
    requires IsSquare(g, n) && InGrid(n, z, x)
    ensures RowOpenBefore(g, n, z, x + 1) <==> RowOpenBefore(g, n, z, x) || !g[z][x]
  {
    if RowOpenBefore(g, n, z, x + 1) && g[z][x] {
      var c :| 0 <= c < x + 1 && !g[z][c];
      assert c != x;
    }
  }

  /** What the sweep places independently of the player flag, stated cell by cell: wall blocks at heights
      1 to 3 over walls, a floor at height 0 and, with the roof on, a ceiling at height 4 on tiled cells. */
  predicate Decided(g: Grid, n: int, roof: bool, p: Placement)
    requires IsSquare(g, n)
  {
    InGrid(n, p.z, p.x) &&
    match p.kind
    case WallBlock => g[p.z][p.x] && 1 <= p.y <= 3
    case FloorTile => p.y == 0 && Tiled(p.x, p.z)
    case CeilingTile => p.y == 4 && roof && Tiled(p.x, p.z)
    case PlayerSpawn => false
    case PickupSpawn => false
  }

  /** `(x, z)` is the first open cell at or after `(z0, x0)` in sweep order. */
  ghost predicate FirstOpenFrom(g: Grid, n: int, z0: int, x0: int, z: int, x: int)
    requires IsSquare(g, n)
  {
    InGrid(n, z, x) && !Before(z, x, z0, x0) && !g[z][x] &&
    forall z', x' :: InGrid(n, z', x') && !Before(z', x', z0, x0) && Before(z', x', z, x) ==> g[z'][x']
  }

  /** No cell at or after `(z0, x0)` is open. */
  ghost predicate NoOpenFrom(g: Grid, n: int, z0: int, x0: int)
    requires IsSquare(g, n)
  {
    forall z', x' :: InGrid(n, z', x') && !Before(z', x', z0, x0) ==> g[z'][x']
  }

  /** The player placements among `ps`, in order. */
  function Players(ps: seq<Placement>): (qs: seq<Placement>)
    ensures forall q :: q in qs ==> q in ps && q.kind == PlayerSpawn
  {
    if |ps| == 0 then []
    else (if ps[0].kind == PlayerSpawn then [ps[0]] else []) + Players(ps[1..])
  }

  lemma {:induction false} PlayersConcat(a: seq<Placement>, b: seq<Placement>)
    ensures Players(a + b) == Players(a) + Players(b)
  {
    if |a| == 0 {
      assert a + b == b;
    } else {
      assert (a + b)[1..] == a[1..] + b;
      PlayersConcat(a[1..], b);
    }
  }

  lemma {:induction false} PlayersNone(ps: seq<Placement>)
    requires forall i :: 0 <= i < |ps| ==> ps[i].kind != PlayerSpawn
    ensures Players(ps) == []
  {
    if |ps| > 0 {
      PlayersNone(ps[1..]);
    }
  }

  /** The body of the inner loop for cell `(x, z)`: its placements and the new `characterPlaced`. */
  function CellPlacements(g: Grid, n: int, roof: bool, z: int, x: int, placed: bool): (r: (seq<Placement>, bool))
    requires IsSquare(g, n) && InGrid(n, z, x)
    ensures r.1 <==> placed || !g[z][x]
    ensures forall p :: p in r.0 ==> p.z == z && p.x == x && p.kind != PickupSpawn
  {
    var body :=
      if g[z][x] then [Placement(WallBlock, x, 1, z), Placement(WallBlock, x, 2, z), Placement(WallBlock, x, 3, z)]
      else if !placed then [Placement(PlayerSpawn, x, 1, z)]
      else [];
    var floor := if Tiled(x, z) then [Placement(FloorTile, x, 0, z)] else [];
    var ceiling := if roof && Tiled(x, z) then [Placement(CeilingTile, x, 4, z)] else [];
    (body + floor + ceiling, placed || !g[z][x])
  }

  /** Everything a cell decides lies on that cell, and apart from the player it is exactly what `Decided`
      allows there. */
  lemma CellDecided(g: Grid, n: int, roof: bool, z: int, x: int, placed: bool, p: Placement)
    requires IsSquare(g, n) && InGrid(n, z, x)
    ensures p in CellPlacements(g, n, roof, z, x, placed).0 ==> p.z == z && p.x == x
    ensures p.kind != PlayerSpawn && p.z == z && p.x == x ==>
              (p in CellPlacements(g, n, roof, z, x, placed).0 <==> Decided(g, n, roof, p))
  {
  }

  /** A cell moves the player onto itself exactly when it is open and the player is not yet placed. */
  lemma CellPlayers(g: Grid, n: int, roof: bool, z: int, x: int, placed: bool)
    requires IsSquare(g, n) && InGrid(n, z, x)
    ensures Players(CellPlacements(g, n, roof, z, x, placed).0) ==
            if !placed && !g[z][x] then [Placement(PlayerSpawn, x, 1, z)] else []
  {
    var ps := CellPlacements(g, n, roof, z, x, placed).0;
    if !placed && !g[z][x] {
      assert ps == [Placement(PlayerSpawn, x, 1, z)] + ps[1..];
      PlayersConcat([Placement(PlayerSpawn, x, 1, z)], ps[1..]);
      PlayersNone(ps[1..]);
      assert Players([Placement(PlayerSpawn, x, 1, z)]) == [Placement(PlayerSpawn, x, 1, z)] + Players([]);
    } else {
      PlayersNone(ps);
    }
  }

  /** The sweep from cell `(z, x)` onward, with the player flag `placed`. */
  function SweepFrom(g: Grid, n: int, roof: bool, z: int, x: int, placed: bool): seq<Placement>
    requires IsSquare(g, n) && 0 <= z <= n && 0 <= x <= n
    decreases n - z, n - x
  {
    if z == n then []
    else if x == n then SweepFrom(g, n, roof, z + 1, 0, placed)
    else
      var cell := CellPlacements(g, n, roof, z, x, placed);
      cell.0 + SweepFrom(g, n, roof, z, x + 1, cell.1)
  }

  /** One step of the sweep: a cell inside the row, or the move to the next row. */
  lemma SweepFromUnfold(g: Grid, n: int, roof: bool, z: int, x: int, placed: bool)
    requires IsSquare(g, n) && 0 <= z < n && 0 <= x <= n
    ensures x == n ==> SweepFrom(g, n, roof, z, x, placed) == SweepFrom(g, n, roof, z + 1, 0, placed)
    ensures x < n ==> SweepFrom(g, n, roof, z, x, placed) ==
                      CellPlacements(g, n, roof, z, x, placed).0 +
                      SweepFrom(g, n, roof, z, x + 1, CellPlacements(g, n, roof, z, x, placed).1)
  {
  }

  /** Appending one cell's placements to what the sweep has emitted so far leaves the rest of the sweep to
      emit from the next cell. */
  lemma SweepFromAccumulate(g: Grid, n: int, roof: bool, z: int, x: int, placed: bool, acc: seq<Placement>)
    requires IsSquare(g, n) && 0 <= z < n && 0 <= x < n
    ensures var cell := CellPlacements(g, n, roof, z, x, placed);
            (acc + cell.0) + SweepFrom(g, n, roof, z, x + 1, cell.1) == acc + SweepFrom(g, n, roof, z, x, placed)
  {
    SweepFromUnfold(g, n, roof, z, x, placed);
  }

  /** Every record of the sweep from `(z, x)` lies on a cell of the map at or after `(z, x)` and is not the
      pickup. */
  ghost predicate CellsFrom(g: Grid, n: int, roof: bool, z: int, x: int, placed: bool)
    requires IsSquare(g, n) && 0 <= z <= n && 0 <= x <= n
  {
    forall p :: p in SweepFrom(g, n, roof, z, x, placed) ==>
      InGrid(n, p.z, p.x) && !Before(p.z, p.x, z, x) && p.kind != PickupSpawn
  }

  /** The sweep from `(z, x)` only places records on the cells of the map it has not yet passed, and never
      the pickup. */
  lemma {:induction false} SweepFromCells(g: Grid, n: int, roof: bool, z: int, x: int, placed: bool)
    requires IsSquare(g, n) && 0 <= z <= n && 0 <= x <= n
    ensures CellsFrom(g, n, roof, z, x, placed)
    decreases n - z, n - x, 2
  {
    if z == n {
      assert SweepFrom(g, n, roof, z, x, placed) == [];
    } else if x == n {
      RowEndCells(g, n, roof, z, placed);
    } else {
      CellStepCells(g, n, roof, z, x, placed);
    }
  }

  /** The induction step of `SweepFromCells` at the end of row `z`. */
  lemma {:induction false} RowEndCells(g: Grid, n: int, roof: bool, z: int, placed: bool)
    requires IsSquare(g, n) && 0 <= z < n
    ensures CellsFrom(g, n, roof, z, n, placed)
    decreases n - z, 0, 1
  {
    SweepFromCells(g, n, roof, z + 1, 0, placed);
    assert SweepFrom(g, n, roof, z, n, placed) == SweepFrom(g, n, roof, z + 1, 0, placed);
  }

  /** The induction step of `SweepFromCells` at cell `(z, x)`. */
  lemma {:induction false} CellStepCells(g: Grid, n: int, roof: bool, z: int, x: int, placed: bool)
    requires IsSquare(g, n) && InGrid(n, z, x)
    ensures CellsFrom(g, n, roof, z, x, placed)
    decreases n - z, n - x, 1
  {
    SweepFromCells(g, n, roof, z, x + 1, placed || !g[z][x]);
    SweepFromUnfold(g, n, roof, z, x, placed);
  }

  /** The whole sweep, starting with no player placed: records on the map's cells only, and no pickup. */
  function Sweep(g: Grid, n: int, roof: bool): (r: seq<Placement>)
    requires IsSquare(g, n)
    ensures forall p :: p in r ==> InGrid(n, p.z, p.x) && p.kind != PickupSpawn
  {
    SweepFromCells(g, n, roof, 0, 0, false);
    SweepFrom(g, n, roof, 0, 0, false)
  }

  // ---------------------------------------------------------------- lemmas

  /** Apart from the player, a cell emits each record `Decided` allows on it exactly once, and nothing else. */
  lemma CellCount(g: Grid, n: int, roof: bool, z: int, x: int, placed: bool, p: Placement)
    requires IsSquare(g, n) && InGrid(n, z, x) && p.kind != PlayerSpawn
    ensures multiset(CellPlacements(g, n, roof, z, x, placed).0)[p] ==
            if p.z == z && p.x == x && Decided(g, n, roof, p) then 1 else 0
  {
    // One case per shape of the cell's record list: untiled, wall, open after the player, open with the player.
    if !Tiled(x, z) {
    } else if g[z][x] {
    } else if placed {
    } else {
    }
  }

  /** What `SweepFromCount` promises of the sweep from `(z, x)` for the record `p`. */
  ghost predicate CountsFrom(g: Grid, n: int, roof: bool, z: int, x: int, placed: bool, p: Placement)
    requires IsSquare(g, n) && 0 <= z <= n && 0 <= x <= n
  {
    multiset(SweepFrom(g, n, roof, z, x, placed))[p] == if Decided(g, n, roof, p) && !Before(p.z, p.x, z, x) then 1 else 0
  }

  /** Past the last row the sweep emits nothing, and no cell is left. */
  lemma CountPastEnd(g: Grid, n: int, roof: bool, x: int, placed: bool, p: Placement)
    requires IsSquare(g, n) && 0 <= x <= n && p.kind != PlayerSpawn
    ensures CountsFrom(g, n, roof, n, x, placed, p)
  {
    assert SweepFrom(g, n, roof, n, x, placed) == [];
  }

  /** The sweep from cell `(z, x)` keeps the count given that the sweep from the next cell does. */
  lemma CountsFromCellStep(g: Grid, n: int, roof: bool, z: int, x: int, placed: bool, p: Placement)
    requires IsSquare(g, n) && InGrid(n, z, x) && p.kind != PlayerSpawn
    requires CountsFrom(g, n, roof, z, x + 1, placed || !g[z][x], p)
    ensures CountsFrom(g, n, roof, z, x, placed, p)
  {
    var cell := CellPlacements(g, n, roof, z, x, placed);
    var rest := SweepFrom(g, n, roof, z, x + 1, cell.1);
    SweepFromUnfold(g, n, roof, z, x, placed);
    CellCount(g, n, roof, z, x, placed, p);
    assert multiset(cell.0 + rest) == multiset(cell.0) + multiset(rest);
  }

  /** The sweep from the end of row `z` keeps the count given that the sweep from the start of row `z + 1`
      does. */
  lemma CountsFromRowEnd(g: Grid, n: int, roof: bool, z: int, placed: bool, p: Placement)
    requires IsSquare(g, n) && 0 <= z < n && p.kind != PlayerSpawn
    requires CountsFrom(g, n, roof, z + 1, 0, placed, p)
    ensures CountsFrom(g, n, roof, z, n, placed, p)
  {
    SweepFromUnfold(g, n, roof, z, n, placed);
  }

  /** Apart from the player, the sweep from `(z, x)` emits every record `Decided` allows on the cells at or
      after `(z, x)` exactly once, and nothing else, whatever the player flag. */
  lemma {:induction false} SweepFromCount(g: Grid, n: int, roof: bool, z: int, x: int, placed: bool, p: Placement)
    requires IsSquare(g, n) && 0 <= z <= n && 0 <= x <= n
    requires p.kind != PlayerSpawn
    ensures CountsFrom(g, n, roof, z, x, placed, p)
    decreases n - z, n - x, 2
  {
    if z == n {
      CountPastEnd(g, n, roof, x, placed, p);
    } else if x == n {
      RowEndCount(g, n, roof, z, placed, p);
    } else {
      CellStepCount(g, n, roof, z, x, placed, p);
    }
  }

  /** The induction step of `SweepFromCount` at the end of row `z`. */
  lemma {:induction false} RowEndCount(g: Grid, n: int, roof: bool, z: int, placed: bool, p: Placement)
    requires IsSquare(g, n) && 0 <= z < n && p.kind != PlayerSpawn
    ensures CountsFrom(g, n, roof, z, n, placed, p)
    decreases n - z, 0, 1
  {
    SweepFromCount(g, n, roof, z + 1, 0, placed, p);
    CountsFromRowEnd(g, n, roof, z, placed, p);
  }

  /** The induction step of `SweepFromCount` at cell `(z, x)`. */
  lemma {:induction false} CellStepCount(g: Grid, n: int, roof: bool, z: int, x: int, placed: bool, p: Placement)
    requires IsSquare(g, n) && InGrid(n, z, x) && p.kind != PlayerSpawn
    ensures CountsFrom(g, n, roof, z, x, placed, p)
    decreases n - z, n - x, 1
  {
    SweepFromCount(g, n, roof, z, x + 1, placed || !g[z][x], p);
    CountsFromCellStep(g, n, roof, z, x, placed, p);
  }

  /** Apart from the player, the sweep from `(z, x)` places exactly what `Decided` allows on the cells at
      or after `(z, x)`, whatever the player flag. */
  lemma SweepFromDecided(g: Grid, n: int, roof: bool, z: int, x: int, placed: bool, p: Placement)
    requires IsSquare(g, n) && 0 <= z <= n && 0 <= x <= n
    requires p.kind != PlayerSpawn
    ensures p in SweepFrom(g, n, roof, z, x, placed) <==> Decided(g, n, roof, p) && !Before(p.z, p.x, z, x)
  {
    SweepFromCount(g, n, roof, z, x, placed, p);
    assert p in SweepFrom(g, n, roof, z, x, placed) <==> p in multiset(SweepFrom(g, n, roof, z, x, placed));
  }

  /** Moving past the end of row `z` changes nothing about which open cells remain. */
  lemma OpenFromRowEnd(g: Grid, n: int, z: int, a: int, b: int)
    requires IsSquare(g, n) && 0 <= z < n
    ensures NoOpenFrom(g, n, z, n) == NoOpenFrom(g, n, z + 1, 0)
    ensures FirstOpenFrom(g, n, z, n, a, b) == FirstOpenFrom(g, n, z + 1, 0, a, b)
  {
  }

  /** Moving past a wall cell changes nothing about which open cells remain. */
  lemma OpenFromWallCell(g: Grid, n: int, z: int, x: int, a: int, b: int)
    requires IsSquare(g, n) && InGrid(n, z, x) && g[z][x]
    ensures NoOpenFrom(g, n, z, x) == NoOpenFrom(g, n, z, x + 1)
    ensures FirstOpenFrom(g, n, z, x, a, b) == FirstOpenFrom(g, n, z, x + 1, a, b)
  {
  }

  /** An open cell is the first open cell from itself on. */
  lemma OpenFromOpenCell(g: Grid, n: int, z: int, x: int)
    requires IsSquare(g, n) && InGrid(n, z, x) && !g[z][x]
    ensures !NoOpenFrom(g, n, z, x)
    ensures FirstOpenFrom(g, n, z, x, z, x)
  {
  }

  /** What `SweepFromPlayers` promises of the player placements `ps` of the sweep from `(z, x)`. */
  ghost predicate PlayersFrom(g: Grid, n: int, z: int, x: int, placed: bool, ps: seq<Placement>)
    requires IsSquare(g, n)
  {
    if placed || NoOpenFrom(g, n, z, x) then ps == []
    else |ps| == 1 && ps[0].kind == PlayerSpawn && ps[0].y == 1 && FirstOpenFrom(g, n, z, x, ps[0].z, ps[0].x)
  }

  lemma PlayersFromRowEnd(g: Grid, n: int, z: int, placed: bool, ps: seq<Placement>)
    requires IsSquare(g, n) && 0 <= z < n
    requires PlayersFrom(g, n, z + 1, 0, placed, ps)
    ensures PlayersFrom(g, n, z, n, placed, ps)
  {
    if |ps| > 0 {
      OpenFromRowEnd(g, n, z, ps[0].z, ps[0].x);
    } else {
      OpenFromRowEnd(g, n, z, 0, 0);
    }
  }

  lemma PlayersFromWallCell(g: Grid, n: int, z: int, x: int, placed: bool, ps: seq<Placement>)
    requires IsSquare(g, n) && InGrid(n, z, x) && g[z][x]
    requires PlayersFrom(g, n, z, x + 1, placed, ps)
    ensures PlayersFrom(g, n, z, x, placed, ps)
  {
    if |ps| > 0 {
      OpenFromWallCell(g, n, z, x, ps[0].z, ps[0].x);
    } else {
      OpenFromWallCell(g, n, z, x, 0, 0);
    }
  }

  lemma PlayersFromOpenCell(g: Grid, n: int, z: int, x: int, placed: bool, ps: seq<Placement>)
    requires IsSquare(g, n) && InGrid(n, z, x) && !g[z][x]
    requires placed ==> ps == []
    requires !placed ==> ps == [Placement(PlayerSpawn, x, 1, z)]
    ensures PlayersFrom(g, n, z, x, placed, ps)
  {
    OpenFromOpenCell(g, n, z, x);
  }

  /** The sweep from cell `(z, x)` keeps `PlayersFrom` given that the sweep from the next cell does. */
  lemma PlayersFromCellStep(g: Grid, n: int, roof: bool, z: int, x: int, placed: bool)
    requires IsSquare(g, n) && InGrid(n, z, x)
    requires var cell := CellPlacements(g, n, roof, z, x, placed);
             PlayersFrom(g, n, z, x + 1, cell.1, Players(SweepFrom(g, n, roof, z, x + 1, cell.1)))
    ensures PlayersFrom(g, n, z, x, placed, Players(SweepFrom(g, n, roof, z, x, placed)))
  {
    var cell := CellPlacements(g, n, roof, z, x, placed);
    var rest := SweepFrom(g, n, roof, z, x + 1, cell.1);
    SweepFromUnfold(g, n, roof, z, x, placed);
    PlayersConcat(cell.0, rest);
    CellPlayers(g, n, roof, z, x, placed);
    if g[z][x] {
      PlayersFromWallCell(g, n, z, x, placed, Players(rest));
    } else {
      PlayersFromOpenCell(g, n, z, x, placed, Players(cell.0) + Players(rest));
    }
  }

  /** Player placements of the sweep from `(z, x)`: none if the player is already placed or no open cell
      remains; otherwise exactly one, at height 1 over the first remaining open cell. */
  lemma {:induction false} SweepFromPlayers(g: Grid, n: int, roof: bool, z: int, x: int, placed: bool)
    requires IsSquare(g, n) && 0 <= z <= n && 0 <= x <= n
    ensures PlayersFrom(g, n, z, x, placed, Players(SweepFrom(g, n, roof, z, x, placed)))
    decreases n - z, n - x, 2
  {
    if z == n {
      assert NoOpenFrom(g, n, z, x);
    } else if x == n {
      RowEndPlayers(g, n, roof, z, placed);
    } else {
      CellStepPlayers(g, n, roof, z, x, placed);
    }
  }

  /** The induction step of `SweepFromPlayers` at the end of row `z`. */
  lemma {:induction false} RowEndPlayers(g: Grid, n: int, roof: bool, z: int, placed: bool)
    requires IsSquare(g, n) && 0 <= z < n
    ensures PlayersFrom(g, n, z, n, placed, Players(SweepFrom(g, n, roof, z, n, placed)))
    decreases n - z, 0, 1
  {
    var ps := Players(SweepFrom(g, n, roof, z + 1, 0, placed));
    SweepFromPlayers(g, n, roof, z + 1, 0, placed);
    PlayersFromRowEnd(g, n, z, placed, ps);
    assert SweepFrom(g, n, roof, z, n, placed) == SweepFrom(g, n, roof, z + 1, 0, placed);
  }

  /** The induction step of `SweepFromPlayers` at cell `(z, x)`. */
  lemma {:induction false} CellStepPlayers(g: Grid, n: int, roof: bool, z: int, x: int, placed: bool)
    requires IsSquare(g, n) && InGrid(n, z, x)
    ensures PlayersFrom(g, n, z, x, placed, Players(SweepFrom(g, n, roof, z, x, placed)))
    decreases n - z, n - x, 1
  {
    SweepFromPlayers(g, n, roof, z, x + 1, CellPlacements(g, n, roof, z, x, placed).1);
    PlayersFromCellStep(g, n, roof, z, x, placed);
  }

  /** A wall cell gets exactly one wall block at each of heights 1, 2 and 3 and no others; an open cell
      gets none. */
  lemma WallPlacements(g: Grid, n: int, roof: bool, z: int, x: int, h: int)
    requires IsSquare(g, n) && InGrid(n, z, x)
    ensures multiset(Sweep(g, n, roof))[Placement(WallBlock, x, h, z)] == if g[z][x] && 1 <= h <= 3 then 1 else 0
    ensures Placement(WallBlock, x, h, z) in Sweep(g, n, roof) <==> g[z][x] && 1 <= h <= 3
  {
    SweepFromCount(g, n, roof, 0, 0, false, Placement(WallBlock, x, h, z));
    SweepFromDecided(g, n, roof, 0, 0, false, Placement(WallBlock, x, h, z));
  }

  /** A floor tile is laid at `(x, 0, z)` exactly when `x % 3 != 0 || z % 3 != 0`, and a ceiling tile at
      `(x, 4, z)` exactly when the roof is on and the same holds. */
  lemma FloorAndCeilingPlacements(g: Grid, n: int, roof: bool, z: int, x: int)
    requires IsSquare(g, n) && InGrid(n, z, x)
    ensures Placement(FloorTile, x, 0, z) in Sweep(g, n, roof) <==> x % 3 != 0 || z % 3 != 0
    ensures Placement(CeilingTile, x, 4, z) in Sweep(g, n, roof) <==> roof && (x % 3 != 0 || z % 3 != 0)
    ensures multiset(Sweep(g, n, roof))[Placement(FloorTile, x, 0, z)] == if x % 3 != 0 || z % 3 != 0 then 1 else 0
    ensures multiset(Sweep(g, n, roof))[Placement(CeilingTile, x, 4, z)] ==
            if roof && (x % 3 != 0 || z % 3 != 0) then 1 else 0
  {
    SweepFromCount(g, n, roof, 0, 0, false, Placement(FloorTile, x, 0, z));
    SweepFromCount(g, n, roof, 0, 0, false, Placement(CeilingTile, x, 4, z));
    SweepFromDecided(g, n, roof, 0, 0, false, Placement(FloorTile, x, 0, z));
    SweepFromDecided(g, n, roof, 0, 0, false, Placement(CeilingTile, x, 4, z));
  }

  /** Whether a cell is a wall or open has no effect on its floor and ceiling tiles: two maps of the same
      size get the same floor and ceiling placements. */
  lemma TilesIgnoreWalls(g1: Grid, g2: Grid, n: int, roof: bool, p: Placement)
    requires IsSquare(g1, n) && IsSquare(g2, n)
    requires p.kind == FloorTile || p.kind == CeilingTile
    ensures p in Sweep(g1, n, roof) <==> p in Sweep(g2, n, roof)
  {
    SweepFromDecided(g1, n, roof, 0, 0, false, p);
    SweepFromDecided(g2, n, roof, 0, 0, false, p);
  }

  /** The player is placed at most once: at `(x, 1, z)` for the first open cell in `z`-outer, `x`-inner
      order, and not at all when the map has no open cell. */
  lemma PlayerAtFirstOpenCell(g: Grid, n: int, roof: bool)
    requires IsSquare(g, n)
    ensures var ps := Players(Sweep(g, n, roof));
            (NoOpenFrom(g, n, 0, 0) ==> ps == []) &&
            (!NoOpenFrom(g, n, 0, 0) ==>
               |ps| == 1 && ps[0].kind == PlayerSpawn && ps[0].y == 1 && FirstOpenFrom(g, n, 0, 0, ps[0].z, ps[0].x))
  {
    SweepFromPlayers(g, n, roof, 0, 0, false);
  }

  // ---------------------------------------------------------------- the imperative sweep

  /** One pass of the inner loop body: the wall blocks or the player move, then floor and ceiling. */
  method PlaceCell(g: Grid, n: int, roof: bool, z: int, x: int, characterPlaced: bool)
    returns (cellPlacements: seq<Placement>, placed: bool)
    requires IsSquare(g, n) && InGrid(n, z, x)
    ensures (cellPlacements, placed) == CellPlacements(g, n, roof, z, x, characterPlaced)
  {
    cellPlacements, placed := [], characterPlaced;
    if g[z][x] {
      cellPlacements := [Placement(WallBlock, x, 1, z), Placement(WallBlock, x, 2, z), Placement(WallBlock, x, 3, z)];
    } else if !placed {
      cellPlacements := [Placement(PlayerSpawn, x, 1, z)];
      placed := true;
    }
    if x % 3 != 0 || z % 3 != 0 {
      cellPlacements := cellPlacements + [Placement(FloorTile, x, 0, z)];
    }
    if roof && (x % 3 != 0 || z % 3 != 0) {
      cellPlacements := cellPlacements + [Placement(CeilingTile, x, 4, z)];
    }
    assert placed == CellPlacements(g, n, roof, z, x, characterPlaced).1;
    assert cellPlacements == CellPlacements(g, n, roof, z, x, characterPlaced).0;
  }

  /** One pass of the inner loop keeps its invariants: the flag records whether the row had an open cell so
      far, and the emitted records followed by the rest of the row's sweep are the row's whole sweep. */
  lemma RowCellStep(g: Grid, n: int, roof: bool, z: int, x: int, characterPlaced: bool, placed: bool,
                    acc: seq<Placement>)
    requires IsSquare(g, n) && InGrid(n, z, x)
    requires placed <==> characterPlaced || RowOpenBefore(g, n, z, x)
    requires acc + SweepFrom(g, n, roof, z, x, placed) == SweepFrom(g, n, roof, z, 0, characterPlaced)
    ensures var cell := CellPlacements(g, n, roof, z, x, placed);
            (cell.1 <==> characterPlaced || RowOpenBefore(g, n, z, x + 1)) &&
            (acc + cell.0) + SweepFrom(g, n, roof, z, x + 1, cell.1) == SweepFrom(g, n, roof, z, 0, characterPlaced)
  {
    RowOpenStep(g, n, z, x);
    SweepFromAccumulate(g, n, roof, z, x, placed, acc);
  }

  /** The inner loop over one row `z`: its placements, ending where the sweep of row `z + 1` begins. */
  method PlaceRow(g: Grid, n: int, roof: bool, z: int, characterPlaced: bool)
    returns (rowPlacements: seq<Placement>, placed: bool)
    requires IsSquare(g, n) && 0 <= z < n
    ensures placed <==> characterPlaced || RowOpenBefore(g, n, z, n)
    ensures rowPlacements + SweepFrom(g, n, roof, z + 1, 0, placed) == SweepFrom(g, n, roof, z, 0, characterPlaced)
  {
    rowPlacements, placed := [], characterPlaced;
    var x := 0;
    while x < n
      invariant 0 <= x <= n
      invariant placed <==> characterPlaced || RowOpenBefore(g, n, z, x)
      invariant rowPlacements + SweepFrom(g, n, roof, z, x, placed) == SweepFrom(g, n, roof, z, 0, characterPlaced)
    {
      var cell, placed' := PlaceCell(g, n, roof, z, x, placed);
      RowCellStep(g, n, roof, z, x, characterPlaced, placed, rowPlacements);
      rowPlacements, placed := rowPlacements + cell, placed';
      x := x + 1;
    }
    assert SweepFrom(g, n, roof, z, n, placed) == SweepFrom(g, n, roof, z + 1, 0, placed);
  }

  /** Emitting one more row keeps the outer loop's invariant: what has been emitted, followed by what the
      sweep still has to emit, is the whole sweep. */
  lemma RowAppended(done: seq<Placement>, row: seq<Placement>, rest: seq<Placement>, from: seq<Placement>,
                    whole: seq<Placement>)
    requires done + from == whole && row + rest == from
    ensures (done + row) + rest == whole
  {
    assert done + (row + rest) == (done + row) + rest;
  }

  /** The placement loop of `Start` followed by the pickup spawn at `(mazeX, 1, mazeY)`. */
  method Materialise(g: Grid, n: int, roof: bool, mazeX: int, mazeY: int) returns (ps: seq<Placement>)
    requires IsSquare(g, n)
    ensures ps == Sweep(g, n, roof) + [Placement(PickupSpawn, mazeX, 1, mazeY)]
  {
    var characterPlaced := false;
    ps := [];
    var z := 0;
    while z < n
      invariant 0 <= z <= n
      invariant ps + SweepFrom(g, n, roof, z, 0, characterPlaced) == Sweep(g, n, roof)
    {
      var row, placed := PlaceRow(g, n, roof, z, characterPlaced);
      RowAppended(ps, row, SweepFrom(g, n, roof, z + 1, 0, placed), SweepFrom(g, n, roof, z, 0, characterPlaced),
                  Sweep(g, n, roof));
      ps, characterPlaced := ps + row, placed;
      z := z + 1;
    }
    ps := ps + [Placement(PickupSpawn, mazeX, 1, mazeY)];
  }
}
