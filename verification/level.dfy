/**
 `LevelGenerator.Start` without its engine calls: carve the map, then sweep it
 into placement decisions ending with the pickup over the carving cursor.
 */
module Level {
  import opened MazeGrid
  import opened Carving
  import opened Materialiser

  /** The placements `Start` decides for the carved outcome `o`: records on the map's cells, then the one
      pickup, over the carving cursor, last. */
  function LevelPlacements(o: Outcome, n: int, roof: bool): (ps: seq<Placement>)
    requires IsSquare(o.state.grid, n)
    ensures |ps| >= 1 && ps[|ps| - 1] == Placement(PickupSpawn, o.state.x, 1, o.state.y)
    ensures forall i :: 0 <= i < |ps| - 1 ==> ps[i].kind != PickupSpawn && InGrid(n, ps[i].z, ps[i].x)
  {
    Sweep(o.state.grid, n, roof) + [Placement(PickupSpawn, o.state.x, 1, o.state.y)]
  }

  /** When no segment ran the map is still all walls, so the sweep never places the player. */
  lemma NoSegmentNoPlayer(n: nat, target: int, choices: seq<Choice>, roof: bool)
    requires n >= 3 && ValidChoices(choices, n)
    requires Generate(n, target, choices).segments == 0
    ensures Generate(n, target, choices).state == Initial(n)
    ensures Players(LevelPlacements(Generate(n, target, choices), n, roof)) == []
  {
    var o := Generate(n, target, choices);
    var g := o.state.grid;
    assert NoOpenFrom(g, n, 0, 0);
    PlayerAtFirstOpenCell(g, n, roof);
    PlayersConcat(Sweep(g, n, roof), [Placement(PickupSpawn, o.state.x, 1, o.state.y)]);
  }

  /** Once a segment has run, the pickup at `(mazeX, 1, mazeY)` stands over an open interior cell, and the
      player is placed exactly once, on the first open cell of the sweep. */
  lemma PickupAndPlayer(n: nat, target: int, choices: seq<Choice>, roof: bool)
    requires n >= 3 && ValidChoices(choices, n)
    requires Generate(n, target, choices).segments >= 1
    ensures var o := Generate(n, target, choices);
            var ps := LevelPlacements(o, n, roof);
            var pickup := ps[|ps| - 1];
            pickup.kind == PickupSpawn && pickup.y == 1 &&
            InInterior(pickup.x, n) && InInterior(pickup.z, n) && !o.state.grid[pickup.z][pickup.x]
    ensures var o := Generate(n, target, choices);
            var players := Players(LevelPlacements(o, n, roof));
            |players| == 1 && players[0].y == 1 &&
            FirstOpenFrom(o.state.grid, n, 0, 0, players[0].z, players[0].x)
  {
    var o := Generate(n, target, choices);
    var g := o.state.grid;
    assert !NoOpenFrom(g, n, 0, 0) by {
      assert !g[o.state.y][o.state.x];
    }
    PlayerAtFirstOpenCell(g, n, roof);
    PlayersConcat(Sweep(g, n, roof), [Placement(PickupSpawn, o.state.x, 1, o.state.y)]);
    assert Players([Placement(PickupSpawn, o.state.x, 1, o.state.y)]) == [];
  }

  /** `Start`: generate the map with the supplied draws, then decide every placement. */
  method Start(n: int, tilesToRemove: int, generateRoof: bool, choices: seq<Choice>)
    returns (o: Outcome, placements: seq<Placement>)
    requires n >= 3 && ValidChoices(choices, n)
    ensures o == Generate(n, tilesToRemove, choices)
    ensures placements == LevelPlacements(o, n, generateRoof)
    ensures o.segments >= 1 ==> |Players(placements)| == 1
    ensures o.segments == 0 ==> Players(placements) == []
  {
    o := GenerateMazeData(n, tilesToRemove, choices);
    placements := Materialise(o.state.grid, n, generateRoof, o.state.x, o.state.y);
    if o.segments >= 1 {
      PickupAndPlayer(n, tilesToRemove, choices, generateRoof);
    } else {
      NoSegmentNoPlayer(n, tilesToRemove, choices, generateRoof);
    }
  }
}
