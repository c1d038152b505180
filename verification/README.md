# Dreadhalls maze generator, modelled in Dafny

This project models the maze logic of the Unity script `LevelGenerator`:

- **Carving** (`GenerateMazeData`). The map is a square `mazeSize × mazeSize` grid of booleans, `true` for a wall. It starts as all walls. A cursor starts at `(mazeX, mazeY) = (4, 1)`. Each segment moves the cursor along one axis by ±1 per step, for a drawn number of steps. After every step both coordinates are clamped into `[1, mazeSize-2]`. A wall the cursor lands on is opened and counted in `tilesConsumed`. Segments repeat while `tilesConsumed < tilesToRemove`.
- **Materialisation** (the loop in `Start`). One sweep, `z` outer and `x` inner, decides what to place on each cell:
  - three wall blocks at heights 1–3 over a wall cell;
  - the player at `(x, 1, z)` on the first open cell;
  - a floor tile at height 0 and, with `generateRoof` on, a ceiling tile at height 4, wherever `x % 3 != 0 || z % 3 != 0`;
  - after the sweep, a pickup at `(mazeX, 1, mazeY)`.
- **Game over**. `Update` ends the game on a fall, but only while the `gameOver` flag is clear. `OnTriggerEnter` ends it on contact with the game-over platform, whatever the flag.

Layout:

- `grid.dfy` (`MazeGrid`): the grid, and open-cell counting.
- `carving.dfy` (`Carving`): a functional reference model of the carver (`Step`, `Segment`, `Carve`, `Generate`), its invariants, and the imperative `GenerateMazeData`. That method carves on a local `array2<bool>` and is proved equal to the reference model.
- `materialise.dfy` (`Materialiser`): the sweep as a function over placement records (`SweepFrom`), declarative descriptions of what it must place (`Decided`, `FirstOpenFrom`), and the imperative nested-loop `Materialise` proved equal to the function.
- `game_over.dfy` (`GameOver`): the two callbacks as functions of the flag, plus traces of callbacks.
- `level.dfy` (`Level`): `Start` composes carving and materialisation.

Inputs that stand in for the engine:

- **Random draws.** `Random.value` and `Random.Range` are not modelled. Each segment's draws arrive as a `Choice(alongX, positive, steps)` in a sequence. `steps` lies in `[1, mazeSize-2]`, because the integer `Random.Range(1, mazeSize - 1)` excludes its upper bound. The carving loop also stops when the sequence runs out. `Outcome.segments` says how many choices it used, and `Exited` says whether the loop's own guard ended it.
- **Fall and contact tests.** The fall test `transform.position.y < gameOverHeight` and the test `other == gameOverPlatformCollider` are boolean inputs.
- **Engine calls.** Every `Instantiate`, `CreateChildPrefab` and `SetPositionAndRotation` becomes a `Placement(kind, x, y, z)` record. `SceneManager.LoadScene` becomes a `loadScene` flag.

Points where the code behaves differently from what a reader might expect:

- **Segment length.** The step count is drawn from `[1, mazeSize-2]` inclusive. So a 3 × 3 map always takes exactly one step per segment, never zero.
- **Overshoot.** The inner loop always finishes its segment before the `while` guard is checked again. So the number of open cells can exceed `tilesToRemove`; it is not exactly `tilesToRemove`. Only the last segment crosses the target, so for a positive `tilesToRemove` at most `tilesToRemove + mazeSize - 3` cells end up open (`Carving.GenerateOvershootBound`). `Carving.Overshoot` shows one case: it opens three cells for a target of one.
- **Platform contact and the flag.** `OnTriggerEnter` does not test `gameOver`, so every platform contact requests the scene. `GameOver.RequestCount` counts the requests exactly.
- **Start position on small maps.** The start `(4, 1)` is outside `[1, mazeSize-2]` when `mazeSize <= 5`. There, the first step is pulled onto the interior by the clamp and can change both coordinates at once. So axis-aligned movement holds only from an interior cursor (`Carving.StepAxisAligned`).

## Model

| member | source | states |
|---|---|---|
| MazeGrid.AllWallGrid | Assets/Scripts/LevelGenerator.cs:110-119 | the initialised map is `n × n` and every cell, the border included, is a wall |
| MazeGrid.OpenCountUpdate | Assets/Scripts/LevelGenerator.cs:150-154 | opening one wall cell raises the number of open cells by exactly one, which is why `tilesConsumed++` keeps the counter equal to the open-cell count |
| MazeGrid.OpenCountBound | Assets/Scripts/LevelGenerator.cs:147-154 | a map whose border is all walls has at most `(n-2)²` open cells |
| Carving.Clamp | Assets/Scripts/LevelGenerator.cs:147-148 | `Mathf.Clamp`: a value below `lo` becomes `lo`, a value above `hi` becomes `hi`, a value in `[lo, hi]` is kept, so the result lies in `[lo, hi]` |
| Carving.Direction | Assets/Scripts/LevelGenerator.cs:130-139 | exactly one direction component is non-zero; it is on X exactly when the X axis was drawn, and it is +1 or −1 according to the drawn sign |
| Carving.Step | Assets/Scripts/LevelGenerator.cs:147-154 | after a step the cursor is inside `[1, n-2]` on both axes and on an open cell; the counter rises by one exactly when that cell was a wall; no other cell changes |
| Carving.Segment | Assets/Scripts/LevelGenerator.cs:145-155 | a segment of at least one step leaves the cursor on an open interior cell and never lowers the counter |
| Carving.Carve | Assets/Scripts/LevelGenerator.cs:125-156 | the loop stops early only once `tilesConsumed >= tilesToRemove`; it runs no segment exactly when the target is already met or no draw is available; after any segment the cursor is on an open interior cell |
| Carving.Generate | Assets/Scripts/LevelGenerator.cs:108-159 | the reference generator, run from the all-wall map with the cursor at `(4, 1)`: it runs no segment exactly when `tilesToRemove <= 0` or no draw exists; it stops with draws left only once the target is met; after a segment the cursor is on an open interior cell. `CarveRunsSegments`, `GenerateInvariant` and `GenerateExit` characterise it further |
| Carving.RunSegments | Assets/Scripts/LevelGenerator.cs:126-155 | the first `j` segments run back to back with no guard, the reference for the `while` guard; after any segment the cursor is on an open interior cell and the counter has not dropped |
| Carving.CarveRunsSegments | Assets/Scripts/LevelGenerator.cs:125-156 | the `while` guard in both directions: the loop's state is that of its first `o.segments` draws; each of those segments started with fewer than `tilesToRemove` tiles consumed; if draws remain, the target was met after the last segment |
| Carving.SegmentGrowth | Assets/Scripts/LevelGenerator.cs:145-155 | a segment of `k` steps raises `tilesConsumed` by at most `k` |
| Carving.CarveOvershootBound | Assets/Scripts/LevelGenerator.cs:125-156 | started below the target, the loop stops with at most `tilesToRemove - 1 + (n - 2)` tiles consumed: only the last segment crosses the target, and a segment has at most `n - 2` steps |
| Carving.GenerateOvershootBound | Assets/Scripts/LevelGenerator.cs:108-159 | the generator consumes nothing for a target of at most 0, and otherwise at most `tilesToRemove + n - 3` tiles, whatever the draws |
| Carving.StepAxisAligned | Assets/Scripts/LevelGenerator.cs:130-148 | from an interior cursor a step moves only along the drawn axis, by at most one cell in the drawn direction |
| Carving.StartOutsideSmallMaze | Assets/Scripts/LevelGenerator.cs:147-148 | on a 5 × 5 map the start `(4, 1)` lies outside the clamp range, and one Y step from it moves the cursor to `(3, 2)`, changing both coordinates |
| Carving.StepPreserves | Assets/Scripts/LevelGenerator.cs:147-154 | a step keeps the border walled and `tilesConsumed` equal to the number of open cells, and never closes an open cell |
| Carving.SegmentPreserves | Assets/Scripts/LevelGenerator.cs:145-155 | a whole segment keeps the border walled and the counter equal to the open-cell count, and only opens cells |
| Carving.CarvePreserves | Assets/Scripts/LevelGenerator.cs:125-156 | the carving loop keeps the border walled and the counter equal to the open-cell count, and only opens cells |
| Carving.GenerateInvariant | Assets/Scripts/LevelGenerator.cs:108-159 | the generated map has an intact border, its open-cell count equals `tilesConsumed`, and that count is at most `(n-2)²` |
| Carving.TargetBeyondInteriorNeverExits | Assets/Scripts/LevelGenerator.cs:125 | if `tilesToRemove > (n-2)²` the `while` guard never becomes false: every draw is used and the target is still not met |
| Carving.GenerateExit | Assets/Scripts/LevelGenerator.cs:125-156 | on exit at least `tilesToRemove` cells are open; otherwise all draws were used; a segment runs exactly when the target is positive and a draw exists; after one, the cursor (the pickup cell) is open and interior |
| Carving.Overshoot | Assets/Scripts/LevelGenerator.cs:145-155 | with target 1 on a 5 × 5 map, one three-step segment towards −X opens three cells: the segment finishes before the guard is checked |
| Carving.NewWallMap | Assets/Scripts/LevelGenerator.cs:110-119 | the allocation and initialisation loops leave every cell of the `n × n` array a wall |
| Carving.CarveSegment | Assets/Scripts/LevelGenerator.cs:145-155 | the inner loop on the array carves exactly what the reference `Segment` carves and leaves the cursor and counter where it leaves them |
| Carving.GenerateMazeData | Assets/Scripts/LevelGenerator.cs:108-159 | the array-based generator returns the reference model's map, cursor, counter and segment count; its border is intact; counter equals open cells, at most `(n-2)²`; the loop exited or used every draw |
| Materialiser.CellPlacements | Assets/Scripts/LevelGenerator.cs:70-97 | the reference body of the inner loop: its records lie on cell `(x, z)` and are never the pickup; afterwards `characterPlaced` holds exactly when it held before or the cell is open. `CellDecided`, `CellCount` and `CellPlayers` say what the records are |
| Materialiser.CellCount | Assets/Scripts/LevelGenerator.cs:70-97 | apart from the player, a cell emits each record the wall and parity rules allow on it exactly once, and nothing else |
| Materialiser.SweepFromCount | Assets/Scripts/LevelGenerator.cs:66-99 | apart from the player, the sweep from any cell emits each wall, floor and ceiling record called for by the cells at or after it exactly once, and nothing else, whatever the player flag |
| Materialiser.SweepFromCells | Assets/Scripts/LevelGenerator.cs:66-99 | the reference sweep `SweepFrom` from any cell only places records on cells of the map that it has not yet passed, and never the pickup |
| Materialiser.Sweep | Assets/Scripts/LevelGenerator.cs:66-99 | the whole nested loop from `(0, 0)` with `characterPlaced` false; it places records only on the map's cells and never the pickup. `SweepFromCount`, `WallPlacements`, `FloorAndCeilingPlacements` and `PlayerAtFirstOpenCell` characterise it |
| Materialiser.CellDecided | Assets/Scripts/LevelGenerator.cs:70-97 | each cell's decisions lie on that cell; apart from the player they are the wall blocks at heights 1–3 over a wall and the floor and ceiling tiles the parity rule allows |
| Materialiser.CellPlayers | Assets/Scripts/LevelGenerator.cs:76-86 | a cell moves the player onto `(x, 1, z)` exactly when it is open and the player is not yet placed |
| Materialiser.SweepFromDecided | Assets/Scripts/LevelGenerator.cs:66-99 | apart from the player, the sweep from any cell places exactly the wall, floor and ceiling records the cells at or after it call for, whatever the player flag |
| Materialiser.SweepFromPlayers | Assets/Scripts/LevelGenerator.cs:66-99 | the sweep from any cell places the player never if it is already placed or no open cell remains, else exactly once, at height 1 over the first remaining open cell |
| Materialiser.WallPlacements | Assets/Scripts/LevelGenerator.cs:70-75 | a wall cell `[z, x]` gets exactly one wall block at each of heights 1, 2 and 3 and none at any other height; an open cell gets none |
| Materialiser.FloorAndCeilingPlacements | Assets/Scripts/LevelGenerator.cs:89-97 | one floor tile is laid at `(x, 0, z)` exactly when `x % 3` or `z % 3` is non-zero, and none otherwise; one ceiling tile is laid at `(x, 4, z)` exactly when `generateRoof` holds as well |
| Materialiser.TilesIgnoreWalls | Assets/Scripts/LevelGenerator.cs:88-97 | two maps of the same size get the same floor and ceiling placements: a cell's wall status does not affect them |
| Materialiser.PlayerAtFirstOpenCell | Assets/Scripts/LevelGenerator.cs:76-86 | the player is placed never if the map has no open cell, else exactly once, at `(x, 1, z)` for the first open cell in `z`-outer, `x`-inner order |
| Materialiser.PlaceCell | Assets/Scripts/LevelGenerator.cs:70-97 | the loop body emits exactly the cell's reference decisions and updates `characterPlaced` as they do |
| Materialiser.PlaceRow | Assets/Scripts/LevelGenerator.cs:68-98 | after row `z` the returned `characterPlaced` is set exactly when it was set before or row `z` has an open cell; with that flag, the emitted records followed by the reference sweep from row `z + 1` are the sweep from row `z`, so the loop emits exactly row `z`'s records |
| Materialiser.Materialise | Assets/Scripts/LevelGenerator.cs:66-103 | the nested loops emit exactly the reference sweep, followed by the pickup at `(mazeX, 1, mazeY)` |
| GameOver.Update | Assets/Scripts/LevelGenerator.cs:171-179 | a frame requests the game-over scene exactly when the flag is clear and the player fell; afterwards the flag is set exactly when it was set or the player fell; with the flag set it changes nothing |
| GameOver.OnTriggerEnter | Assets/Scripts/LevelGenerator.cs:182-189 | a trigger requests the scene exactly when the collider is the platform, whatever the flag, and then sets the flag |
| GameOver.React | Assets/Scripts/LevelGenerator.cs:171-189 | either callback: the flag ends up set exactly when it was set or the event ends the game; the scene is requested only by an event that ends the game, by a frame only while the flag is clear; a request always leaves the flag set |
| GameOver.Run | Assets/Scripts/LevelGenerator.cs:171-189 | over any sequence of callbacks the flag is never cleared, and a request always leaves it set |
| GameOver.FlagSetIffSomeEventEnds | Assets/Scripts/LevelGenerator.cs:174-188 | after a sequence of callbacks the flag is set exactly when it started set or some fall or platform contact occurred |
| GameOver.NoFrameRequestAfterGameOver | Assets/Scripts/LevelGenerator.cs:174-178 | once the flag is set, no number of frames requests the scene again |
| GameOver.FramesRequestAtMostOnce | Assets/Scripts/LevelGenerator.cs:174-178 | frames alone request the scene at most once, and exactly once when the flag starts clear and some frame sees a fall |
| GameOver.RequestCount | Assets/Scripts/LevelGenerator.cs:174-188 | the number of requests equals the number of platform contacts, plus one if the flag started clear and a fall was the first game-ending event |
| GameOver.ContactIgnoresFlag | Assets/Scripts/LevelGenerator.cs:184-188 | two platform contacts after the game has ended still make two requests |
| Level.LevelPlacements | Assets/Scripts/LevelGenerator.cs:66-102 | the records `Start` decides for a carved map: records on the map's cells, then exactly one pickup, last, at `(mazeX, 1, mazeY)` |
| Level.NoSegmentNoPlayer | Assets/Scripts/LevelGenerator.cs:63-86 | when no segment runs, the map stays all walls and the player is never placed |
| Level.PickupAndPlayer | Assets/Scripts/LevelGenerator.cs:76-102 | once a segment has run, the final record is the pickup at height 1 over an open interior cell, and the player is placed exactly once, on the first open cell |
| Level.Start | Assets/Scripts/LevelGenerator.cs:55-104 | `Start` yields the generated map and exactly the reference placements for it; the player is placed once if any segment ran, else never |

## Left out

- `Assets/Scripts/CubeGameOverTrigger.cs`: a tag comparison that calls `SceneManager.LoadScene`; engine glue with no decision logic.
- The random number generator: draws are inputs (`Choice`). Whether the loop terminates under random draws is a probabilistic question, and it cannot terminate when `tilesToRemove > (mazeSize-2)²`. The model is driven by a finite draw sequence instead, and proves the invariants, not termination.
- `Carving.GenerateMazeData`: requires `mazeSize >= 3`. The code does not check this, but below 3 the clamp range `[1, mazeSize-2]` is empty and `Random.Range(1, mazeSize - 1)` is degenerate.
- The static `mazeCount` counter, its `mazeCountText` display and `ResetMazeCount`: a process-wide increment and reset tied to the scene lifecycle.
- Engine effects: object instantiation, parenting under `wallsParent`/`floorParent`, rotations, the 0.25 pickup scale and the scene change are left out. Placement records and a `loadScene` flag stand in for them.
- The floating-point height comparison in `Update`: it is a boolean input.
