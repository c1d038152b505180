/**
 The random-walk carver of `LevelGenerator.GenerateMazeData`. A cursor starts
 at `(4, 1)` on an all-wall grid; each segment moves it along one axis by ±1
 per step for a drawn number of steps, clamping both coordinates into
 `[1, n-2]` after every step and opening (and counting) every wall it lands
 on. Segments repeat while fewer than `tilesToRemove` walls have been opened.

 The random draws are inputs: one `Choice` per segment. Because the source's
 loop only ends once enough walls are open, the model also stops when the
 supplied choices run out and reports how many segments it used.
 */
module Carving {
  import opened MazeGrid

  /** The draws of one segment: the axis (`Random.value < 0.5` picks X), the sign, and the step count. */
  datatype Choice = Choice(alongX: bool, positive: bool, steps: int)

  /** `Random.Range(1, n - 1)` on ints excludes its upper bound, so a drawn step count lies in `[1, n-2]`. */
  predicate ValidChoice(c: Choice, n: int) {
    1 <= c.steps <= n - 2
  }

  predicate ValidChoices(cs: seq<Choice>, n: int) {
    forall i :: 0 <= i < |cs| ==> ValidChoice(cs[i], n)
  }

  /** The generator's mutable state: the map, the cursor `(mazeX, mazeY)` and `tilesConsumed`. */
  datatype Carver = Carver(grid: Grid, x: int, y: int, consumed: int)

  /** Result of the carving loop: the final state and how many segments (choices) it ran. */
  datatype Outcome = Outcome(state: Carver, segments: nat)

  const StartX: int := 4
  const StartY: int := 1

  /** The state before the first segment: all walls, cursor at `(4, 1)`, nothing consumed. */
  function Initial(n: nat): (s: Carver)
    ensures IsSquare(s.grid, n) && AllWalls(s.grid, n)
    ensures s.x == 4 && s.y == 1 && s.consumed == 0
  {
    Carver(AllWallGrid(n), StartX, StartY, 0)
  }

  /** `Mathf.Clamp` on ints. */
  function Clamp(v: int, lo: int, hi: int): (r: int)
    ensures lo <= hi ==> lo <= r <= hi
    ensures lo <= v <= hi ==> r == v
    ensures v < lo ==> r == lo
    ensures lo <= v && hi < v ==> r == hi
  {
    if v < lo then lo else if v > hi then hi else v
  }

  /** The direction vector `(xDirection, yDirection)` of a segment. */
  function Direction(c: Choice): (d: (int, int))
    ensures (d.0 == 0) != (d.1 == 0)
    ensures d.0 != 0 <==> c.alongX
    ensures d.0 + d.1 == (if c.positive then 1 else -1)
  {
    var sign := if c.positive then 1 else -1;
    if c.alongX then (sign, 0) else (0, sign)
  }

  /** The invariant the carving loop keeps: a square grid with an intact border whose open cells are exactly the consumed tiles. */
  predicate Wf(s: Carver, n: int) {
    n >= 3 && IsSquare(s.grid, n) && BorderWalled(s.grid, n) && s.consumed == OpenCount(s.grid)
  }

  /** The cursor lies on an open interior cell. */
  predicate OnOpenInterior(s: Carver, n: int)
    requires IsSquare(s.grid, n)
  {
    InInterior(s.x, n) && InInterior(s.y, n) && !s.grid[s.y][s.x]
  }

  /** One step: move, clamp both coordinates, open the landed cell if it is a wall. */
  function Step(s: Carver, n: int, dx: int, dy: int): (t: Carver)
    requires n >= 3 && IsSquare(s.grid, n)
    ensures IsSquare(t.grid, n)
    ensures OnOpenInterior(t, n)
    ensures t.x == Clamp(s.x + dx, 1, n - 2) && t.y == Clamp(s.y + dy, 1, n - 2)
    ensures t.consumed == s.consumed + (if s.grid[t.y][t.x] then 1 else 0)
    ensures forall r, c :: 0 <= r < n && 0 <= c < n && (r != t.y || c != t.x) ==> t.grid[r][c] == s.grid[r][c]
  {
    var x := Clamp(s.x + dx, 1, n - 2);
    var y := Clamp(s.y + dy, 1, n - 2);
    if s.grid[y][x] then
      Carver(s.grid[y := s.grid[y][x := false]], x, y, s.consumed + 1)
    else
      Carver(s.grid, x, y, s.consumed)
  }

  /** `k` steps in direction `(dx, dy)`. */
  function Segment(s: Carver, n: int, dx: int, dy: int, k: nat): (t: Carver)
    requires n >= 3 && IsSquare(s.grid, n)
    ensures IsSquare(t.grid, n)
    ensures k >= 1 ==> OnOpenInterior(t, n)
    ensures t.consumed >= s.consumed
    decreases k
  {
    if k == 0 then s else Step(Segment(s, n, dx, dy, k - 1), n, dx, dy)
  }

  /** The carving loop: run segments while fewer than `target` tiles are consumed and choices remain. */
  function Carve(s: Carver, n: int, target: int, choices: seq<Choice>): (o: Outcome)
    requires n >= 3 && IsSquare(s.grid, n) && ValidChoices(choices, n)
    ensures IsSquare(o.state.grid, n)
    ensures o.segments <= |choices|
    ensures o.segments < |choices| ==> o.state.consumed >= target
    ensures o.state.consumed >= s.consumed
    ensures o.segments >= 1 ==> OnOpenInterior(o.state, n)
    ensures o.segments == 0 <==> s.consumed >= target || |choices| == 0
    decreases |choices|
  {
    if s.consumed >= target || |choices| == 0 then
      Outcome(s, 0)
    else
      var d := Direction(choices[0]);
      var o := Carve(Segment(s, n, d.0, d.1, choices[0].steps), n, target, choices[1..]);
      Outcome(o.state, o.segments + 1)
  }

  /** `GenerateMazeData` with its random draws supplied. */
  function Generate(n: nat, target: int, choices: seq<Choice>): (o: Outcome)
    requires n >= 3 && ValidChoices(choices, n)
    ensures IsSquare(o.state.grid, n)
    ensures o.segments <= |choices|
    ensures o.segments < |choices| ==> o.state.consumed >= target
    ensures o.segments >= 1 ==> OnOpenInterior(o.state, n)
    ensures o.segments == 0 <==> target <= 0 || |choices| == 0
  {
    Carve(Initial(n), n, target, choices)
  }

  /** The first `j` segments of `choices`, run one after another with no guard: the reference against which
      the loop's guard is stated. */
  function RunSegments(s: Carver, n: int, choices: seq<Choice>, j: nat): (t: Carver)
    requires n >= 3 && IsSquare(s.grid, n) && ValidChoices(choices, n) && j <= |choices|
    ensures IsSquare(t.grid, n)
    ensures t.consumed >= s.consumed
    ensures j >= 1 ==> OnOpenInterior(t, n)
    decreases j
  {
    if j == 0 then s
    else
      var d := Direction(choices[0]);
      RunSegments(Segment(s, n, d.0, d.1, choices[0].steps), n, choices[1..], j - 1)
  }

  /** The loop left its `while` because enough tiles were consumed, not because the draws ran out. */
  predicate Exited(o: Outcome, target: int) {
    o.state.consumed >= target
  }

  // ---------------------------------------------------------------- lemmas

  /** From a cursor already inside `[1, n-2]`, a step changes only the segment's axis coordinate, by at most one. */
  lemma StepAxisAligned(s: Carver, n: int, c: Choice)
    requires n >= 3 && IsSquare(s.grid, n) && InInterior(s.x, n) && InInterior(s.y, n)
    ensures var d := Direction(c);
            var t := Step(s, n, d.0, d.1);
            (c.alongX ==> t.y == s.y && (t.x == s.x || t.x == s.x + d.0)) &&
            (!c.alongX ==> t.x == s.x && (t.y == s.y || t.y == s.y + d.1))
  {
  }

  /** The start `(4, 1)` is outside `[1, n-2]` for `n <= 5`: there the first step that runs pulls the cursor
      onto the interior and can change both coordinates at once. */
  lemma StartOutsideSmallMaze()
    ensures !InInterior(StartX, 5)
    ensures var t := Step(Initial(5), 5, 0, 1); t.x == 3 && t.y == 2
  {
  }

  /** A step keeps the loop invariant and only opens cells. */
  lemma StepPreserves(s: Carver, n: int, dx: int, dy: int)
    requires Wf(s, n)
    ensures Wf(Step(s, n, dx, dy), n)
    ensures OnlyOpened(s.grid, Step(s, n, dx, dy).grid, n)
  {
    var t := Step(s, n, dx, dy);
    if s.grid[t.y][t.x] {
      OpenCountUpdate(s.grid, t.y, t.x);
    }
    forall r, c | 0 <= r < n && 0 <= c < n && OnBorder(r, c, n)
      ensures t.grid[r][c]
    {
      assert r != t.y || c != t.x;
    }
  }

  /** A segment keeps the loop invariant and only opens cells. */
  lemma {:induction false} SegmentPreserves(s: Carver, n: int, dx: int, dy: int, k: nat)
    requires Wf(s, n)
    ensures Wf(Segment(s, n, dx, dy, k), n)
    ensures OnlyOpened(s.grid, Segment(s, n, dx, dy, k).grid, n)
    decreases k
  {
    if k > 0 {
      SegmentPreserves(s, n, dx, dy, k - 1);
      StepPreserves(Segment(s, n, dx, dy, k - 1), n, dx, dy);
    }
  }

  /** The carving loop keeps the invariant: border intact, counter equal to the number of open cells,
      cells only ever opened. */
  lemma {:induction false} CarvePreserves(s: Carver, n: int, target: int, choices: seq<Choice>)
    requires Wf(s, n) && ValidChoices(choices, n)
    ensures Wf(Carve(s, n, target, choices).state, n)
    ensures OnlyOpened(s.grid, Carve(s, n, target, choices).state.grid, n)
    decreases |choices|
  {
    if !(s.consumed >= target || |choices| == 0) {
      var d := Direction(choices[0]);
      var s' := Segment(s, n, d.0, d.1, choices[0].steps);
      SegmentPreserves(s, n, d.0, d.1, choices[0].steps);
      CarvePreserves(s', n, target, choices[1..]);
    }
  }

  /** The generator's result: border walls intact, `tilesConsumed` equal to the number of open cells, and
      so at most `(n-2)²`. */
  lemma GenerateInvariant(n: nat, target: int, choices: seq<Choice>)
    requires n >= 3 && ValidChoices(choices, n)
    ensures Wf(Generate(n, target, choices).state, n)
    ensures Generate(n, target, choices).state.consumed <= (n - 2) * (n - 2)
  {
    var s := Initial(n);
    OpenCountAllWalls(s.grid);
    CarvePreserves(s, n, target, choices);
    OpenCountBound(Generate(n, target, choices).state.grid, n);
  }

  /** With a target above `(n-2)²` the loop can never exit, whatever the draws: every choice is used up
      and fewer than `target` tiles are open. */
  lemma TargetBeyondInteriorNeverExits(n: nat, target: int, choices: seq<Choice>)
    requires n >= 3 && ValidChoices(choices, n)
    requires target > (n - 2) * (n - 2)
    ensures !Exited(Generate(n, target, choices), target)
    ensures Generate(n, target, choices).segments == |choices|
  {
    GenerateInvariant(n, target, choices);
  }

  /** When the loop exits at least `target` tiles are open, and when any segment ran the cursor, which
      places the pickup, stands on an open interior cell. */
  lemma GenerateExit(n: nat, target: int, choices: seq<Choice>)
    requires n >= 3 && ValidChoices(choices, n)
    ensures var o := Generate(n, target, choices);
            (Exited(o, target) ==> OpenCount(o.state.grid) >= target) &&
            (!Exited(o, target) ==> o.segments == |choices|) &&
            (o.segments >= 1 ==> OnOpenInterior(o.state, n)) &&
            (o.segments >= 1 <==> target > 0 && |choices| > 0)
  {
    GenerateInvariant(n, target, choices);
  }

  /** The loop finishes its current segment before re-checking its guard, so more than `target` tiles can
      be opened: on a 5×5 map with target 1, one three-step segment towards −X clamps the start `(4, 1)` to
      `(3, 1)` and then walks to `(1, 1)`, opening three cells. */
  lemma Overshoot()
    ensures var o := Generate(5, 1, [Choice(true, false, 3)]);
            o.segments == 1 && o.state.consumed == 3 && o.state.x == 1 && o.state.y == 1
  {
  }

  /** A segment of `k` steps opens at most `k` cells. */
  lemma {:induction false} SegmentGrowth(s: Carver, n: int, dx: int, dy: int, k: nat)
    requires n >= 3 && IsSquare(s.grid, n)
    ensures Segment(s, n, dx, dy, k).consumed <= s.consumed + k
    decreases k
  {
    if k > 0 {
      SegmentGrowth(s, n, dx, dy, k - 1);
    }
  }

  /** The `while` guard in both directions: the loop's state is exactly that of its first `o.segments` draws,
      every one of those segments started with fewer than `target` tiles consumed, and when draws remain the
      loop stopped at the first point where `target` was reached. */
  lemma {:induction false} CarveRunsSegments(s: Carver, n: int, target: int, choices: seq<Choice>)
    requires n >= 3 && IsSquare(s.grid, n) && ValidChoices(choices, n)
    ensures var o := Carve(s, n, target, choices);
            o.state == RunSegments(s, n, choices, o.segments) &&
            (forall j :: 0 <= j < o.segments ==> RunSegments(s, n, choices, j).consumed < target) &&
            (o.segments < |choices| ==> RunSegments(s, n, choices, o.segments).consumed >= target)
    decreases |choices|
  {
    if !(s.consumed >= target || |choices| == 0) {
      var d := Direction(choices[0]);
      var s' := Segment(s, n, d.0, d.1, choices[0].steps);
      var o := Carve(s, n, target, choices);
      CarveRunsSegments(s', n, target, choices[1..]);
      forall j | 0 <= j < o.segments
        ensures RunSegments(s, n, choices, j).consumed < target
      {
        if j > 0 {
          assert RunSegments(s, n, choices, j) == RunSegments(s', n, choices[1..], j - 1);
        }
      }
    }
  }

  /** How far the loop can overshoot: starting below `target`, it stops with at most `target - 1 + (n - 2)`
      tiles consumed, because only the last segment crosses the target and it opens at most `n - 2` cells. */
  lemma {:induction false} CarveOvershootBound(s: Carver, n: int, target: int, choices: seq<Choice>)
    requires n >= 3 && IsSquare(s.grid, n) && ValidChoices(choices, n)
    requires s.consumed < target
    ensures Carve(s, n, target, choices).state.consumed <= target - 1 + (n - 2)
    decreases |choices|
  {
    if |choices| > 0 {
      var d := Direction(choices[0]);
      var s' := Segment(s, n, d.0, d.1, choices[0].steps);
      assert ValidChoice(choices[0], n);
      SegmentGrowth(s, n, d.0, d.1, choices[0].steps);
      if s'.consumed < target {
        CarveOvershootBound(s', n, target, choices[1..]);
      }
    }
  }

  /** The generator opens nothing for a target of at most 0, and otherwise at most `tilesToRemove + n - 3`
      cells, whatever the draws. */
  lemma GenerateOvershootBound(n: nat, target: int, choices: seq<Choice>)
    requires n >= 3 && ValidChoices(choices, n)
    ensures Generate(n, target, choices).state.consumed <= if target <= 0 then 0 else target + n - 3
  {
    if target > 0 {
      CarveOvershootBound(Initial(n), n, target, choices);
    }
  }

  // ---------------------------------------------------------------- the imperative generator

  /** The array cells agree with the rows of `g`. */
  ghost predicate Mirrors(data: array2<bool>, g: Grid, n: int)
    reads data
    requires IsSquare(g, n)
  {
    data.Length0 == n && data.Length1 == n &&
    forall r, c :: 0 <= r < n && 0 <= c < n ==> data[r, c] == g[r][c]
  }

  /** After the array write of a step, the array mirrors the grid the step produces. */
  lemma MirrorsStep(data: array2<bool>, s: Carver, t: Carver, n: int)
    requires n >= 3 && IsSquare(s.grid, n) && IsSquare(t.grid, n)
    requires data.Length0 == n && data.Length1 == n
    requires 0 <= t.y < n && 0 <= t.x < n && !data[t.y, t.x] && !t.grid[t.y][t.x]
    requires forall r, c :: 0 <= r < n && 0 <= c < n && (r != t.y || c != t.x) ==> t.grid[r][c] == s.grid[r][c]
    requires forall r, c :: 0 <= r < n && 0 <= c < n && (r != t.y || c != t.x) ==> data[r, c] == s.grid[r][c]
    ensures Mirrors(data, t.grid, n)
  {
  }

  /** `new bool[n, n]` followed by the loop that sets every cell to a wall. */
  method NewWallMap(n: nat) returns (data: array2<bool>)
    ensures fresh(data)
    ensures Mirrors(data, AllWallGrid(n), n)
  {
    data := new bool[n, n];
    var y := 0;
    while y < n
      invariant 0 <= y <= n
      invariant forall r, c :: 0 <= r < y && 0 <= c < n ==> data[r, c]
    {
      var x := 0;
      while x < n
        invariant 0 <= x <= n
        invariant forall r, c :: 0 <= r < y && 0 <= c < n ==> data[r, c]
        invariant forall c :: 0 <= c < x ==> data[y, c]
      {
        data[y, x] := true;
        x := x + 1;
      }
      y := y + 1;
    }
  }

  /** The inner `for` loop of one segment, carving on the array. */
  method CarveSegment(data: array2<bool>, n: int, mazeX: int, mazeY: int, tilesConsumed: int,
                      xDirection: int, yDirection: int, steps: nat, ghost s0: Carver)
    returns (x: int, y: int, consumed: int, ghost s: Carver)
    requires n >= 3 && IsSquare(s0.grid, n) && Mirrors(data, s0.grid, n)
    requires s0.x == mazeX && s0.y == mazeY && s0.consumed == tilesConsumed
    modifies data
    ensures IsSquare(s.grid, n) && Mirrors(data, s.grid, n)
    ensures s == Segment(s0, n, xDirection, yDirection, steps)
    ensures s.x == x && s.y == y && s.consumed == consumed
  {
    x, y, consumed, s := mazeX, mazeY, tilesConsumed, s0;
    var i := 0;
    while i < steps
      invariant 0 <= i <= steps
      invariant IsSquare(s.grid, n) && Mirrors(data, s.grid, n)
      invariant s == Segment(s0, n, xDirection, yDirection, i)
      invariant s.x == x && s.y == y && s.consumed == consumed
    {
      ghost var t := Step(s, n, xDirection, yDirection);
      x := Clamp(x + xDirection, 1, n - 2);
      y := Clamp(y + yDirection, 1, n - 2);
      if data[y, x] {
        data[y, x] := false;
        consumed := consumed + 1;
      }
      MirrorsStep(data, s, t, n);
      s := t;
      i := i + 1;
    }
  }

  /** Reads the array back as rows. */
  method Rows(data: array2<bool>, ghost g: Grid, n: int) returns (rows: Grid)
    requires IsSquare(g, n) && Mirrors(data, g, n)
    ensures rows == g
  {
    rows := [];
    var y := 0;
    while y < n
      invariant 0 <= y <= n
      invariant rows == g[..y]
    {
      var row: seq<bool> := [];
      var x := 0;
      while x < n
        invariant 0 <= x <= n
        invariant row == g[y][..x]
      {
        row := row + [data[y, x]];
        x := x + 1;
      }
      assert row == g[y];
      assert g[..y + 1] == g[..y] + [g[y]];
      rows := rows + [row];
      y := y + 1;
    }
  }

  /** One turn of the carving loop from draw `k` on: a segment, then the loop from draw `k + 1`. */
  lemma CarveUnfold(s: Carver, n: int, target: int, choices: seq<Choice>, k: int)
    requires n >= 3 && IsSquare(s.grid, n) && ValidChoices(choices, n)
    requires 0 <= k < |choices| && s.consumed < target
    ensures var d := Direction(choices[k]);
            var o := Carve(Segment(s, n, d.0, d.1, choices[k].steps), n, target, choices[k + 1..]);
            Carve(s, n, target, choices[k..]) == Outcome(o.state, o.segments + 1)
  {
    assert choices[k..][1..] == choices[k + 1..];
  }

  /** `GenerateMazeData`: fills a fresh `n × n` map with walls, then runs the segment loop on it with the
      draws in `choices`, and returns the map (as rows), the cursor, the counter and the segments used. */
  method GenerateMazeData(n: int, tilesToRemove: int, choices: seq<Choice>) returns (o: Outcome)
    requires n >= 3 && ValidChoices(choices, n)
    ensures o == Generate(n, tilesToRemove, choices)
    ensures Wf(o.state, n)
    ensures o.state.consumed <= (n - 2) * (n - 2)
    ensures Exited(o, tilesToRemove) || o.segments == |choices|
    ensures o.segments >= 1 ==> OnOpenInterior(o.state, n)
  {
    var data := NewWallMap(n);
    var mazeX, mazeY, tilesConsumed := StartX, StartY, 0;
    ghost var s := Initial(n);
    ghost var total := Generate(n, tilesToRemove, choices);
    var k := 0;
    while tilesConsumed < tilesToRemove && k < |choices|
      invariant 0 <= k <= |choices|
      invariant IsSquare(s.grid, n) && Mirrors(data, s.grid, n)
      invariant s.x == mazeX && s.y == mazeY && s.consumed == tilesConsumed
      invariant Carve(s, n, tilesToRemove, choices[k..]).state == total.state
      invariant Carve(s, n, tilesToRemove, choices[k..]).segments + k == total.segments
      decreases |choices| - k
    {
      var c := choices[k];
      CarveUnfold(s, n, tilesToRemove, choices, k);
      var xDirection, yDirection := 0, 0;
      if c.alongX {
        xDirection := if c.positive then 1 else -1;
      } else {
        yDirection := if c.positive then 1 else -1;
      }
      assert (xDirection, yDirection) == Direction(c);
      mazeX, mazeY, tilesConsumed, s := CarveSegment(data, n, mazeX, mazeY, tilesConsumed,
                                                     xDirection, yDirection, c.steps, s);
      k := k + 1;
    }
    var rows := Rows(data, s.grid, n);
    o := Outcome(Carver(rows, mazeX, mazeY, tilesConsumed), k);
    GenerateInvariant(n, tilesToRemove, choices);
  }
}
