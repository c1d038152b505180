/**
 The maze map of the level generator: a square grid of booleans in which
 `true` is a wall and `false` an open cell. A grid `g` is read `g[row][column]`,
 the same order as the generator's `mapData[y, x]` (and `mapData[z, x]` when
 the level is built).
 */
module MazeGrid {

  type Grid = seq<seq<bool>>

  /** `g` has `n` rows of `n` cells each. */
  predicate IsSquare(g: Grid, n: int) {
    |g| == n && forall r :: 0 <= r < |g| ==> |g[r]| == n
  }

  /** `v` lies in the range the carving cursor is clamped into, `[1, n-2]`. */
  predicate InInterior(v: int, n: int) {
    1 <= v <= n - 2
  }

  predicate OnBorder(r: int, c: int, n: int) {
    r == 0 || r == n - 1 || c == 0 || c == n - 1
  }

  /** Every cell of row and column 0 and of row and column `n-1` is a wall. */
  predicate BorderWalled(g: Grid, n: int)
    requires IsSquare(g, n)
  {
    forall r, c :: 0 <= r < n && 0 <= c < n && OnBorder(r, c, n) ==> g[r][c]
  }

  predicate AllWalls(g: Grid, n: int)
    requires IsSquare(g, n)
  {
    forall r, c :: 0 <= r < n && 0 <= c < n ==> g[r][c]
  }

  /** Carving between `before` and `after` only ever turned walls into open cells. */
  predicate OnlyOpened(before: Grid, after: Grid, n: int)
    requires IsSquare(before, n) && IsSquare(after, n)
  {
    forall r, c :: 0 <= r < n && 0 <= c < n && !before[r][c] ==> !after[r][c]
  }

  /** The freshly allocated map after its initialisation loop: walls everywhere. */
  function AllWallGrid(n: nat): (g: Grid)
    ensures IsSquare(g, n)
    ensures AllWalls(g, n)
    ensures BorderWalled(g, n)
  {
    seq(n, _ => seq(n, _ => true))
  }

  /** Number of open cells in one row. */
  function RowOpen(row: seq<bool>): (k: nat)
    ensures k <= |row|
  {
    if |row| == 0 then 0 else (if row[0] then 0 else 1) + RowOpen(row[1..])
  }

  /** Number of open cells in a grid. */
  function OpenCount(g: Grid): nat
  {
    if |g| == 0 then 0 else RowOpen(g[0]) + OpenCount(g[1..])
  }

  lemma {:induction false} RowOpenConcat(a: seq<bool>, b: seq<bool>)
    ensures RowOpen(a + b) == RowOpen(a) + RowOpen(b)
  {
    if |a| == 0 {
      assert a + b == b;
    } else {
      assert (a + b)[1..] == a[1..] + b;
      RowOpenConcat(a[1..], b);
    }
  }

  lemma {:induction false} OpenCountConcat(a: Grid, b: Grid)
    ensures OpenCount(a + b) == OpenCount(a) + OpenCount(b)
  {
    if |a| == 0 {
      assert a + b == b;
    } else {
      assert (a + b)[1..] == a[1..] + b;
      OpenCountConcat(a[1..], b);
    }
  }

  lemma {:induction false} RowOpenAllWalls(row: seq<bool>)
    requires forall i :: 0 <= i < |row| ==> row[i]
    ensures RowOpen(row) == 0
  {
    if |row| > 0 {
      RowOpenAllWalls(row[1..]);
    }
  }

  /** Opening one wall cell of a row adds exactly one open cell. */
  lemma RowOpenUpdate(row: seq<bool>, c: int)
    requires 0 <= c < |row| && row[c]
    ensures RowOpen(row[c := false]) == RowOpen(row) + 1
  {
    var pre, post := row[..c], row[c + 1..];
    assert row == pre + [true] + post;
    assert row[c := false] == pre + [false] + post;
    RowOpenConcat(pre + [true], post);
    RowOpenConcat(pre, [true]);
    RowOpenConcat(pre + [false], post);
    RowOpenConcat(pre, [false]);
  }

  /** Opening one wall cell of a grid adds exactly one open cell. */
  lemma OpenCountUpdate(g: Grid, r: int, c: int)
    requires 0 <= r < |g| && 0 <= c < |g[r]| && g[r][c]
    ensures OpenCount(g[r := g[r][c := false]]) == OpenCount(g) + 1
  {
    var pre, post := g[..r], g[r + 1..];
    assert g == pre + [g[r]] + post;
    assert g[r := g[r][c := false]] == pre + [g[r][c := false]] + post;
    OpenCountConcat(pre + [g[r]], post);
    OpenCountConcat(pre, [g[r]]);
    OpenCountConcat(pre + [g[r][c := false]], post);
    OpenCountConcat(pre, [g[r][c := false]]);
    RowOpenUpdate(g[r], c);
  }

  /** A row whose two end cells are walls has at most `|row| - 2` open cells. */
  lemma RowOpenFramed(row: seq<bool>)
    requires |row| >= 2 && row[0] && row[|row| - 1]
    ensures RowOpen(row) <= |row| - 2
  {
    var mid := row[1..|row| - 1];
    assert row == [row[0]] + mid + [row[|row| - 1]];
    RowOpenConcat([row[0]] + mid, [row[|row| - 1]]);
    RowOpenConcat([row[0]], mid);
  }

  lemma {:induction false} OpenCountRowsBound(rows: Grid, n: int)
    requires n >= 2
    requires forall i :: 0 <= i < |rows| ==> |rows[i]| == n && rows[i][0] && rows[i][n - 1]
    ensures OpenCount(rows) <= |rows| * (n - 2)
  {
    if |rows| > 0 {
      RowOpenFramed(rows[0]);
      OpenCountRowsBound(rows[1..], n);
      assert |rows| * (n - 2) == (|rows| - 1) * (n - 2) + (n - 2);
    }
  }

  /** A grid whose border is intact has at most `(n-2)²` open cells: only the interior can be open. */
  lemma OpenCountBound(g: Grid, n: int)
    requires n >= 2 && IsSquare(g, n) && BorderWalled(g, n)
    ensures OpenCount(g) <= (n - 2) * (n - 2)
  {
    var mid := g[1..n - 1];
    assert g == [g[0]] + mid + [g[n - 1]];
    OpenCountConcat([g[0]] + mid, [g[n - 1]]);
    OpenCountConcat([g[0]], mid);
    forall c | 0 <= c < n
      ensures g[0][c] && g[n - 1][c]
    {
      assert OnBorder(0, c, n) && OnBorder(n - 1, c, n);
    }
    RowOpenAllWalls(g[0]);
    RowOpenAllWalls(g[n - 1]);
    assert forall i :: 0 <= i < |mid| ==> mid[i] == g[i + 1] && OnBorder(i + 1, 0, n) && OnBorder(i + 1, n - 1, n);
    OpenCountRowsBound(mid, n);
  }

  /** A grid made only of walls has no open cell. */
  lemma {:induction false} OpenCountAllWalls(g: Grid)
    requires forall r, c :: 0 <= r < |g| && 0 <= c < |g[r]| ==> g[r][c]
    ensures OpenCount(g) == 0
  {
    if |g| > 0 {
      RowOpenAllWalls(g[0]);
      OpenCountAllWalls(g[1..]);
    }
  }
}
