/**
 * The distance score of `State.manhattan`: for every one of the nine cells,
 * the blank included, the row plus column distance between where `returnPos`
 * finds the cell's content on the board and where it finds it on the goal board.
 */
module Heuristic {
  import opened Boards

  function Abs(n: int): nat {
    if n < 0 then -n else n
  }

  /** Every cell is one of the goal board's tiles ("0" .. "8"), so that the
      goal board's `returnPos` finds it. */
  predicate TilesOnly(g: Grid)
    requires Shape(g)
  {
    forall y, x :: 0 <= y < 3 && 0 <= x < 3 ==> IsTile(g[y][x])
  }

  /** Where the goal board holds tile `t`: "1" .. "8" row by row, the
      blank last. */
  function GoalPos(t: string): (p: Position)
    requires IsTile(t)
    ensures InBounds(p)
  {
    var k := (t[0] as int) - ('0' as int);
    if k == 0 then Position(2, 2) else Position((k - 1) % 3, (k - 1) / 3)
  }

  /** The goal board holds each tile at its goal position. */
  lemma GoalPosCell(t: string)
    requires IsTile(t)
    ensures Goal[GoalPos(t).y][GoalPos(t).x] == t
  {
    assert t == [t[0]];
    var d := t[0];
    if d == '1' { assert Goal[0][0] == t; }
    else if d == '2' { assert Goal[0][1] == t; }
    else if d == '3' { assert Goal[0][2] == t; }
    else if d == '4' { assert Goal[1][0] == t; }
    else if d == '5' { assert Goal[1][1] == t; }
    else if d == '6' { assert Goal[1][2] == t; }
    else if d == '7' { assert Goal[2][0] == t; }
    else if d == '8' { assert Goal[2][1] == t; }
    else { assert Goal[2][2] == t; }
  }

  lemma GoalHoldsTiles(t: string)
    requires IsTile(t)
    ensures Contains(Goal, t)
  {
    GoalPosCell(t);
  }

  /** `returnPos` on the goal board finds each tile at its goal position. */
  lemma GoalFirstPos(t: string)
    requires IsTile(t)
    ensures FirstPos(Goal, t) == Some(GoalPos(t))
  {
    GoalValid();
    GoalPosCell(t);
    FirstPosValid(Goal, GoalPos(t));
  }

  /** Row distance plus column distance. */
  function Distance(p: Position, q: Position): nat {
    Abs(p.x - q.x) + Abs(p.y - q.y)
  }

  /** The term that `manhattan` adds for the cell at row `y`, column `x`:
      `returnPos` of the cell's content on the board and on the goal board. */
  function CellDistance(g: Grid, y: int, x: int): (d: nat)
    requires Shape(g) && TilesOnly(g) && 0 <= y < 3 && 0 <= x < 3
    ensures d <= 4
  {
    assert Contains(g, g[y][x]);
    Distance(FirstPos(g, g[y][x]).value, GoalPos(g[y][x]))
  }

  /** The terms of the first `n` cells of row `y`. */
  function RowDistance(g: Grid, y: int, n: int): (d: nat)
    requires Shape(g) && TilesOnly(g) && 0 <= y < 3 && 0 <= n <= 3
    ensures d <= 4 * n
  {
    if n == 0 then 0 else RowDistance(g, y, n - 1) + CellDistance(g, y, n - 1)
  }

  /** The terms of the first `m` rows. */
  function RowsDistance(g: Grid, m: int): (d: nat)
    requires Shape(g) && TilesOnly(g) && 0 <= m <= 3
    ensures d <= 12 * m
  {
    if m == 0 then 0 else RowsDistance(g, m - 1) + RowDistance(g, m - 1, 3)
  }

  /** The value `manhattan()` returns. */
  function Manhattan(g: Grid): (m: nat)
    requires Shape(g) && TilesOnly(g)
    ensures m <= 36
  {
    RowsDistance(g, 3)
  }

  lemma {:induction false} RowDistanceZero(g: Grid, y: int, n: int)
    requires Shape(g) && TilesOnly(g) && 0 <= y < 3 && 0 <= n <= 3
    ensures RowDistance(g, y, n) == 0 <==> forall x :: 0 <= x < n ==> CellDistance(g, y, x) == 0
  {
    if n > 0 {
      RowDistanceZero(g, y, n - 1);
      var d := CellDistance(g, y, n - 1);
      assert RowDistance(g, y, n) == RowDistance(g, y, n - 1) + d;
      if RowDistance(g, y, n) == 0 {
        forall x | 0 <= x < n
          ensures CellDistance(g, y, x) == 0
        {
          if x == n - 1 { assert d == 0; }
        }
      }
    }
  }

  lemma {:induction false} RowsDistanceZero(g: Grid, m: int)
    requires Shape(g) && TilesOnly(g) && 0 <= m <= 3
    ensures RowsDistance(g, m) == 0 <==>
      forall y, x :: 0 <= y < m && 0 <= x < 3 ==> CellDistance(g, y, x) == 0
  {
    if m > 0 {
      RowsDistanceZero(g, m - 1);
      RowDistanceZero(g, m - 1, 3);
      var d := RowDistance(g, m - 1, 3);
      assert RowsDistance(g, m) == RowsDistance(g, m - 1) + d;
      if RowsDistance(g, m) == 0 {
        forall y, x | 0 <= y < m && 0 <= x < 3
          ensures CellDistance(g, y, x) == 0
        {
          if y == m - 1 { assert d == 0; }
        }
      }
    }
  }

  /** A tile's goal position is the goal cell that holds it. */
  lemma GoalPosAt(y: int, x: int)
    requires 0 <= y < 3 && 0 <= x < 3
    ensures IsTile(Goal[y][x]) && GoalPos(Goal[y][x]) == Position(x, y)
  {
    GoalValid();
    ValidTiles(Goal);
    var p := GoalPos(Goal[y][x]);
    GoalPosCell(Goal[y][x]);
    ValidDistinct(Goal, p.y, p.x, y, x);
  }

  /** A tile is at goal position (x, y) exactly when the goal board holds it there. */
  lemma GoalPosIs(y: int, x: int, t: string)
    requires 0 <= y < 3 && 0 <= x < 3 && IsTile(t)
    ensures GoalPos(t) == Position(x, y) <==> t == Goal[y][x]
  {
    GoalPosAt(y, x);
  }

  /** When no value occurs twice, `returnPos` finds each cell's content at that cell. */
  lemma CellDistanceUnique(g: Grid, y: int, x: int)
    requires Shape(g) && TilesOnly(g) && Unique(g) && 0 <= y < 3 && 0 <= x < 3
    ensures CellDistance(g, y, x) == Distance(Position(x, y), GoalPos(g[y][x]))
  {
  }

  /** When no value occurs twice, a cell's term is 0 exactly when the cell
      holds what the goal board holds there. */
  lemma CellDistanceZero(g: Grid, y: int, x: int)
    requires Shape(g) && TilesOnly(g) && Unique(g) && 0 <= y < 3 && 0 <= x < 3
    ensures CellDistance(g, y, x) == 0 <==> g[y][x] == Goal[y][x]
  {
    CellDistanceUnique(g, y, x);
    GoalPosIs(y, x, g[y][x]);
  }

  lemma AllTermsZeroIsGoal(g: Grid)
    requires Shape(g) && TilesOnly(g) && Unique(g)
    requires forall y, x :: 0 <= y < 3 && 0 <= x < 3 ==> CellDistance(g, y, x) == 0
    ensures g == Goal
  {
    forall y, x | 0 <= y < 3 && 0 <= x < 3
      ensures g[y][x] == Goal[y][x]
    {
      CellDistanceZero(g, y, x);
    }
    GridsEqual(g, Goal);
  }

  /** A well-formed board that scores 0 is the goal board. */
  lemma ManhattanZeroIsGoal(g: Grid)
    requires Valid(g)
    ensures Shape(g) && TilesOnly(g)
    ensures Manhattan(g) == 0 ==> g == Goal
  {
    ValidTiles(g);
    if Manhattan(g) == 0 {
      ValidUnique(g);
      RowsDistanceZero(g, 3);
      AllTermsZeroIsGoal(g);
    }
  }

  /** The goal board scores 0. */
  lemma ManhattanGoal()
    ensures Shape(Goal) && TilesOnly(Goal)
    ensures Manhattan(Goal) == 0
  {
    GoalValid();
    ValidTiles(Goal);
    ValidUnique(Goal);
    forall y, x | 0 <= y < 3 && 0 <= x < 3
      ensures CellDistance(Goal, y, x) == 0
    {
      CellDistanceZero(Goal, y, x);
    }
    RowsDistanceZero(Goal, 3);
  }
}
