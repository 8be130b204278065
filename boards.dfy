/**
 * The 3x3 board as the Python code holds it: a list of three rows of three
 * strings, with "0" as the blank. Everything here is a value; the object that
 * the program mutates in place is `PuzzleLib.Board`, whose `cells` field holds
 * one of these grids.
 */
module Boards {

  datatype Option<T> = None | Some(value: T)

  /** The source's Position: x is the column, y is the row. */
  datatype Position = Position(x: int, y: int)

  type Grid = seq<seq<string>>

  const Blank: string := "0"

  /** The board that `parse_puzzle("1 2 3 \n4 5 6 \n7 8 0")` yields. */
  const Goal: Grid := [["1", "2", "3"], ["4", "5", "6"], ["7", "8", "0"]]

  /** The goal board's cells, row after row. */
  const GoalCells: seq<string> := Goal[0] + Goal[1] + Goal[2]

  /** The nine tiles "0" .. "8", each once. */
  const Tiles: multiset<string> := multiset(GoalCells)

  /** One of the nine tiles "0" .. "8". */
  predicate IsTile(s: string) {
    |s| == 1 && '0' <= s[0] <= '8'
  }

  predicate Shape(g: Grid) {
    |g| == 3 && forall y :: 0 <= y < 3 ==> |g[y]| == 3
  }

  predicate InBounds(p: Position) {
    0 <= p.x < 3 && 0 <= p.y < 3
  }

  /** `p` is visited strictly before `q` by a row-major scan. */
  predicate Before(p: Position, q: Position) {
    p.y < q.y || (p.y == q.y && p.x < q.x)
  }

  /** All cells, row after row (any shape). */
  function Cells(g: Grid): seq<string>
    decreases |g|
  {
    if g == [] then [] else Cells(g[..|g| - 1]) + g[|g| - 1]
  }

  predicate Contains(g: Grid, v: string)
    requires Shape(g)
  {
    exists y, x :: 0 <= y < 3 && 0 <= x < 3 && g[y][x] == v
  }

  /** A well-formed board: 3x3, holding each of "0" .. "8" exactly once. */
  predicate Valid(g: Grid) {
    Shape(g) && multiset(Cells(g)) == Tiles
  }

  /** The row-major scan of `returnPos`, resumed at row `y`, column `x`. */
  function Scan(g: Grid, v: string, y: int, x: int): (r: Option<Position>)
    requires Shape(g) && 0 <= y <= 3 && 0 <= x < 3
    ensures r.Some? ==> InBounds(r.value) && g[r.value.y][r.value.x] == v
    ensures r.Some? ==> !Before(r.value, Position(x, y))
    ensures r.Some? ==> forall y', x' ::
      (0 <= y' < 3 && 0 <= x' < 3 && !Before(Position(x', y'), Position(x, y)) && Before(Position(x', y'), r.value))
      ==> g[y'][x'] != v
    ensures r.None? ==> forall y', x' ::
      (0 <= y' < 3 && 0 <= x' < 3 && !Before(Position(x', y'), Position(x, y))) ==> g[y'][x'] != v
    decreases 3 - y, 3 - x
  {
    if y == 3 then None
    else if g[y][x] == v then Some(Position(x, y))
    else if x < 2 then Scan(g, v, y, x + 1)
    else Scan(g, v, y + 1, 0)
  }

  /** `returnPos(v)`: the first cell, in row-major order, that holds `v`. */
  function FirstPos(g: Grid, v: string): (r: Option<Position>)
    requires Shape(g)
    ensures r.Some? ==> InBounds(r.value) && g[r.value.y][r.value.x] == v
    ensures r.Some? ==> forall y, x ::
      (0 <= y < 3 && 0 <= x < 3 && Before(Position(x, y), r.value)) ==> g[y][x] != v
    ensures r.None? <==> !Contains(g, v)
  {
    Scan(g, v, 0, 0)
  }

  /** A matching cell with no match before it is what the scan finds. */
  lemma FirstPosAt(g: Grid, v: string, p: Position)
    requires Shape(g) && InBounds(p) && g[p.y][p.x] == v
    requires forall y, x :: 0 <= y < 3 && 0 <= x < 3 && Before(Position(x, y), p) ==> g[y][x] != v
    ensures FirstPos(g, v) == Some(p)
  {
    assert Contains(g, v);
  }

  /** Where the blank is. */
  function BlankAt(g: Grid): (p: Position)
    requires Shape(g) && Contains(g, Blank)
    ensures InBounds(p) && g[p.y][p.x] == Blank
  {
    FirstPos(g, Blank).value
  }

  /** The tuple assignment of `swapNumber`: cell `p` takes the old content of
      cell `q`, then cell `q` takes the old content of cell `p`. */
  function SwapCells(g: Grid, p: Position, q: Position): (r: Grid)
    requires Shape(g) && InBounds(p) && InBounds(q)
    ensures Shape(r)
    ensures r[p.y][p.x] == g[q.y][q.x] && r[q.y][q.x] == g[p.y][p.x]
    ensures forall y, x :: 0 <= y < 3 && 0 <= x < 3 && Position(x, y) != p && Position(x, y) != q ==>
      r[y][x] == g[y][x]
  {
    var a := g[q.y][q.x];
    var b := g[p.y][p.x];
    var g1 := g[p.y := g[p.y][p.x := a]];
    g1[q.y := g1[q.y][q.x := b]]
  }

  /** The board `swapNumber(number)` leaves behind: the first blank and the
      first cell holding `number` trade contents. */
  function NumberSwapped(g: Grid, number: string): (r: Grid)
    requires Shape(g) && Contains(g, Blank) && Contains(g, number)
    ensures var z, n := BlankAt(g), FirstPos(g, number).value;
      && Shape(r) && r[z.y][z.x] == number && r[n.y][n.x] == Blank
      && forall y, x :: 0 <= y < 3 && 0 <= x < 3 && Position(x, y) != z && Position(x, y) != n ==>
           r[y][x] == g[y][x]
  {
    SwapCells(g, BlankAt(g), FirstPos(g, number).value)
  }

  /** The cell next to `p` in a direction (for the four directions). */
  function Step(p: Position, direction: string): Position {
    if direction == "UP" then Position(p.x, p.y - 1)
    else if direction == "DOWN" then Position(p.x, p.y + 1)
    else if direction == "RIGHT" then Position(p.x + 1, p.y)
    else if direction == "LEFT" then Position(p.x - 1, p.y)
    else p
  }

  /** The blank at `p` may move that way: a known direction, and not off an edge. */
  predicate Legal(p: Position, direction: string) {
    || (direction == "UP" && p.y != 0)
    || (direction == "DOWN" && p.y != 2)
    || (direction == "RIGHT" && p.x != 2)
    || (direction == "LEFT" && p.x != 0)
  }

  function Opposite(direction: string): string {
    if direction == "UP" then "DOWN"
    else if direction == "DOWN" then "UP"
    else if direction == "RIGHT" then "LEFT"
    else if direction == "LEFT" then "RIGHT"
    else direction
  }

  /** The board `createChildren(direction)` produces, if it produces one: the
      blank is swapped (through `swapNumber`) with the value of the cell next
      to it. */
  function Move(g: Grid, direction: string): (r: Option<Grid>)
    requires Shape(g) && Contains(g, Blank)
    ensures r.Some? <==> Legal(BlankAt(g), direction)
  {
    var z := BlankAt(g);
    if direction == "UP" && z.y != 0 then
      Some(NumberSwapped(g, g[z.y - 1][z.x]))
    else if direction == "DOWN" && z.y != 2 then
      Some(NumberSwapped(g, g[z.y + 1][z.x]))
    else if direction == "RIGHT" && z.x != 2 then
      Some(NumberSwapped(g, g[z.y][z.x + 1]))
    else if direction == "LEFT" && z.x != 0 then
      Some(NumberSwapped(g, g[z.y][z.x - 1]))
    else None
  }

  // ---------------------------------------------------------------------
  // Facts about well-formed boards

  lemma CellsOfShape(g: Grid)
    requires Shape(g)
    ensures Cells(g) == g[0] + g[1] + g[2]
    ensures |Cells(g)| == 9
    ensures forall y, x :: 0 <= y < 3 && 0 <= x < 3 ==> Cells(g)[3 * y + x] == g[y][x]
  {
    CellsOfRows(g);
  }

  lemma CellsOfRows(g: Grid)
    requires Shape(g)
    ensures Cells(g) == g[0] + g[1] + g[2]
  {
    var g1, g2 := g[..1], g[..2];
    assert g1[..0] == [] && g1[0] == g[0];
    assert Cells(g1) == g[0];
    assert g2[..1] == g1 && g2[1] == g[1];
    assert Cells(g2) == g[0] + g[1];
    assert g[..2] == g2;
    assert Cells(g) == g[0] + g[1] + g[2];
  }

  lemma TwiceMeansTwo(s: seq<string>, i: int, j: int)
    requires 0 <= i < j < |s| && s[i] == s[j]
    ensures multiset(s)[s[i]] >= 2
  {
    assert s == s[..j] + s[j..];
    assert s[i] in s[..j];
    assert s[j] in s[j..];
    assert multiset(s) == multiset(s[..j]) + multiset(s[j..]);
  }

  lemma TilesOnce(v: string)
    ensures Tiles[v] <= 1
  {
  }

  lemma GoalValid()
    ensures Valid(Goal)
  {
    CellsOfShape(Goal);
  }

  lemma TileIsDigit(v: string)
    requires v in Tiles
    ensures IsTile(v)
  {
    assert v in GoalCells;
    var i :| 0 <= i < 9 && GoalCells[i] == v;
  }

  /** On a well-formed board every cell is a tile. */
  lemma ValidTiles(g: Grid)
    requires Valid(g)
    ensures forall y, x :: 0 <= y < 3 && 0 <= x < 3 ==> IsTile(g[y][x])
  {
    CellsOfShape(g);
    var c := Cells(g);
    forall y, x | 0 <= y < 3 && 0 <= x < 3
      ensures IsTile(g[y][x])
    {
      assert c[3 * y + x] == g[y][x];
      assert c[3 * y + x] in multiset(c);
      TileIsDigit(g[y][x]);
    }
  }

  /** On a well-formed board no two cells hold the same string. */
  lemma ValidDistinct(g: Grid, y1: int, x1: int, y2: int, x2: int)
    requires Valid(g)
    requires 0 <= y1 < 3 && 0 <= x1 < 3 && 0 <= y2 < 3 && 0 <= x2 < 3
    requires g[y1][x1] == g[y2][x2]
    ensures y1 == y2 && x1 == x2
  {
    CellsOfShape(g);
    var c := Cells(g);
    var i, j := 3 * y1 + x1, 3 * y2 + x2;
    assert c[i] == g[y1][x1] && c[j] == g[y2][x2];
    if i < j {
      TwiceMeansTwo(c, i, j);
      TilesOnce(c[i]);
    } else if j < i {
      TwiceMeansTwo(c, j, i);
      TilesOnce(c[j]);
    }
  }

  lemma BlankInTiles()
    ensures Blank in Tiles
  {
    assert GoalCells[8] == Blank;
  }

  /** A well-formed board holds the blank. */
  lemma ValidHasBlank(g: Grid)
    requires Valid(g)
    ensures Contains(g, Blank)
  {
    CellsOfRows(g);
    var c := Cells(g);
    BlankInTiles();
    assert Blank in multiset(c);
    if Blank in g[0] {
      var x :| 0 <= x < 3 && g[0][x] == Blank;
      assert g[0][x] == Blank;
    } else if Blank in g[1] {
      var x :| 0 <= x < 3 && g[1][x] == Blank;
      assert g[1][x] == Blank;
    } else {
      assert Blank in g[2];
      var x :| 0 <= x < 3 && g[2][x] == Blank;
      assert g[2][x] == Blank;
    }
  }

  /** On a well-formed board, `returnPos` of a cell's content is that cell. */
  lemma FirstPosValid(g: Grid, p: Position)
    requires Valid(g) && InBounds(p)
    ensures FirstPos(g, g[p.y][p.x]) == Some(p)
  {
    assert Contains(g, g[p.y][p.x]);
    var r := FirstPos(g, g[p.y][p.x]).value;
    ValidDistinct(g, r.y, r.x, p.y, p.x);
  }

  /** No value occurs twice: `returnPos` of each cell's content is that cell. */
  predicate Unique(g: Grid)
    requires Shape(g)
  {
    forall y, x :: 0 <= y < 3 && 0 <= x < 3 ==> FirstPos(g, g[y][x]) == Some(Position(x, y))
  }

  lemma ValidUnique(g: Grid)
    requires Valid(g)
    ensures Unique(g)
  {
    forall y, x | 0 <= y < 3 && 0 <= x < 3
      ensures FirstPos(g, g[y][x]) == Some(Position(x, y))
    {
      FirstPosValid(g, Position(x, y));
    }
  }

  lemma MultisetSwap(s: seq<string>, i: int, j: int)
    requires 0 <= i < |s| && 0 <= j < |s|
    ensures multiset(s[i := s[j]][j := s[i]]) == multiset(s)
  {
    if i != j {
      var t := s[i := s[j]][j := s[i]];
      assert multiset(s[i := s[j]]) == multiset(s) - multiset{s[i]} + multiset{s[j]};
    }
  }

  /** Swapping two cells of the grid swaps the same two entries of its row-major cells. */
  lemma SwapCellsFlat(g: Grid, p: Position, q: Position)
    requires Shape(g) && InBounds(p) && InBounds(q)
    ensures var c, i, j := Cells(g), 3 * p.y + p.x, 3 * q.y + q.x;
      |c| == 9 && Cells(SwapCells(g, p, q)) == c[i := c[j]][j := c[i]]
  {
    var r := SwapCells(g, p, q);
    CellsOfShape(g);
    CellsOfShape(r);
    var c, i, j := Cells(g), 3 * p.y + p.x, 3 * q.y + q.x;
    var t := c[i := c[j]][j := c[i]];
    forall y, x | 0 <= y < 3 && 0 <= x < 3
      ensures r[y][x] == t[3 * y + x]
    {
      if Position(x, y) == p {
      } else if Position(x, y) == q {
      } else {
        assert r[y][x] == g[y][x];
      }
    }
    forall k | 0 <= k < 9
      ensures Cells(r)[k] == t[k]
    {
      var y := if k < 3 then 0 else if k < 6 then 1 else 2;
      var x := k - 3 * y;
      assert r[y][x] == t[3 * y + x];
      assert Cells(r)[3 * y + x] == r[y][x];
    }
  }

  /** Swapping two cells keeps the cells' multiset, so a well-formed board stays well-formed. */
  lemma SwapKeepsValid(g: Grid, p: Position, q: Position)
    requires Valid(g) && InBounds(p) && InBounds(q)
    ensures Valid(SwapCells(g, p, q))
  {
    SwapCellsFlat(g, p, q);
    CellsOfShape(g);
    MultisetSwap(Cells(g), 3 * p.y + p.x, 3 * q.y + q.x);
  }

  /** Two 3x3 grids that agree cell by cell are equal. */
  lemma GridsEqual(g: Grid, h: Grid)
    requires Shape(g) && Shape(h)
    requires forall y, x :: 0 <= y < 3 && 0 <= x < 3 ==> g[y][x] == h[y][x]
    ensures g == h
  {
    forall y | 0 <= y < 3
      ensures g[y] == h[y]
    {
      assert forall x :: 0 <= x < 3 ==> g[y][x] == h[y][x];
    }
  }

  /** Swapping the same two cells back restores the board. */
  lemma SwapTwice(g: Grid, p: Position, q: Position)
    requires Shape(g) && InBounds(p) && InBounds(q)
    ensures SwapCells(SwapCells(g, p, q), q, p) == g
  {
    var h := SwapCells(SwapCells(g, p, q), q, p);
    forall y, x | 0 <= y < 3 && 0 <= x < 3
      ensures h[y][x] == g[y][x]
    {
    }
    GridsEqual(h, g);
  }

  /** Whatever the board, a legal move swaps the first blank with the first
      cell holding the neighbour's value. */
  lemma MoveIsSwap(g: Grid, direction: string)
    requires Shape(g) && Contains(g, Blank) && Legal(BlankAt(g), direction)
    ensures InBounds(Step(BlankAt(g), direction))
    ensures var n := Step(BlankAt(g), direction);
      Contains(g, g[n.y][n.x]) && Move(g, direction) == Some(NumberSwapped(g, g[n.y][n.x]))
  {
    var z := BlankAt(g);
    var n := Step(z, direction);
    assert Contains(g, g[n.y][n.x]);
    if direction == "UP" {
    } else if direction == "DOWN" {
    } else if direction == "RIGHT" {
    } else {
      assert direction == "LEFT";
    }
  }

  /** On a well-formed board, `createChildren(direction)` makes a board exactly
      when the direction is one of the four and the blank is not on that edge;
      that board swaps the blank with its neighbour that way, is well-formed
      again, and has the blank on the neighbour's cell. */
  /** A move on a well-formed board gives a well-formed board. */
  lemma MoveValid(g: Grid, direction: string)
    requires Valid(g)
    ensures Contains(g, Blank)
    ensures Move(g, direction).Some? ==> Valid(Move(g, direction).value)
  {
    MoveOnValid(g, direction);
  }

  lemma MoveKeepsTiles(g: Grid, direction: string)
    requires Shape(g) && Contains(g, Blank) && forall y, x :: 0 <= y < 3 && 0 <= x < 3 ==> IsTile(g[y][x])
    ensures Move(g, direction).Some? ==> var h := Move(g, direction).value;
      Shape(h) && forall y, x :: 0 <= y < 3 && 0 <= x < 3 ==> IsTile(h[y][x])
  {
    var z := BlankAt(g);
    if Legal(z, direction) {
      MoveIsSwap(g, direction);
    }
  }

  lemma MoveOnValid(g: Grid, direction: string)
    requires Valid(g)
    ensures Contains(g, Blank)
    ensures Move(g, direction).Some? <==> Legal(BlankAt(g), direction)
    ensures Legal(BlankAt(g), direction) ==>
      var z := BlankAt(g);
      var n := Step(z, direction);
      var h := Move(g, direction).value;
      && InBounds(n)
      && h == SwapCells(g, z, n)
      && h[z.y][z.x] == g[n.y][n.x] && h[n.y][n.x] == Blank
      && Valid(h) && Contains(h, Blank) && BlankAt(h) == n
  {
    ValidHasBlank(g);
    var z := BlankAt(g);
    if Legal(z, direction) {
      MoveIsSwap(g, direction);
      var n := Step(z, direction);
      FirstPosValid(g, n);
      var h := SwapCells(g, z, n);
      assert Move(g, direction) == Some(h);
      SwapKeepsValid(g, z, n);
      ValidHasBlank(h);
      FirstPosValid(h, n);
    }
  }

  /** Stepping back the opposite way is legal and returns to the start. */
  lemma StepBack(p: Position, direction: string)
    requires InBounds(p) && Legal(p, direction)
    ensures Legal(Step(p, direction), Opposite(direction))
    ensures Step(Step(p, direction), Opposite(direction)) == p
  {
    if direction == "UP" {
    } else if direction == "DOWN" {
    } else if direction == "RIGHT" {
    } else {
      assert direction == "LEFT";
    }
  }

  /** A move followed by the opposite move gives the board back. */
  lemma MoveUndo(g: Grid, direction: string)
    requires Valid(g)
    ensures Contains(g, Blank)
    ensures Legal(BlankAt(g), direction) ==>
      var h := Move(g, direction).value;
      Valid(h) && Contains(h, Blank) && Move(h, Opposite(direction)) == Some(g)
  {
    MoveOnValid(g, direction);
    var z := BlankAt(g);
    if Legal(z, direction) {
      var n := Step(z, direction);
      var h := Move(g, direction).value;
      StepBack(z, direction);
      MoveOnValid(h, Opposite(direction));
      assert Move(h, Opposite(direction)) == Some(SwapCells(h, n, z));
      SwapTwice(g, z, n);
    }
  }
}
