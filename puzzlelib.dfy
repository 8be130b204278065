/**
 * The objects of `puzzlelib.py`: the board, a list of rows that the program
 * changes in place, and the `State` records that point at it. A child made by
 * `createChildren` points at the very same board object as its parent, so a
 * move changes the parent's board too.
 */
module PuzzleLib {
  import opened Text
  import opened Boards
  import opened Heuristic
  import opened Solvability
  import opened Parsing
  import opened Search

  /** The list of rows a State refers to. */
  class Board {
    var cells: Grid

    constructor (cells: Grid)
      ensures this.cells == cells
    {
      this.cells := cells;
    }
  }

  /** The source's `State`: a board, the number of moves that led to it, and
      the state it came from (`null` for a parsed one). */
  class State {
    const board: Board
    const moveCount: int
    const previous: State?

    constructor (board: Board, moveCount: int, previous: State?)
      ensures this.board == board && this.moveCount == moveCount && this.previous == previous
    {
      this.board := board;
      this.moveCount := moveCount;
      this.previous := previous;
    }

    /** `returnPos(number)`: the first cell, row by row, holding `number`, or
        `None` when no cell does. */
    method ReturnPos(number: string) returns (pos: Option<Position>)
      requires Shape(board.cells)
      ensures pos == FirstPos(board.cells, number)
    {
      var y := 0;
      while y < 3
        invariant 0 <= y <= 3
        invariant forall y', x' :: 0 <= y' < y && 0 <= x' < 3 ==> board.cells[y'][x'] != number
      {
        var x := 0;
        while x < 3
          invariant 0 <= x <= 3
          invariant forall y', x' :: 0 <= y' < y && 0 <= x' < 3 ==> board.cells[y'][x'] != number
          invariant forall x' :: 0 <= x' < x ==> board.cells[y][x'] != number
        {
          if board.cells[y][x] == number {
            FirstPosAt(board.cells, number, Position(x, y));
            return Some(Position(x, y));
          }
          x := x + 1;
        }
        y := y + 1;
      }
      return None;
    }

    /** `swapNumber(number)`: the blank and `number` trade cells, in this
        state's own board, and that board object is what is returned. */
    method SwapNumber(number: string) returns (tmp: Board)
      requires Shape(board.cells) && Contains(board.cells, Blank) && Contains(board.cells, number)
      modifies board
      ensures tmp == board
      ensures board.cells == NumberSwapped(old(board.cells), number)
    {
      var posZero := ReturnPos(Blank);
      var posNumber := ReturnPos(number);
      tmp := board;
      var z, n := posZero.value, posNumber.value;
      var atNumber, atZero := tmp.cells[n.y][n.x], tmp.cells[z.y][z.x];
      tmp.cells := tmp.cells[z.y := tmp.cells[z.y][z.x := atNumber]];
      tmp.cells := tmp.cells[n.y := tmp.cells[n.y][n.x := atZero]];
    }

    /** `manhattan()`: for each cell, the distance between where `returnPos`
        finds its content here and where it finds it on the goal board. */
    method Manhattan() returns (res: int)
      requires Shape(board.cells) && TilesOnly(board.cells)
      ensures res == Heuristic.Manhattan(board.cells)
      ensures res >= 0
    {
      res := 0;
      var idealState := ParseGoal();
      ghost var ideal := idealState.board.cells;
      ghost var g := board.cells;
      var y := 0;
      while y < 3
        invariant 0 <= y <= 3
        invariant res == RowsDistance(g, y)
        invariant idealState.board.cells == ideal && Ideal(ideal)
      {
        var x := 0;
        while x < 3
          invariant 0 <= x <= 3
          invariant res == RowsDistance(g, y) + RowDistance(g, y, x)
          invariant idealState.board.cells == ideal && Ideal(ideal)
        {
          var chiffre := board.cells[y][x];
          var currentPos := ReturnPos(chiffre);
          var idealPos := idealState.ReturnPos(chiffre);
          CellTerm(g, ideal, y, x, currentPos, idealPos);
          res := res + (Abs(currentPos.value.x - idealPos.value.x) + Abs(currentPos.value.y - idealPos.value.y));
          x := x + 1;
        }
        y := y + 1;
      }
    }

    /** `createChildren(direction)`: when the blank can move that way, it is
        swapped with its neighbour in this state's board and a new State on
        that same board is returned; otherwise nothing is made and nothing
        changes. */
    method CreateChildren(direction: string) returns (child: Option<State>)
      requires Shape(board.cells) && Contains(board.cells, Blank)
      modifies board
      ensures child.Some? <==> Legal(BlankAt(old(board.cells)), direction)
      ensures Move(old(board.cells), direction) == if child.Some? then Some(board.cells) else None
      ensures child.None? ==> board.cells == old(board.cells)
      ensures child.Some? ==>
        (fresh(child.value) && child.value.board == board
         && child.value.moveCount == moveCount + 1 && child.value.previous == this)
    {
      var pos := ReturnPos(Blank);
      var posZero := pos.value;
      ghost var g := board.cells;
      if direction == "UP" {
        if posZero.y != 0 {
          var number := board.cells[posZero.y - 1][posZero.x];
          assert Contains(g, number);
          var tmp := SwapNumber(number);
          var c := new State(tmp, moveCount + 1, this);
          return Some(c);
        }
      }
      if direction == "DOWN" {
        if posZero.y != 2 {
          var number := board.cells[posZero.y + 1][posZero.x];
          assert Contains(g, number);
          var tmp := SwapNumber(number);
          var c := new State(tmp, moveCount + 1, this);
          return Some(c);
        }
      }
      if direction == "RIGHT" {
        if posZero.x != 2 {
          var number := board.cells[posZero.y][posZero.x + 1];
          assert Contains(g, number);
          var tmp := SwapNumber(number);
          var c := new State(tmp, moveCount + 1, this);
          return Some(c);
        }
      }
      if direction == "LEFT" {
        if posZero.x != 0 {
          var number := board.cells[posZero.y][posZero.x - 1];
          assert Contains(g, number);
          var tmp := SwapNumber(number);
          var c := new State(tmp, moveCount + 1, this);
          return Some(c);
        }
      }
      return None;
    }

    /** `isSolvable()`: the count of `Solvability.SkipCount` over the board's
        non-blank values, and whether half of it is even. */
    method IsSolvable() returns (b: bool)
      requires DigitCells(board.cells)
      ensures b == Solvable(board.cells)
    {
      var g := board.cells;
      var oneDimensionArray: seq<int> := [];
      var y := 0;
      while y < |g|
        invariant 0 <= y <= |g|
        invariant Digits(Cells(g[..y])) && oneDimensionArray == Values(Cells(g[..y]))
      {
        var x := 0;
        VisitRow(g, y);
        while x < |g[y]|
          invariant 0 <= x <= |g[y]|
          invariant Digits(Visited(g, y, x)) && oneDimensionArray == Values(Visited(g, y, x))
        {
          VisitNext(g, y, x);
          var chiffre := g[y][x];
          if chiffre != Blank {
            oneDimensionArray := oneDimensionArray + [DigitValue(chiffre)];
          }
          x := x + 1;
        }
        y := y + 1;
      }
      assert g[..|g|] == g;
      var count := CountSmallerAfter(oneDimensionArray);
      b := HalfIsEven(count);
    }
  }

  /** The second loop of `isSolvable()`: for each value whose first index
      plus one is not the value itself, the number of smaller values after
      that first index. */
  method CountSmallerAfter(a: seq<int>) returns (count: nat)
    ensures count == SkipCount(a, |a|)
  {
    count := 0;
    var i := 0;
    while i < |a|
      invariant 0 <= i <= |a|
      invariant count == SkipCount(a, i)
    {
      var chiffre := a[i];
      var k := FirstIndex(a, chiffre);
      SkipCountStep(a, i, k);
      if k + 1 != chiffre {
        var rest := a[k + 1..];
        var smaller, j := 0, 0;
        while j < |rest|
          invariant 0 <= j <= |rest|
          invariant smaller == CountLess(rest[..j], chiffre)
        {
          CountLessStep(rest, j, chiffre);
          if rest[j] < chiffre {
            smaller := smaller + 1;
          }
          j := j + 1;
        }
        assert rest[..|rest|] == rest;
        count := count + smaller;
      }
      i := i + 1;
    }
  }

  /** A board on which `returnPos` finds every tile where the goal board has it. */
  ghost predicate Ideal(ideal: Grid) {
    Shape(ideal) && forall t {:trigger FirstPos(ideal, t)} :: IsTile(t) ==> FirstPos(ideal, t) == Some(GoalPos(t))
  }

  lemma GoalIdeal()
    ensures Ideal(Goal)
  {
    forall t | IsTile(t)
      ensures FirstPos(Goal, t) == Some(GoalPos(t))
    {
      GoalFirstPos(t);
    }
  }

  /** The term `manhattan` adds for one cell, from the two `returnPos` results. */
  lemma CellTerm(g: Grid, ideal: Grid, y: int, x: int, currentPos: Option<Position>, idealPos: Option<Position>)
    requires Shape(g) && TilesOnly(g) && Ideal(ideal) && 0 <= y < 3 && 0 <= x < 3
    requires currentPos == FirstPos(g, g[y][x]) && idealPos == FirstPos(ideal, g[y][x])
    ensures currentPos.Some? && idealPos.Some?
    ensures Abs(currentPos.value.x - idealPos.value.x) + Abs(currentPos.value.y - idealPos.value.y)
      == CellDistance(g, y, x)
  {
    assert Contains(g, g[y][x]);
  }

  /** The goal state that `manhattan` and `resolve` parse from its text. */
  method ParseGoal() returns (st: State)
    ensures fresh(st) && fresh(st.board)
    ensures st.board.cells == Goal && Ideal(st.board.cells)
  {
    var goalText := "1 2 3 \n4 5 6 \n7 8 0";
    st := ParsePuzzle(goalText, 0);
    ParseGoalText(goalText);
    GoalIdeal();
  }

  /** `parse_puzzle(text, move_count)`: a new State, with no previous state,
      on a new board holding the parsed text. */
  method ParsePuzzle(text: string, moveCount: int) returns (st: State)
    ensures fresh(st) && fresh(st.board)
    ensures st.board.cells == ParseGrid(text)
    ensures st.moveCount == moveCount && st.previous == null
  {
    var state: Grid := [];
    var tmpArray := Take3(Split(text, '\n'));
    ghost var rows := Tokens(text);
    var i := 0;
    while i < |tmpArray|
      invariant 0 <= i <= |tmpArray| && state == rows[..i]
    {
      state := state + [Take3(Split(tmpArray[i], ' '))];
      i := i + 1;
    }
    assert state == rows;
    i := 0;
    while i < |state|
      invariant 0 <= i <= |state| && |state| == |rows|
      invariant forall k :: 0 <= k < i ==> state[k] == CleanRow(rows[k])
      invariant forall k :: i <= k < |state| ==> state[k] == rows[k]
    {
      var ligne := state[i];
      var j := 0;
      while j < |ligne|
        invariant 0 <= j <= |ligne| == |rows[i]|
        invariant forall m :: 0 <= m < j ==> ligne[m] == Clean(rows[i][m])
        invariant forall m :: j <= m < |ligne| ==> ligne[m] == rows[i][m]
      {
        var chiffre := ligne[j];
        if chiffre == "-" || chiffre == "." {
          ligne := ligne[j := Blank];
        }
        j := j + 1;
      }
      state := state[i := ligne];
      assert state[i] == CleanRow(rows[i]);
      i := i + 1;
    }
    assert state == ParseGrid(text);
    var board := new Board(state);
    st := new State(board, moveCount, null);
  }

  /** What `resolve` ends with: a State whose board equals the target's, no
      State after the 36th round, or the `AttributeError` that
      `None.manhattan()` raises. */
  datatype Outcome = Found(state: State) | NoneFound | Raised

  /** Where `list.remove(x)` finds `x`: its first position. */
  function IndexOf(s: seq<State>, x: State): (k: nat)
    requires x in s
    ensures k < |s| && s[k] == x && x !in s[..k]
  {
    if s[0] == x then 0
    else
      var k := 1 + IndexOf(s[1..], x);
      assert s[..k] == [s[0]] + s[1..][..k - 1];
      k
  }

  /** `list.remove(x)`: drops the first element that is `x` (a State has no
      equality of its own, so this is the same object). */
  function RemoveFirst(s: seq<State>, x: State): (r: seq<State>)
    ensures x in s ==> |r| == |s| - 1 && multiset(r) == multiset(s) - multiset{x}
    ensures x in s ==> exists k :: 0 <= k < |s| && s[k] == x && x !in s[..k] && r == s[..k] + s[k + 1..]
    ensures x !in s ==> r == s
  {
    if x in s then
      var k := IndexOf(s, x);
      assert s == s[..k] + [x] + s[k + 1..];
      s[..k] + s[k + 1..]
    else s
  }

  /** The outcome that stands for a verdict: the origin state itself when
      solved, `None` when given up, the exception when a round raised. */
  predicate Reports(r: Outcome, origin: State, verdict: Verdict) {
    match verdict
    case Solved => r == Found(origin)
    case Exhausted => r == NoneFound
    case Crashed => r == Raised
  }

  /** One direction of a round of `resolve`, for a frontier of one state:
      the state makes its child, and the child's score is compared with the
      frontier's. The child shares the state's board, so the two scores are
      equal and nothing is removed; a direction that gives no child raises
      at `enfant.manhattan()`. */
  method Expand(potentialWins: seq<State>, direction: string) returns (wins: seq<State>, raised: bool)
    requires |potentialWins| == 1 && Valid(potentialWins[0].board.cells) && Contains(potentialWins[0].board.cells, Blank)
    modifies potentialWins[0].board
    ensures var g := old(potentialWins[0].board.cells);
      && (raised <==> Move(g, direction).None?)
      && (raised ==> potentialWins[0].board.cells == g)
      && (!raised ==> Move(g, direction) == Some(potentialWins[0].board.cells))
    ensures wins == potentialWins
  {
    wins := potentialWins;
    ghost var origin := potentialWins[0];
    ghost var current := origin.board.cells;
    MoveValid(current, direction);
    ValidTiles(current);
    MoveKeepsTiles(current, direction);
    var i := 0;
    while i < |wins|
      invariant 0 <= i <= 1
      invariant wins == potentialWins
      invariant i == 0 ==> origin.board.cells == current
      invariant i == 1 ==> Move(current, direction) == Some(origin.board.cells)
    {
      var etat := wins[i];
      var enfant := etat.CreateChildren(direction);
      ghost var next := origin.board.cells;
      var j := 0;
      while j < |wins|
        invariant 0 <= j <= 1
        invariant wins == potentialWins
        invariant origin.board.cells == next
        invariant j == 1 ==> enfant.Some?
      {
        var potentialWin := wins[j];
        // The asserts below are hints: they name the facts the two calls to
        // Manhattan need, which keeps this loop body cheap to check.
        assert potentialWin == origin;
        if enfant.None? {
          return wins, true;
        }
        assert Shape(next) && TilesOnly(next);
        var childScore := enfant.value.Manhattan();
        assert potentialWin.board.cells == next;
        var winScore := potentialWin.Manhattan();
        if childScore < winScore {
          wins := RemoveFirst(wins, potentialWin);
        }
        j := j + 1;
      }
      i := i + 1;
    }
    raised := false;
  }

  /** One round of `resolve`, the loop over the four directions, for a
      frontier of one state: it stops, raising, at the first direction that
      gives no child. */
  method Round(potentialWins: seq<State>, directions: seq<string>) returns (wins: seq<State>, raised: bool)
    requires |potentialWins| == 1 && Valid(potentialWins[0].board.cells)
    modifies potentialWins[0].board
    ensures var p := RunPhases(old(potentialWins[0].board.cells), directions);
      && (raised <==> p.Stuck?)
      && potentialWins[0].board.cells == p.board
    ensures wins == potentialWins
  {
    wins := potentialWins;
    ghost var origin := potentialWins[0];
    ghost var before := origin.board.cells;
    ghost var rest := directions;
    var d := 0;
    while d < |directions|
      invariant 0 <= d <= |directions| && rest == directions[d..]
      invariant wins == potentialWins
      invariant Valid(origin.board.cells)
      invariant RunPhases(before, directions) == RunPhases(origin.board.cells, rest)
    {
      var direction := directions[d];
      ghost var current := origin.board.cells;
      MoveValid(current, direction);
      wins, raised := Expand(wins, direction);
      PhaseStep(current, rest, raised, origin.board.cells);
      if raised {
        return;
      }
      rest := rest[1..];
      d := d + 1;
    }
    raised := false;
  }

  /** The goal test of a round of `resolve`: the first state of the
      frontier whose board equals the target board, if there is one. */
  method FirstOnTarget(potentialWins: seq<State>, target: Grid) returns (found: Option<State>)
    ensures found.None? <==> forall k :: 0 <= k < |potentialWins| ==> potentialWins[k].board.cells != target
    ensures found.Some? ==>
      exists k :: (0 <= k < |potentialWins| && found.value == potentialWins[k]
                   && potentialWins[k].board.cells == target
                   && forall m :: 0 <= m < k ==> potentialWins[m].board.cells != target)
  {
    var k := 0;
    while k < |potentialWins|
      invariant 0 <= k <= |potentialWins|
      invariant forall m :: 0 <= m < k ==> potentialWins[m].board.cells != target
    {
      var etat := potentialWins[k];
      if etat.board.cells == target {
        return Some(etat);
      }
      k := k + 1;
    }
    return None;
  }

  /** The body of `resolve`'s `while True` loop, for a frontier of one
      state: a round, then the goal test. The round either raises or gives
      the board back as it was, so the board never changes; `None` means
      the search goes on. */
  method Turn(potentialWins: seq<State>, target: Grid) returns (wins: seq<State>, r: Option<Outcome>)
    requires |potentialWins| == 1 && Valid(potentialWins[0].board.cells)
    modifies potentialWins[0].board
    ensures wins == potentialWins && potentialWins[0].board.cells == old(potentialWins[0].board.cells)
    ensures var g := old(potentialWins[0].board.cells);
      && (r == Some(Raised) <==> !Roomy(g))
      && (r == Some(Found(potentialWins[0])) <==> Roomy(g) && g == target)
      && (r.None? <==> Roomy(g) && g != target)
  {
    ghost var g := potentialWins[0].board.cells;
    RoundOutcome(g);
    var raised;
    wins, raised := Round(potentialWins, Directions);
    if raised {
      return wins, Some(Raised);
    }
    var found := FirstOnTarget(wins, target);
    if found.Some? {
      return wins, Some(Found(found.value));
    }
    r := None;
  }

  /** `resolve(origin, target)`, with the target given by its board. The
      frontier `potential_wins` never grows and, as every child shares the
      origin's board, never loses its one member either; each round moves
      that board DOWN, UP, LEFT and RIGHT. */
  method Resolve(origin: State, target: Grid) returns (r: Outcome)
    requires Valid(origin.board.cells)
    modifies origin.board
    ensures var run := Search.Search(old(origin.board.cells), target);
      Reports(r, origin, run.verdict) && origin.board.cells == run.board
  {
    ghost var start := origin.board.cells;
    SearchVerdict(start, target);
    var potentialWins := [origin];
    var counter := 0;
    while true
      invariant potentialWins == [origin]
      invariant 0 <= counter < 36
      invariant origin.board.cells == start
      invariant counter > 0 ==> Roomy(start) && start != target
      decreases 36 - counter
    {
      var turn;
      potentialWins, turn := Turn(potentialWins, target);
      if turn.Some? {
        return turn.value;
      }
      counter := counter + 1;
      if counter == 36 {
        return NoneFound;
      }
    }
  }
}
