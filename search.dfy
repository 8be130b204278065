/**
 * What `resolve` does to the board it is given. Every child that
 * `createChildren` makes shares its parent's board object, so the frontier
 * `potential_wins` stays `[origin]`, each child's score equals the frontier
 * member's score (nothing is removed), and a round amounts to moving the one
 * shared board DOWN, UP, LEFT and RIGHT in turn. A direction that cannot be
 * taken gives `None`, and the following `enfant.manhattan()` raises.
 */
module Search {
  import opened Boards

  /** The directions of one round, in the order of the source's list. */
  const Directions: seq<string> := ["DOWN", "UP", "LEFT", "RIGHT"]

  /** A round ran through all its directions, or stopped at one that gave no child. */
  datatype Phase = Completed(board: Grid) | Stuck(board: Grid)

  datatype Verdict = Solved | Exhausted | Crashed

  /** How a search ends, the shared board at that moment, and how many
      rounds had been counted by then. */
  datatype Run = Run(verdict: Verdict, board: Grid, rounds: nat)

  /** The shared board moved through `dirs`, stopping at the first move that
      yields no child. */
  function RunPhases(g: Grid, dirs: seq<string>): (p: Phase)
    requires Valid(g)
    ensures Valid(p.board)
    decreases |dirs|
  {
    ValidHasBlank(g);
    if dirs == [] then Completed(g)
    else
      match Move(g, dirs[0])
      case None => Stuck(g)
      case Some(h) =>
        MoveOnValid(g, dirs[0]);
        RunPhases(h, dirs[1..])
  }

  /** The search from round `counter` on: a round that gets stuck raises;
      otherwise the goal test compares the shared board with the target, and
      after the 36th round the search gives up. */
  function SearchFrom(g: Grid, target: Grid, counter: nat): (r: Run)
    requires Valid(g) && counter < 36
    ensures Valid(r.board) && counter <= r.rounds <= 36
    ensures r.verdict == Solved ==> r.board == target
    ensures r.verdict == Exhausted ==> r.rounds == 36
    decreases 36 - counter
  {
    var p := RunPhases(g, Directions);
    if p.Stuck? then Run(Crashed, p.board, counter)
    else if p.board == target then Run(Solved, p.board, counter + 1)
    else if counter + 1 == 36 then Run(Exhausted, p.board, 36)
    else SearchFrom(p.board, target, counter + 1)
  }

  /** The whole search, from round 0. */
  function Search(g: Grid, target: Grid): (r: Run)
    requires Valid(g)
    ensures Valid(r.board) && r.rounds <= 36
    ensures r.verdict == Solved ==> r.board == target
  {
    SearchFrom(g, target, 0)
  }

  /** The blank can leave through neither the bottom edge nor the left edge. */
  predicate Roomy(g: Grid)
    requires Valid(g)
  {
    ValidHasBlank(g);
    BlankAt(g).y != 2 && BlankAt(g).x != 0
  }

  /** A move that is taken hands the moved board to the rest of the round. */
  lemma PhaseTaken(g: Grid, dirs: seq<string>, h: Grid)
    requires Valid(g) && Contains(g, Blank) && dirs != [] && Move(g, dirs[0]) == Some(h)
    ensures Valid(h) && RunPhases(g, dirs) == RunPhases(h, dirs[1..])
  {
    MoveOnValid(g, dirs[0]);
  }

  /** A move that is not taken stops the round with the board as it is. */
  lemma PhaseRefused(g: Grid, dirs: seq<string>)
    requires Valid(g) && Contains(g, Blank) && dirs != [] && Move(g, dirs[0]) == None
    ensures RunPhases(g, dirs) == Stuck(g)
  {
  }

  /** A direction of a round, taken or not, in one step. */
  lemma PhaseStep(g: Grid, dirs: seq<string>, stuck: bool, h: Grid)
    requires Valid(g) && Contains(g, Blank) && dirs != []
    requires stuck <==> Move(g, dirs[0]).None?
    requires stuck ==> h == g
    requires !stuck ==> Move(g, dirs[0]) == Some(h)
    ensures stuck ==> RunPhases(g, dirs) == Stuck(g)
    ensures !stuck ==> Valid(h) && RunPhases(g, dirs) == RunPhases(h, dirs[1..])
  {
    if stuck { PhaseRefused(g, dirs); } else { PhaseTaken(g, dirs, h); }
  }

  lemma ThereAndBack(g: Grid, direction: string, dirs: seq<string>)
    requires Valid(g) && Contains(g, Blank) && Legal(BlankAt(g), direction)
    requires |dirs| >= 2 && dirs[0] == direction && dirs[1] == Opposite(direction)
    ensures RunPhases(g, dirs) == RunPhases(g, dirs[2..])
  {
    MoveUndo(g, direction);
    var h := Move(g, direction).value;
    PhaseTaken(g, dirs, h);
    var dirs' := dirs[1..];
    PhaseTaken(h, dirs', g);
    assert dirs'[1..] == dirs[2..];
  }

  /** A round is DOWN and back, then LEFT and back. */
  lemma DirectionsPairs()
    ensures |Directions| == 4
    ensures Directions[0] == "DOWN" && Directions[1] == Opposite("DOWN")
    ensures Directions[2] == "LEFT" && Directions[3] == Opposite("LEFT")
  {
  }

  /** Two moves that are each undone straight away give the board back. */
  lemma TwoPairsRestore(g: Grid, dirs: seq<string>)
    requires Valid(g) && Contains(g, Blank)
    requires |dirs| == 4 && dirs[1] == Opposite(dirs[0]) && dirs[3] == Opposite(dirs[2])
    requires Legal(BlankAt(g), dirs[0]) && Legal(BlankAt(g), dirs[2])
    ensures RunPhases(g, dirs) == Completed(g)
  {
    var rest := dirs[2..];
    assert rest[0] == dirs[2] && rest[1] == dirs[3] && rest[2..] == [];
    ThereAndBack(g, dirs[0], dirs);
    ThereAndBack(g, rest[0], rest);
    assert RunPhases(g, rest[2..]) == Completed(g);
  }

  /** With the blank clear of the bottom row and the left column, a round
      takes all four moves and gives the board back unchanged. */
  lemma RoundRestores(g: Grid)
    requires Valid(g) && Roomy(g)
    ensures RunPhases(g, Directions) == Completed(g)
  {
    ValidHasBlank(g);
    DirectionsPairs();
    assert Legal(BlankAt(g), "DOWN") && Legal(BlankAt(g), "LEFT");
    TwoPairsRestore(g, Directions);
  }

  /** With the blank in the bottom row or the left column, DOWN or LEFT
      gives no child: the round gets stuck, with the board as it was. */
  lemma RoundCrashes(g: Grid)
    requires Valid(g) && !Roomy(g)
    ensures RunPhases(g, Directions) == Stuck(g)
  {
    ValidHasBlank(g);
    MoveOnValid(g, "DOWN");
    if BlankAt(g).y == 2 {
      PhaseRefused(g, Directions);
    } else {
      ThereAndBack(g, "DOWN", Directions);
      MoveOnValid(g, "LEFT");
      PhaseRefused(g, Directions[2..]);
    }
  }

  /** A round either gives the board back or gets stuck with it as it was. */
  lemma RoundOutcome(g: Grid)
    requires Valid(g)
    ensures RunPhases(g, Directions) == if Roomy(g) then Completed(g) else Stuck(g)
  {
    if Roomy(g) { RoundRestores(g); } else { RoundCrashes(g); }
  }

  /** The outcome of the search on a well-formed board: it raises in the first
      round if the blank is in the bottom row or the left column; otherwise
      the board never changes, so it is solved in the first round when the
      board is the target and is given up after 36 rounds when it is not. */
  lemma {:induction false} SearchOutcome(g: Grid, target: Grid, counter: nat)
    requires Valid(g) && counter < 36
    ensures SearchFrom(g, target, counter) ==
      if !Roomy(g) then Run(Crashed, g, counter)
      else if g == target then Run(Solved, g, counter + 1)
      else Run(Exhausted, g, 36)
    decreases 36 - counter
  {
    if !Roomy(g) {
      RoundCrashes(g);
    } else {
      RoundRestores(g);
      if g != target && counter + 1 < 36 {
        SearchOutcome(g, target, counter + 1);
      }
    }
  }

  /** The whole search in closed form: the board is the one it started
      from, and the verdict depends only on where the blank is and on
      whether the board is the target. */
  lemma SearchVerdict(g: Grid, target: Grid)
    requires Valid(g)
    ensures Search(g, target).board == g
    ensures Search(g, target).verdict == Crashed <==> !Roomy(g)
    ensures Search(g, target).verdict == Solved <==> Roomy(g) && g == target
  {
    SearchOutcome(g, target, 0);
  }

  /** The goal board has its blank in the bottom row. */
  lemma GoalNotRoomy()
    ensures Valid(Goal) && !Roomy(Goal)
  {
    GoalValid();
    ValidHasBlank(Goal);
    FirstPosValid(Goal, Position(2, 2));
  }

  /** With the goal board as target the search is never solved: a board equal
      to the goal has its blank in the bottom row and raises in the first
      round, and any other board never changes. */
  lemma GoalTargetNeverSolved(g: Grid)
    requires Valid(g)
    ensures Search(g, Goal).verdict != Solved
  {
    SearchOutcome(g, Goal, 0);
    GoalNotRoomy();
  }

  /** The already-solved board raises in the first round. */
  lemma SolvedBoardCrashes()
    ensures Valid(Goal) && Search(Goal, Goal) == Run(Crashed, Goal, 0)
  {
    GoalNotRoomy();
    SearchOutcome(Goal, Goal, 0);
  }
}
