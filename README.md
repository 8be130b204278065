# 8-puzzle library, modelled in Dafny

This project models `puzzle8/puzzlelib.py`, the core of a small 3×3 sliding-tile
("8-puzzle") solver. It covers:

- `parse_puzzle`, which turns text into a `State` on a list-of-rows board;
- `State` and its methods `returnPos`, `swapNumber`, `manhattan`,
  `createChildren` and `isSolvable`;
- the bounded search `resolve`.

The objects stay objects. A `Board` is a class whose field `cells` is the list of
rows. A `State` points at a `Board`. `createChildren` swaps the blank inside
the parent's own board and hands that very board object to the child, just as
the source's `tmp_board = self.board` does. So a move changes the parent too.

The modules are:

- `Text`: `str.split` with a single-character separator, its inverse `Join`, and the slice `[0:3]`.
- `Boards`: grids, the row-major scan of `returnPos`, swaps, and the board a move produces.
  It also holds the well-formed board (`Valid`: 3×3, holding "0" .. "8" once each).
- `Parsing`: what `parse_puzzle` builds from a text.
- `Heuristic`: the value of `manhattan`, blank included.
- `Solvability`: the value of `isSolvable`.
- `Search`: what `resolve` does to the shared board, round by round.
- `PuzzleLib`: the classes and the imperative methods. Each method is proved against the
  functions of the other modules.

Three facts about the code as written shape the search model:

- Every child shares its parent's board. So in `resolve` the child's score always equals
  the frontier member's score, nothing is removed, and the frontier stays `[origin]`.
- A round moves the one board DOWN, UP, LEFT and RIGHT. On a well-formed board whose
  blank is neither in the bottom row nor in the left column, that gives the board back
  unchanged. Otherwise a direction yields `None`, and `enfant.manhattan()` raises.
- The search is therefore solved in its first round when the board already equals the
  target, and gives up after 36 rounds when it does not. With the default goal target it
  can never succeed, because the goal board has its blank in the bottom row.
  A caller might expect the already solved board to be returned at once. The code
  raises instead (`Search.SolvedBoardCrashes`), and the model follows the code.

`isSolvable` is modelled literally, including two details:

- It skips any value whose first index plus one equals the value.
- The test `(count/2)%2 == 0` is true division followed by a float test, which holds
  exactly when `count % 4 == 0`.

`Solvability.SwappedPairUnsolvable` and `Solvability.EvenInversionsReportedUnsolvable`
show what this means for two concrete boards.

## Model

| member | source | states |
|---|---|---|
| Text.Split | puzzle8/puzzlelib.py:18 | `str.split`: at least one piece, and no piece contains the separator |
| Text.Take3 | puzzle8/puzzlelib.py:18-21 | the slice `[0:3]`: the first three elements, or all of them when there are fewer |
| Text.JoinSplit | puzzle8/puzzlelib.py:18 | joining the pieces of a split with the separator gives the text back |
| Text.SplitJoin | puzzle8/puzzlelib.py:18 | splitting joined pieces that avoid the separator gives the pieces back |
| Text.SplitNoSeparator | puzzle8/puzzlelib.py:18 | a text without the separator splits into itself alone |
| Text.SplitCons | puzzle8/puzzlelib.py:18 | the piece before the first separator comes first, then the split of the rest |
| Parsing.Clean | puzzle8/puzzlelib.py:25-26 | "-" and "." become "0", every other token stays, and no placeholder is left |
| Parsing.CleanRow | puzzle8/puzzlelib.py:23-26 | each token of a row is cleaned in place, and the length stays the same |
| Parsing.Tokens | puzzle8/puzzlelib.py:18-21 | as many rows as the smaller of 3 and the number of lines, and in each row as many tokens as the smaller of 3 and the pieces of its line. Each row is the first pieces of the split of the matching line |
| Parsing.TokensOfThreeLines | puzzle8/puzzlelib.py:18-21 | a text of exactly three lines gives three rows, each the sliced split of its own line |
| Parsing.SampleRowTokens | puzzle8/puzzlelib.py:21 | each line of the sample layout has no line break and splits and slices into the cells of its row |
| Parsing.ParseGrid | puzzle8/puzzlelib.py:16-26 | the parsed rows match the tokens, with placeholders replaced by "0" and no other change |
| Parsing.ParseRender | puzzle8/puzzlelib.py:16-26 | a board written one row per line, with space-separated cells, parses back to itself |
| Parsing.RowRoundTrip | puzzle8/puzzlelib.py:21 | a row written with spaces splits and slices back to itself |
| Parsing.ParseSample | puzzle8/puzzlelib.py:16-26 | a 3×3 board in the sample-file layout, with a space after every cell of the first two rows and none after the last row, parses back to itself |
| Parsing.SampleTokens | puzzle8/puzzlelib.py:18-21 | the tokens of the sample layout are the board: the `[0:3]` slice drops the empty piece that a trailing space leaves on the first two rows |
| Parsing.TrailingSpace | puzzle8/puzzlelib.py:21 | a row with a trailing space splits into four pieces, and the slice keeps the three cells |
| Parsing.SplitThree | puzzle8/puzzlelib.py:18 | three lines joined by the separator split into those lines |
| Parsing.SplitFour | puzzle8/puzzlelib.py:21 | four pieces joined by the separator split into those pieces |
| Parsing.ParseGoalText | puzzle8/puzzlelib.py:109 | the text that `manhattan` and `resolve` parse for the goal is the goal board |
| PuzzleLib.ParsePuzzle | puzzle8/puzzlelib.py:6-28 | a fresh State with no previous state, holding the given move count, on a fresh board equal to `ParseGrid(text)` |
| PuzzleLib.Board.constructor | puzzle8/puzzlelib.py:16-21 | the list of rows holds the given cells |
| PuzzleLib.State.constructor | puzzle8/puzzlelib.py:52-62 | the board, move count and previous state are the given ones |
| Boards.FirstPos | puzzle8/puzzlelib.py:82-85 | the first cell in row-major order that holds the value, and None exactly when no cell holds it |
| Boards.Scan | puzzle8/puzzlelib.py:82-85 | the scan resumed at a cell finds the first later cell holding the value, and None only when no later cell holds it |
| Boards.FirstPosAt | puzzle8/puzzlelib.py:82-85 | a cell holding the value with no earlier cell holding it is what the scan returns |
| Boards.FirstPosValid | puzzle8/puzzlelib.py:82-85 | on a well-formed board the scan finds every cell's content at that cell |
| PuzzleLib.State.ReturnPos | puzzle8/puzzlelib.py:73-85 | the nested loops return the first row-major position of the value, or None |
| PuzzleLib.State.SwapNumber | puzzle8/puzzlelib.py:87-100 | swaps the blank and the number inside the state's own board, and returns that same board object |
| Boards.BlankAt | puzzle8/puzzlelib.py:96 | `returnPos(0)` on a board holding the blank: a cell on the board that holds the blank |
| Boards.NumberSwapped | puzzle8/puzzlelib.py:96-99 | the blank's first cell now holds the number, the number's first cell now holds the blank, and every other cell is unchanged |
| Boards.SwapCells | puzzle8/puzzlelib.py:99 | the two cells trade contents, and every other cell is unchanged |
| Boards.SwapTwice | puzzle8/puzzlelib.py:99 | swapping the same two cells twice gives the board back |
| Boards.SwapKeepsValid | puzzle8/puzzlelib.py:99 | a swap keeps a well-formed board well-formed |
| Boards.SwapCellsFlat | puzzle8/puzzlelib.py:99 | a swap of two cells is the swap of two entries of the row-major cell list |
| Boards.MultisetSwap | puzzle8/puzzlelib.py:99 | swapping two entries keeps the multiset of entries |
| Boards.Move | puzzle8/puzzlelib.py:118-140 | a child board exists exactly when the blank can move that way |
| Boards.MoveIsSwap | puzzle8/puzzlelib.py:127-140 | the child board is `swapNumber` of the blank's neighbour in that direction |
| Boards.MoveOnValid | puzzle8/puzzlelib.py:118-140 | on a well-formed board a move swaps the blank with its neighbour, and the blank ends up in the neighbour's cell |
| Boards.MoveValid | puzzle8/puzzlelib.py:118-140 | a move keeps a well-formed board well-formed |
| Boards.MoveKeepsTiles | puzzle8/puzzlelib.py:118-140 | a move keeps a 3×3 board of tiles a 3×3 board of tiles |
| Boards.MoveUndo | puzzle8/puzzlelib.py:118-140 | the opposite move undoes a move |
| Boards.StepBack | puzzle8/puzzlelib.py:129-140 | the opposite direction is legal from the neighbour, and leads back |
| PuzzleLib.State.CreateChildren | puzzle8/puzzlelib.py:118-140 | a child exists exactly when the blank can move that way. The child is fresh, has the next move count, and has this state as its previous state. It shares this state's board, which now holds `Move` of the old board. Without a child the board is unchanged |
| Boards.ValidHasBlank | puzzle8/puzzlelib.py:127 | a well-formed board holds the blank, so `returnPos(0)` finds it |
| Boards.ValidTiles | puzzle8/puzzlelib.py:110-115 | every cell of a well-formed board is one of the tiles "0" .. "8" |
| Boards.ValidDistinct | puzzle8/puzzlelib.py:82-85 | no two cells of a well-formed board hold the same value |
| Boards.ValidUnique | puzzle8/puzzlelib.py:82-85 | a well-formed board has no repeated value |
| Boards.GoalValid | puzzle8/puzzlelib.py:109 | the goal board is well-formed |
| Boards.GridsEqual | puzzle8/puzzlelib.py:191 | two 3×3 boards that agree on every cell are equal, as `==` on lists of lists compares them |
| Heuristic.GoalPos | puzzle8/puzzlelib.py:109-114 | the cell where the goal board holds a tile |
| Heuristic.GoalPosCell | puzzle8/puzzlelib.py:109-114 | the goal board holds each tile at its goal position |
| Heuristic.GoalFirstPos | puzzle8/puzzlelib.py:114 | `returnPos` on the goal board finds each tile at its goal position |
| Heuristic.GoalHoldsTiles | puzzle8/puzzlelib.py:114 | the goal board holds every tile |
| Heuristic.GoalPosAt | puzzle8/puzzlelib.py:109-114 | the goal position of the tile in each goal cell is that cell |
| Heuristic.GoalPosIs | puzzle8/puzzlelib.py:109-114 | a tile's goal position is a cell exactly when the goal board holds that tile there |
| Heuristic.CellDistance | puzzle8/puzzlelib.py:113-115 | the term added for one cell is at most 4, the largest distance between two cells of a 3×3 board |
| Heuristic.RowDistance | puzzle8/puzzlelib.py:111-115 | the terms of the first cells of a row add up to at most 4 per cell |
| Heuristic.RowsDistance | puzzle8/puzzlelib.py:110-115 | the terms of the first rows add up to at most 12 per row |
| Heuristic.Manhattan | puzzle8/puzzlelib.py:102-116 | the value `manhattan()` returns is at most 36 |
| Heuristic.RowDistanceZero | puzzle8/puzzlelib.py:111-115 | one row's terms add up to 0 exactly when each term is 0 |
| Heuristic.RowsDistanceZero | puzzle8/puzzlelib.py:110-115 | the terms of the first rows add up to 0 exactly when each term is 0 |
| Heuristic.CellDistanceUnique | puzzle8/puzzlelib.py:113-115 | with no repeated value, a cell's term is the distance from that cell to its content's goal position |
| Heuristic.CellDistanceZero | puzzle8/puzzlelib.py:113-115 | with no repeated value, a cell's term is 0 exactly when it holds what the goal board holds there |
| Heuristic.AllTermsZeroIsGoal | puzzle8/puzzlelib.py:110-115 | a board without repeats whose every term is 0 is the goal board |
| Heuristic.ManhattanZeroIsGoal | puzzle8/puzzlelib.py:102-116 | a well-formed board that scores 0 is the goal board |
| Heuristic.ManhattanGoal | puzzle8/puzzlelib.py:102-116 | the goal board scores 0 |
| PuzzleLib.ParseGoal | puzzle8/puzzlelib.py:109 | parsing the goal text gives a fresh State on the goal board, where `returnPos` finds every tile at its goal position |
| PuzzleLib.GoalIdeal | puzzle8/puzzlelib.py:109-114 | `returnPos` finds every tile of the goal board at its goal position |
| PuzzleLib.CellTerm | puzzle8/puzzlelib.py:113-115 | the two `returnPos` results for a cell both exist, and the term computed from them is that cell's distance |
| PuzzleLib.State.Manhattan | puzzle8/puzzlelib.py:102-116 | the loops add up, over all nine cells with the blank included, the distance between the content's position here and on the goal board, giving `Heuristic.Manhattan` of the board |
| Solvability.Values | puzzle8/puzzlelib.py:151-154 | the non-"0" cells as integers, in order, each between 1 and 9 |
| Solvability.VisitNext | puzzle8/puzzlelib.py:152-154 | visiting one more cell appends its value exactly when it is not "0" |
| Solvability.VisitRow | puzzle8/puzzlelib.py:151-152 | the cells visited before and after a row are the rows before it, then those rows plus it |
| Solvability.VisitedDigits | puzzle8/puzzlelib.py:151-154 | every cell visited so far is a digit |
| Solvability.DigitCellsFlat | puzzle8/puzzlelib.py:151-154 | the flattened cells of a board of digits are digits |
| Solvability.Flattened | puzzle8/puzzlelib.py:148-154 | the list the first loop builds has no more entries than the board has cells |
| Solvability.FirstIndex | puzzle8/puzzlelib.py:157 | `list.index`: the first index holding the value, with no earlier index holding it |
| Solvability.CountLess | puzzle8/puzzlelib.py:158-161 | the number of smaller values is at most the length |
| Solvability.CountLessStep | puzzle8/puzzlelib.py:158-161 | one more element adds 1 exactly when it is smaller |
| Solvability.Term | puzzle8/puzzlelib.py:157-161 | the first index of the value is at or before its own index, the term counts at most the elements after that first index, and it is 0 when that index plus one is the value |
| Solvability.SkipCount | puzzle8/puzzlelib.py:156-161 | the counter never decreases from one element to the next, and does not change over a value whose first index plus one is the value |
| Solvability.SkipCountStep | puzzle8/puzzlelib.py:156-161 | one more value adds the smaller values after its first index, unless that index plus one is the value |
| PuzzleLib.CountSmallerAfter | puzzle8/puzzlelib.py:156-161 | the nested loops count `SkipCount` of the whole list |
| Solvability.HalfIsEven | puzzle8/puzzlelib.py:163 | "half the count is even", with true division, holds exactly when the count is a multiple of 4 |
| Solvability.Solvable | puzzle8/puzzlelib.py:142-163 | the value `isSolvable()` returns is the halving test applied to the skip count of the flattened board |
| PuzzleLib.State.IsSolvable | puzzle8/puzzlelib.py:142-163 | flattening without "0", then the skip count with its halving test, gives `Solvable` of the board |
| Solvability.FirstIndexOfDistinct | puzzle8/puzzlelib.py:157 | without repeats, `index` finds each value at its own position |
| Solvability.SkipCountIsPairCount | puzzle8/puzzlelib.py:156-161 | without repeats, the count is the number of inverted pairs whose first value is not at index value-1 |
| Solvability.PairCountAtMostInversions | puzzle8/puzzlelib.py:156-161 | that count never exceeds the number of inversions |
| Solvability.PairCountIsInversions | puzzle8/puzzlelib.py:156-161 | the count equals the number of inversions when every skipped value has no smaller value after it |
| Solvability.PairCountInPlace | puzzle8/puzzlelib.py:157 | a prefix of values in place contributes nothing |
| Solvability.SolvableByPairs | puzzle8/puzzlelib.py:142-163 | without repeats, a board is reported solvable exactly when that count is a multiple of 4 |
| Solvability.ValidFlattened | puzzle8/puzzlelib.py:142-163 | a well-formed board flattens to 8 distinct values, and is reported solvable exactly when the pair count is a multiple of 4 |
| Solvability.ValidDigits | puzzle8/puzzlelib.py:154 | every cell of a well-formed board is a digit, so `int()` succeeds |
| Solvability.ValidCellsDistinct | puzzle8/puzzlelib.py:151-154 | the cells of a well-formed board are distinct |
| Solvability.ValuesDistinct | puzzle8/puzzlelib.py:151-154 | distinct digit cells give distinct values |
| Solvability.ValuesLength | puzzle8/puzzlelib.py:151-154 | the flattened list is as long as the cells minus the blanks |
| Solvability.ValuesFrom | puzzle8/puzzlelib.py:151-154 | every flattened value comes from a non-"0" cell |
| Solvability.ValuesConcat | puzzle8/puzzlelib.py:151-154 | flattening distributes over concatenation |
| Solvability.FlattenedRows | puzzle8/puzzlelib.py:151-154 | a 3×3 board flattens row after row |
| Solvability.DigitValueInjective | puzzle8/puzzlelib.py:154 | two digit cells have the same `int()` exactly when they are equal |
| Solvability.CountLessNone | puzzle8/puzzlelib.py:158-161 | with no smaller value, nothing is counted |
| Solvability.CountLessConcat | puzzle8/puzzlelib.py:158-161 | the count over a concatenation is the sum of the counts |
| Solvability.GoalFlattened | puzzle8/puzzlelib.py:151-154 | the goal board flattens to 1 .. 8 |
| Solvability.GoalSolvable | puzzle8/puzzlelib.py:142-163 | the goal board is reported solvable |
| Solvability.SwappedPairUnsolvable | puzzle8/puzzlelib.py:142-163 | the goal with 7 and 8 swapped has count 1 and is reported unsolvable |
| Solvability.EvenInversionsReportedUnsolvable | puzzle8/puzzlelib.py:142-163 | a board with two inversions, an even permutation, is reported unsolvable, because its count is 2 |
| PuzzleLib.IndexOf | puzzle8/puzzlelib.py:187 | the position where `list.remove` finds an element: it holds the element, and no earlier position does |
| PuzzleLib.RemoveFirst | puzzle8/puzzlelib.py:187 | `list.remove` of an element of the list: one fewer element, one occurrence of it gone from the multiset, and the list is the part before its first occurrence followed by the part after it |
| PuzzleLib.Expand | puzzle8/puzzlelib.py:182-187 | for a frontier of one state, it raises exactly when the direction gives no child. Otherwise the shared board becomes the moved board, and the frontier is kept because the two scores are equal |
| PuzzleLib.Round | puzzle8/puzzlelib.py:181-187 | the loop over the directions leaves the board as `RunPhases` says, and raises exactly when `RunPhases` gets stuck |
| PuzzleLib.FirstOnTarget | puzzle8/puzzlelib.py:190-192 | the first frontier state whose board equals the target, and None exactly when no board equals it |
| PuzzleLib.Turn | puzzle8/puzzlelib.py:181-192 | one pass of the `while True` body keeps the board. It raises exactly when the blank is in the bottom row or the left column, returns the state exactly when the board is the target, and otherwise goes on |
| PuzzleLib.Resolve | puzzle8/puzzlelib.py:165-197 | the outcome and the final board are those of `Search.Search`: the origin itself when solved, None after 36 rounds, and an exception when a round raises |
| Search.RunPhases | puzzle8/puzzlelib.py:181-187 | the board moved through the directions in order, stopping at the first that gives no child. The board stays well-formed |
| Search.SearchFrom | puzzle8/puzzlelib.py:179-197 | the search from a given round. A solved search ends on the target, an exhausted one after 36 rounds, and at most 36 rounds are counted |
| Search.Search | puzzle8/puzzlelib.py:165-197 | at most 36 rounds, and a solved search ends on the target board |
| Search.PhaseTaken | puzzle8/puzzlelib.py:183-187 | a direction that gives a child passes the moved board on to the rest of the round |
| Search.PhaseRefused | puzzle8/puzzlelib.py:183-186 | a direction that gives no child stops the round on the board as it is |
| Search.PhaseStep | puzzle8/puzzlelib.py:183-187 | one direction, taken or refused, as one step of the round |
| Search.ThereAndBack | puzzle8/puzzlelib.py:181-187 | a move followed by its opposite leaves the rest of the round to start from the same board |
| Search.DirectionsPairs | puzzle8/puzzlelib.py:181 | the round's list is DOWN, then its opposite, then LEFT, then its opposite |
| Search.TwoPairsRestore | puzzle8/puzzlelib.py:181-187 | two moves, each undone at once, give the board back |
| Search.RoundRestores | puzzle8/puzzlelib.py:181-187 | with the blank clear of the bottom row and the left column, a round completes and gives the board back |
| Search.RoundCrashes | puzzle8/puzzlelib.py:181-187 | with the blank in the bottom row or the left column, a round gets stuck with the board unchanged |
| Search.RoundOutcome | puzzle8/puzzlelib.py:181-187 | a round either completes with the board unchanged or gets stuck with it unchanged, depending on where the blank is |
| Search.SearchOutcome | puzzle8/puzzlelib.py:179-197 | from any round, the search raises at once, succeeds in the next round, or gives up at 36, by where the blank is and whether the board is the target |
| Search.SearchVerdict | puzzle8/puzzlelib.py:165-197 | the whole search ends on its starting board. It raises exactly when the blank is in the bottom row or the left column, and succeeds exactly when the blank is clear of both and the board is the target |
| Search.GoalNotRoomy | puzzle8/puzzlelib.py:165 | the default target's blank is in the bottom row |
| Search.GoalTargetNeverSolved | puzzle8/puzzlelib.py:165-197 | with the default goal target, no well-formed board is ever solved |
| Search.SolvedBoardCrashes | puzzle8/puzzlelib.py:165-197 | the already solved board raises in the first round |

## Left out

- `parse_file`, `displayBoard` and `cli.py` are file I/O, printing and timing, and are
  not part of this model. So are the unused imports (`ThreadPoolExecutor`, `Queue`,
  `threading`, `time`, `os`, `sys`).
- `resolve`'s `past_states` list is never read, and `createChildren`'s local `res` is
  never used. Neither is modelled.
- `Position` objects are the `Position` datatype. `returnPos` returns an
  `Option<Position>` instead of a `[y, x]` list or `None`.
- `returnPos`'s `str(number)` is left out: callers pass the string form directly.
- The rows of the board are values inside `Board.cells`, not separate list objects.
  No code shares a row, so only the board-level aliasing matters, and that is modelled.
- `parse_puzzle`'s `move_count=0` default and `resolve`'s default `target` are
  parameters. The default target is evaluated once, when the module is loaded; here it
  is the goal board, passed in as a value. `resolve` receives the target's board, not
  the target State.
- Python `TypeError`, `IndexError` and `ValueError` raised on malformed input are
  preconditions, not modelled error paths. These are a `None` from `returnPos`, a scan
  that runs past the end of a short row before it finds the value, and `int()` of a
  text that is not an integer.
- PuzzleLib.State.ReturnPos: requires a 3×3 board. On a board with fewer rows or shorter
  rows the source still answers when the value sits in a cell the scan reaches first, and
  raises `IndexError` only when the scan reaches a missing cell before it finds the value.
  Such boards are not modelled.
- PuzzleLib.State.SwapNumber: requires both values to be on the board. A missing one
  would make `returnPos` return `None`, and the subscript would raise `TypeError`.
- PuzzleLib.State.Manhattan: requires a 3×3 board of tiles "0" .. "8". Cell content that
  is not a tile has no position on the goal board, and the subscript of `None` raises. A
  board with fewer or shorter rows is not modelled, even though the source can score it:
  the board of `parse_puzzle("1")` scores 0.
- PuzzleLib.State.CreateChildren: requires a 3×3 board holding the blank.
- PuzzleLib.State.IsSolvable: restricted to boards whose every cell is a one-character
  digit. `int()` also accepts texts such as "10", "-1", "+3" or "07", which the parser can
  leave on a board, and raises `ValueError` on other texts; neither case is modelled.
- PuzzleLib.Resolve: requires a well-formed board. It is modelled only on boards holding
  "0" .. "8" once each.
- PuzzleLib.RemoveFirst: when the element is absent, Python's `list.remove` raises
  `ValueError`, while the model returns the list unchanged. The one call, in `resolve`,
  passes an element it has just read from the same list, so that case never arises there.
- PuzzleLib.Expand: specialised to a frontier of one state, which is the only frontier
  `resolve` ever has. The same holds for PuzzleLib.Round and PuzzleLib.Turn.
- `resolve`'s loop body is split into the methods `Turn`, `Round`, `Expand` and
  `FirstOnTarget`. `isSolvable`'s second loop is the method `CountSmallerAfter`.
  The statements are the same.
- The float `count/2` is integer arithmetic, `count % 2 == 0 && (count / 2) % 2 == 0`,
  which holds exactly when the float test does.
