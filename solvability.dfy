/**
 * The count behind `State.isSolvable`. The board is flattened row by row,
 * leaving out the cells equal to "0" and converting the others with `int()`;
 * then, for every element, if `list.index` of its value plus one differs from
 * the value, the smaller elements after that index are counted. The board is
 * reported solvable when half the count is even.
 */
module Solvability {
  import opened Boards

  /** A cell `int()` reads as one decimal digit. */
  predicate DigitCell(c: string) {
    |c| == 1 && '0' <= c[0] <= '9'
  }

  function DigitValue(c: string): int
    requires DigitCell(c)
  {
    (c[0] as int) - ('0' as int)
  }

  /** Every one of `cells` is a digit cell. */
  predicate Digits(cells: seq<string>) {
    forall i :: 0 <= i < |cells| ==> DigitCell(cells[i])
  }

  predicate DigitCells(g: Grid) {
    forall y, x :: 0 <= y < |g| && 0 <= x < |g[y]| ==> DigitCell(g[y][x])
  }

  /** The values of the non-"0" cells among `cells`, in order. */
  function Values(cells: seq<string>): (a: seq<int>)
    requires Digits(cells)
    ensures |a| <= |cells|
    ensures forall i :: 0 <= i < |a| ==> 1 <= a[i] <= 9
    decreases |cells|
  {
    if cells == [] then []
    else
      var last := cells[|cells| - 1];
      Values(cells[..|cells| - 1]) + (if last != Blank then [DigitValue(last)] else [])
  }

  lemma DigitCellsFlat(g: Grid)
    requires DigitCells(g)
    ensures Digits(Cells(g))
    decreases |g|
  {
    if g != [] {
      var init := g[..|g| - 1];
      assert DigitCells(init) by {
        forall y, x | 0 <= y < |init| && 0 <= x < |init[y]|
          ensures DigitCell(init[y][x])
        {
          assert init[y] == g[y];
        }
      }
      DigitCellsFlat(init);
    }
  }

  /** `oneDimensionArray` as the first loop of `isSolvable` builds it. */
  function Flattened(g: Grid): (a: seq<int>)
    requires DigitCells(g)
    ensures |a| <= |Cells(g)|
  {
    DigitCellsFlat(g);
    Values(Cells(g))
  }

  /** The cells of the first `y` rows and the first `x` cells of row `y`:
      what the first loop of `isSolvable` has visited. */
  function Visited(g: Grid, y: int, x: int): seq<string>
    requires 0 <= y < |g| && 0 <= x <= |g[y]|
  {
    Cells(g[..y]) + g[y][..x]
  }

  lemma {:induction false} VisitedDigits(g: Grid, y: int, x: int)
    requires DigitCells(g) && 0 <= y < |g| && 0 <= x <= |g[y]|
    ensures Digits(Visited(g, y, x))
  {
    var init := g[..y];
    assert DigitCells(init) by {
      forall y', x' | 0 <= y' < |init| && 0 <= x' < |init[y']|
        ensures DigitCell(init[y'][x'])
      {
        assert init[y'] == g[y'];
      }
    }
    DigitCellsFlat(init);
  }

  /** Visiting one more cell appends its value, unless it is the blank. */
  lemma VisitNext(g: Grid, y: int, x: int)
    requires DigitCells(g) && 0 <= y < |g| && 0 <= x < |g[y]|
    ensures Digits(Visited(g, y, x))
    ensures Digits(Visited(g, y, x + 1))
    ensures Values(Visited(g, y, x + 1)) ==
        Values(Visited(g, y, x)) + (if g[y][x] != Blank then [DigitValue(g[y][x])] else [])
  {
    VisitedDigits(g, y, x + 1);
    VisitedDigits(g, y, x);
    var s := Visited(g, y, x + 1);
    assert g[y][..x + 1] == g[y][..x] + [g[y][x]];
    assert s[..|s| - 1] == Visited(g, y, x);
  }

  /** A finished row is the start of the next one. */
  lemma VisitRow(g: Grid, y: int)
    requires 0 <= y < |g|
    ensures Visited(g, y, 0) == Cells(g[..y])
    ensures Visited(g, y, |g[y]|) == Cells(g[..y + 1])
  {
    var init := g[..y + 1];
    assert init[..|init| - 1] == g[..y];
    assert g[y][..|g[y]|] == g[y];
  }

  /** `(count / 2) % 2 == 0` with Python's true division: an odd count halves
      to a number with a fractional part, which is never even. */
  predicate HalfIsEven(count: nat): (b: bool)
    ensures b <==> count % 4 == 0
  {
    var q, r := count / 4, count % 4;
    assert count == 4 * q + r && 0 <= r < 4;
    assert count / 2 == 2 * q + r / 2 && count % 2 == r % 2;
    count % 2 == 0 && (count / 2) % 2 == 0
  }

  /** `a.index(v)`: the first index holding `v`, or |a| if there is none
      (Python raises then; the callers here always look up a member). */
  function FirstIndex(a: seq<int>, v: int): (k: nat)
    ensures k <= |a|
    ensures k < |a| ==> a[k] == v
    ensures forall i :: 0 <= i < k ==> a[i] != v
    decreases |a|
  {
    if a == [] then 0
    else if a[0] == v then 0
    else 1 + FirstIndex(a[1..], v)
  }

  /** How many elements of `s` are smaller than `v`. */
  function CountLess(s: seq<int>, v: int): (n: nat)
    ensures n <= |s|
    decreases |s|
  {
    if s == [] then 0
    else CountLess(s[..|s| - 1], v) + (if s[|s| - 1] < v then 1 else 0)
  }

  /** What the second loop adds for the element at position `i`. */
  function Term(a: seq<int>, i: int): (t: nat)
    requires 0 <= i < |a|
    ensures FirstIndex(a, a[i]) <= i
    ensures t <= |a| - 1 - FirstIndex(a, a[i])
    ensures FirstIndex(a, a[i]) + 1 == a[i] ==> t == 0
  {
    var k := FirstIndex(a, a[i]);
    if k + 1 != a[i] then CountLess(a[k + 1..], a[i]) else 0
  }

  /** The counter after the second loop has visited the first `n` elements. */
  function SkipCount(a: seq<int>, n: int): (c: nat)
    requires 0 <= n <= |a|
    ensures n > 0 ==> SkipCount(a, n - 1) <= c
    ensures n > 0 && FirstIndex(a, a[n - 1]) + 1 == a[n - 1] ==> c == SkipCount(a, n - 1)
  {
    if n == 0 then 0 else SkipCount(a, n - 1) + Term(a, n - 1)
  }

  /** One more element seen by the inner loop. */
  lemma CountLessStep(s: seq<int>, j: int, v: int)
    requires 0 <= j < |s|
    ensures CountLess(s[..j + 1], v) == CountLess(s[..j], v) + (if s[j] < v then 1 else 0)
  {
    assert s[..j + 1][..j] == s[..j];
  }

  /** One more element seen by the outer loop, with `k` its first index. */
  lemma SkipCountStep(a: seq<int>, i: int, k: int)
    requires 0 <= i < |a| && k == FirstIndex(a, a[i])
    ensures k < |a|
    ensures SkipCount(a, i + 1) == SkipCount(a, i) + (if k + 1 != a[i] then CountLess(a[k + 1..], a[i]) else 0)
  {
  }

  /** The value of `isSolvable()`: `(count / 2) % 2 == 0` on a float. For
      an integer count that holds exactly when the count is a multiple of 4. */
  predicate Solvable(g: Grid): (b: bool)
    requires DigitCells(g)
    ensures b <==> HalfIsEven(SkipCount(Flattened(g), |Flattened(g)|))
  {
    var a := Flattened(g);
    SkipCount(a, |a|) % 4 == 0
  }

  // ---------------------------------------------------------------------
  // The count, seen as a count of pairs

  predicate Distinct(a: seq<int>) {
    forall i, j :: 0 <= i < j < |a| ==> a[i] != a[j]
  }

  /** The pairs (i, j) with i < j, a[j] < a[i] and a[i] != i + 1, counted
      row by row of i. */
  function PairCount(a: seq<int>, n: int): nat
    requires 0 <= n <= |a|
  {
    if n == 0 then 0
    else PairCount(a, n - 1) + (if a[n - 1] != n then CountLess(a[n..], a[n - 1]) else 0)
  }

  /** The ordinary inversion count: pairs i < j with a[j] < a[i]. */
  function Inversions(a: seq<int>, n: int): nat
    requires 0 <= n <= |a|
  {
    if n == 0 then 0 else Inversions(a, n - 1) + CountLess(a[n..], a[n - 1])
  }

  lemma FirstIndexOfDistinct(a: seq<int>, i: int)
    requires Distinct(a) && 0 <= i < |a|
    ensures FirstIndex(a, a[i]) == i
  {
  }

  /** When no value repeats, `list.index` finds each element at its own
      position, so the count is the number of pairs i < j with a[j] < a[i]
      whose first element is not at its sorted place (a[i] != i + 1). */
  lemma {:induction false} SkipCountIsPairCount(a: seq<int>, n: int)
    requires Distinct(a) && 0 <= n <= |a|
    ensures SkipCount(a, n) == PairCount(a, n)
  {
    if n > 0 {
      SkipCountIsPairCount(a, n - 1);
      FirstIndexOfDistinct(a, n - 1);
    }
  }

  /** Skipping the elements at their sorted place only lowers the count. */
  lemma {:induction false} PairCountAtMostInversions(a: seq<int>, n: int)
    requires 0 <= n <= |a|
    ensures PairCount(a, n) <= Inversions(a, n)
  {
    if n > 0 {
      PairCountAtMostInversions(a, n - 1);
    }
  }

  /** With no repeated value, the test is the pair count taken modulo 4. */
  lemma SolvableByPairs(g: Grid)
    requires DigitCells(g) && Distinct(Flattened(g))
    ensures Solvable(g) <==> PairCount(Flattened(g), |Flattened(g)|) % 4 == 0
  {
    var a := Flattened(g);
    SkipCountIsPairCount(a, |a|);
  }

  predicate DistinctCells(cells: seq<string>) {
    forall i, j :: 0 <= i < j < |cells| ==> cells[i] != cells[j]
  }

  lemma DigitValueInjective(c: string, d: string)
    requires DigitCell(c) && DigitCell(d)
    ensures DigitValue(c) == DigitValue(d) <==> c == d
  {
    assert c == [c[0]] && d == [d[0]];
  }

  /** Every value comes from a non-blank cell. */
  lemma {:induction false} ValuesFrom(cells: seq<string>, k: int)
    requires Digits(cells)
    requires 0 <= k < |Values(cells)|
    ensures exists i :: 0 <= i < |cells| && cells[i] != Blank && DigitValue(cells[i]) == Values(cells)[k]
    decreases |cells|
  {
    var init := cells[..|cells| - 1];
    var last := cells[|cells| - 1];
    if k < |Values(init)| {
      ValuesFrom(init, k);
      var i :| 0 <= i < |init| && init[i] != Blank && DigitValue(init[i]) == Values(init)[k];
      assert cells[i] == init[i];
    } else {
      assert last != Blank && DigitValue(last) == Values(cells)[k];
    }
  }

  /** Distinct cells give distinct values. */
  lemma {:induction false} ValuesDistinct(cells: seq<string>)
    requires Digits(cells)
    requires DistinctCells(cells)
    ensures Distinct(Values(cells))
    decreases |cells|
  {
    if cells != [] {
      var init := cells[..|cells| - 1];
      var last := cells[|cells| - 1];
      ValuesDistinct(init);
      if last != Blank {
        var a := Values(cells);
        forall k | 0 <= k < |Values(init)|
          ensures Values(init)[k] != DigitValue(last)
        {
          ValuesFrom(init, k);
          var i :| 0 <= i < |init| && init[i] != Blank && DigitValue(init[i]) == Values(init)[k];
          assert init[i] == cells[i] != cells[|cells| - 1] == last;
          DigitValueInjective(init[i], last);
        }
      }
    }
  }

  /** How many blanks `cells` holds, and so how many values it yields. */
  lemma {:induction false} ValuesLength(cells: seq<string>)
    requires Digits(cells)
    ensures |Values(cells)| == |cells| - multiset(cells)[Blank]
    decreases |cells|
  {
    if cells != [] {
      var init := cells[..|cells| - 1];
      ValuesLength(init);
      assert cells == init + [cells[|cells| - 1]];
    }
  }

  lemma ValidCellsDistinct(g: Grid)
    requires Valid(g)
    ensures DistinctCells(Cells(g))
  {
    var c := Cells(g);
    forall i, j | 0 <= i < j < |c|
      ensures c[i] != c[j]
    {
      if c[i] == c[j] {
        TwiceMeansTwo(c, i, j);
        TilesOnce(c[i]);
      }
    }
  }

  lemma ValidDigits(g: Grid)
    requires Valid(g)
    ensures DigitCells(g)
  {
    ValidTiles(g);
  }

  /** A well-formed board flattens to eight distinct values, so on it the
      test is: the number of pairs i < j with a[j] < a[i] and a[i] != i + 1
      is a multiple of 4. */
  lemma ValidFlattened(g: Grid)
    requires Valid(g)
    ensures DigitCells(g)
    ensures var a := Flattened(g);
      |a| == 8 && Distinct(a) && (Solvable(g) <==> PairCount(a, 8) % 4 == 0)
  {
    ValidDigits(g);
    DigitCellsFlat(g);
    var c := Cells(g);
    ValidCellsDistinct(g);
    ValuesDistinct(c);
    ValuesLength(c);
    CellsOfShape(g);
    assert multiset(c)[Blank] == 1 by {
      assert GoalCells[8] == Blank;
      assert Blank in Tiles;
      TilesOnce(Blank);
    }
    SolvableByPairs(g);
  }

  // ---------------------------------------------------------------------
  // Boards worked through

  /** Flattening distributes over concatenation. */
  lemma {:induction false} ValuesConcat(xs: seq<string>, ys: seq<string>)
    requires Digits(xs)
    requires Digits(ys)
    ensures Values(xs + ys) == Values(xs) + Values(ys)
    decreases |ys|
  {
    if ys != [] {
      var zs := xs + ys;
      assert zs[..|zs| - 1] == xs + ys[..|ys| - 1];
      ValuesConcat(xs, ys[..|ys| - 1]);
    } else {
      assert xs + ys == xs;
    }
  }

  lemma ValuesRow(a: string, b: string, c: string)
    requires DigitCell(a) && DigitCell(b) && DigitCell(c)
    ensures Values([a, b, c]) == Values([a]) + Values([b]) + Values([c])
  {
    ValuesConcat([a], [b]);
    ValuesConcat([a, b], [c]);
    assert [a] + [b] == [a, b];
    assert [a, b] + [c] == [a, b, c];
  }

  lemma FlattenedRows(g: Grid)
    requires Shape(g) && DigitCells(g)
    ensures Flattened(g) == Values(g[0]) + Values(g[1]) + Values(g[2])
  {
    CellsOfShape(g);
    ValuesConcat(g[0], g[1]);
    ValuesConcat(g[0] + g[1], g[2]);
  }

  lemma ValuesOne(c: string)
    requires DigitCell(c)
    ensures Values([c]) == if c[0] == '0' then [] else [DigitValue(c)]
  {
    assert [c][..0] == [];
    if c[0] == '0' {
      assert c == [c[0]] == Blank;
    } else {
      assert c != Blank by { assert c[0] != Blank[0]; }
    }
  }

  lemma GoalDigits()
    ensures DigitCells(Goal)
  {
    GoalValid();
    ValidTiles(Goal);
  }

  lemma RowValues(a: string, b: string, c: string, r: seq<int>)
    requires DigitCell(a) && DigitCell(b) && DigitCell(c)
    requires r == (if a[0] == '0' then [] else [DigitValue(a)])
      + (if b[0] == '0' then [] else [DigitValue(b)])
      + (if c[0] == '0' then [] else [DigitValue(c)])
    ensures Values([a, b, c]) == r
  {
    ValuesRow(a, b, c);
    ValuesOne(a);
    ValuesOne(b);
    ValuesOne(c);
  }

  lemma GoalFlattened()
    ensures DigitCells(Goal) && Flattened(Goal) == [1, 2, 3, 4, 5, 6, 7, 8]
  {
    GoalDigits();
    FlattenedRows(Goal);
    RowValues("1", "2", "3", [1, 2, 3]);
    RowValues("4", "5", "6", [4, 5, 6]);
    RowValues("7", "8", "0", [7, 8]);
  }

  /** The goal board is reported solvable: no element is counted. */
  lemma GoalSolvable()
    ensures DigitCells(Goal) && Solvable(Goal)
  {
    GoalFlattened();
    var a := Flattened(Goal);
    assert Distinct(a);
    SkipCountIsPairCount(a, 8);
    assert SkipCount(a, 8) == 0;
  }

  /** Nothing is counted when no element is below `v`. */
  lemma {:induction false} CountLessNone(s: seq<int>, v: int)
    requires forall i :: 0 <= i < |s| ==> v <= s[i]
    ensures CountLess(s, v) == 0
    decreases |s|
  {
    if s != [] {
      CountLessNone(s[..|s| - 1], v);
    }
  }

  /** Counting over two pieces adds up. */
  lemma {:induction false} CountLessConcat(xs: seq<int>, ys: seq<int>, v: int)
    ensures CountLess(xs + ys, v) == CountLess(xs, v) + CountLess(ys, v)
    decreases |ys|
  {
    if ys == [] {
      assert xs + ys == xs;
    } else {
      var zs := xs + ys;
      assert zs[..|zs| - 1] == xs + ys[..|ys| - 1];
      CountLessConcat(xs, ys[..|ys| - 1], v);
    }
  }

  /** When every element at its sorted place has nothing smaller after it,
      skipping those elements changes nothing: the count is the inversion count. */
  lemma {:induction false} PairCountIsInversions(a: seq<int>, n: int)
    requires 0 <= n <= |a|
    requires forall i :: 0 <= i < n && a[i] == i + 1 ==> CountLess(a[i + 1..], a[i]) == 0
    ensures PairCount(a, n) == Inversions(a, n)
  {
    if n > 0 {
      PairCountIsInversions(a, n - 1);
    }
  }

  /** Elements at their sorted place add nothing to the count. */
  lemma {:induction false} PairCountInPlace(a: seq<int>, n: int)
    requires 0 <= n <= |a|
    requires forall i :: 0 <= i < n ==> a[i] == i + 1
    ensures PairCount(a, n) == 0
  {
    if n > 0 {
      PairCountInPlace(a, n - 1);
    }
  }

  lemma SwappedFlattened()
    ensures var g := [["1", "2", "3"], ["4", "5", "6"], ["8", "7", "0"]];
      DigitCells(g) && Flattened(g) == [1, 2, 3, 4, 5, 6, 8, 7]
  {
    var g := [["1", "2", "3"], ["4", "5", "6"], ["8", "7", "0"]];
    assert DigitCells(g);
    FlattenedRows(g);
    RowValues("1", "2", "3", [1, 2, 3]);
    RowValues("4", "5", "6", [4, 5, 6]);
    RowValues("8", "7", "0", [8, 7]);
  }

  /** `8 7` swapped in the bottom row: only the 8 is counted, once, so the
      board is reported unsolvable. */
  lemma SwappedPairUnsolvable()
    ensures var g := [["1", "2", "3"], ["4", "5", "6"], ["8", "7", "0"]];
      DigitCells(g) && Flattened(g) == [1, 2, 3, 4, 5, 6, 8, 7]
      && SkipCount(Flattened(g), 8) == 1 && !Solvable(g)
  {
    SwappedFlattened();
    SwappedCount([1, 2, 3, 4, 5, 6, 8, 7]);
  }

  lemma SwappedCount(a: seq<int>)
    requires a == [1, 2, 3, 4, 5, 6, 8, 7]
    ensures SkipCount(a, 8) == 1
  {
    assert Distinct(a);
    SkipCountIsPairCount(a, 8);
    PairCountInPlace(a, 6);
    assert a[7..] == [7] && a[8..] == [];
    assert CountLess([7], 8) == 1;
    assert PairCount(a, 7) == 1;
    assert PairCount(a, 8) == 1;
  }

  lemma TwoPairsFlattened()
    ensures var g := [["2", "1", "3"], ["4", "5", "6"], ["8", "7", "0"]];
      DigitCells(g) && Flattened(g) == [2, 1, 3, 4, 5, 6, 8, 7]
  {
    var g := [["2", "1", "3"], ["4", "5", "6"], ["8", "7", "0"]];
    assert DigitCells(g);
    FlattenedRows(g);
    RowValues("2", "1", "3", [2, 1, 3]);
    RowValues("4", "5", "6", [4, 5, 6]);
    RowValues("8", "7", "0", [8, 7]);
  }

  lemma TwoPairsInversions(a: seq<int>)
    requires a == [2, 1, 3, 4, 5, 6, 8, 7]
    ensures Inversions(a, 8) == 2
  {
    assert a[1..] == [1, 3, 4, 5, 6, 8, 7];
    assert CountLess([1], 2) == 1;
    CountLessNone([3, 4, 5, 6, 8, 7], 2);
    assert [1] + [3, 4, 5, 6, 8, 7] == a[1..];
    CountLessConcat([1], [3, 4, 5, 6, 8, 7], 2);
    forall n | 2 <= n <= 6
      ensures CountLess(a[n..], a[n - 1]) == 0
    {
      CountLessNone(a[n..], a[n - 1]);
    }
    assert a[7..] == [7] && a[8..] == [];
    assert CountLess([7], 8) == 1;
    assert Inversions(a, 1) == 1;
    assert Inversions(a, 2) == 1;
    assert Inversions(a, 3) == 1;
    assert Inversions(a, 4) == 1;
    assert Inversions(a, 5) == 1;
    assert Inversions(a, 6) == 1;
    assert Inversions(a, 7) == 2;
  }

  /** The halving makes the test differ from the textbook parity rule: with
      `2 1` and `8 7` swapped the count is 2, an even number of inversions,
      yet the board is reported unsolvable. */
  lemma EvenInversionsReportedUnsolvable()
    ensures var g := [["2", "1", "3"], ["4", "5", "6"], ["8", "7", "0"]];
      DigitCells(g) && Flattened(g) == [2, 1, 3, 4, 5, 6, 8, 7]
      && Inversions(Flattened(g), 8) == 2 && SkipCount(Flattened(g), 8) == 2
      && !Solvable(g)
  {
    TwoPairsFlattened();
    TwoPairsInversions([2, 1, 3, 4, 5, 6, 8, 7]);
    TwoPairsCount([2, 1, 3, 4, 5, 6, 8, 7]);
  }

  lemma TwoPairsCount(a: seq<int>)
    requires a == [2, 1, 3, 4, 5, 6, 8, 7]
    ensures SkipCount(a, 8) == Inversions(a, 8)
  {
    assert Distinct(a);
    SkipCountIsPairCount(a, 8);
    forall i | 0 <= i < 8 && a[i] == i + 1
      ensures CountLess(a[i + 1..], a[i]) == 0
    {
      CountLessNone(a[i + 1..], a[i]);
    }
    PairCountIsInversions(a, 8);
  }
}
