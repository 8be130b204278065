/**
 * The text format of `parse_puzzle`: at most three lines, at most three
 * space-separated tokens on each, with "-" and "." standing for the blank.
 * The tokens are kept as strings; nothing is checked.
 */
module Parsing {
  import opened Text
  import opened Boards

  /** A token written for the blank. */
  predicate Placeholder(tok: string) {
    tok == "-" || tok == "."
  }

  /** The rewrite of the second loop: placeholders become "0", other tokens stay. */
  function Clean(tok: string): (c: string)
    ensures !Placeholder(c)
    ensures Placeholder(tok) ==> c == Blank
    ensures !Placeholder(tok) ==> c == tok
  {
    if Placeholder(tok) then Blank else tok
  }

  /** A row with each placeholder rewritten. */
  function CleanRow(row: seq<string>): (r: seq<string>)
    ensures |r| == |row| && forall j :: 0 <= j < |row| ==> r[j] == Clean(row[j])
  {
    seq(|row|, j requires 0 <= j < |row| => Clean(row[j]))
  }

  /** The rows the first loop appends: the first three lines, each cut at
      spaces and kept to its first three tokens. */
  function Tokens(text: string): (rows: Grid)
    ensures 1 <= |rows| <= 3
    ensures forall i :: 0 <= i < |rows| ==> 1 <= |rows[i]| <= 3
    ensures var lines := Split(text, '\n');
      |rows| == (if |lines| < 3 then |lines| else 3)
    ensures var lines := Split(text, '\n');
      forall i :: 0 <= i < |rows| ==>
        i < |lines| && |rows[i]| == (if |Split(lines[i], ' ')| < 3 then |Split(lines[i], ' ')| else 3)
    ensures var lines := Take3(Split(text, '\n'));
      |rows| == |lines| && forall i :: 0 <= i < |rows| ==> rows[i] == Take3(Split(lines[i], ' '))
  {
    var lines := Take3(Split(text, '\n'));
    seq(|lines|, i requires 0 <= i < |lines| => Take3(Split(lines[i], ' ')))
  }

  /** The board that `parse_puzzle(text)` gives its State: the tokens, one
      to three rows of one to three cells, with each placeholder rewritten to
      "0" and every other token kept as it is; so no cell is "-" or ".". */
  function ParseGrid(text: string): (g: Grid)
    ensures var rows := Tokens(text);
      && |g| == |rows| && 1 <= |g| <= 3
      && (forall i :: 0 <= i < |g| ==> |g[i]| == |rows[i]| && 1 <= |g[i]| <= 3)
      && (forall i, j :: 0 <= i < |g| && 0 <= j < |g[i]| ==> !Placeholder(g[i][j]))
      && (forall i, j :: 0 <= i < |g| && 0 <= j < |g[i]| && !Placeholder(rows[i][j]) ==> g[i][j] == rows[i][j])
      && (forall i, j :: 0 <= i < |g| && 0 <= j < |g[i]| && Placeholder(rows[i][j]) ==> g[i][j] == Blank)
  {
    var rows := Tokens(text);
    seq(|rows|, i requires 0 <= i < |rows| => CleanRow(rows[i]))
  }

  /** The text the source parses for its goal board reads as the goal board:
      the empty token after each trailing space is cut off by the slice. */
  lemma SplitThree(a: string, b: string, c: string, sep: char)
    requires sep !in a && sep !in b && sep !in c
    ensures Split(a + [sep] + b + [sep] + c, sep) == [a, b, c]
  {
    assert a + [sep] + b + [sep] + c == a + [sep] + (b + [sep] + c);
    SplitCons(a, sep, b + [sep] + c);
    SplitCons(b, sep, c);
    SplitNoSeparator(c, sep);
  }

  lemma SplitFour(a: string, b: string, c: string, d: string, sep: char)
    requires sep !in a && sep !in b && sep !in c && sep !in d
    ensures Split(a + [sep] + b + [sep] + c + [sep] + d, sep) == [a, b, c, d]
  {
    assert a + [sep] + b + [sep] + c + [sep] + d == a + [sep] + (b + [sep] + c + [sep] + d);
    SplitCons(a, sep, b + [sep] + c + [sep] + d);
    SplitThree(b, c, d, sep);
  }

  /** A line of three words with a trailing space: four pieces, the last empty. */
  lemma TrailingSpace(line: string, a: string, b: string, c: string)
    requires ' ' !in a && ' ' !in b && ' ' !in c
    requires line == a + " " + b + " " + c + " "
    ensures Take3(Split(line, ' ')) == [a, b, c]
  {
    assert line == a + [' '] + b + [' '] + c + [' '] + "";
    SplitFour(a, b, c, "", ' ');
  }

  /** A row as the sample files write it, with a space after each cell. */
  function SampleRow(row: seq<string>): string
    requires |row| == 3
  {
    row[0] + " " + row[1] + " " + row[2] + " "
  }

  /** A board as the sample files and `manhattan` write it: a space after
      every cell of the first two rows, none at the end of the last. */
  function SampleText(g: Grid): string
    requires Shape(g)
  {
    SampleRow(g[0]) + "\n" + SampleRow(g[1]) + "\n" + LastSampleRow(g[2])
  }

  /** Cells with no space, line break or placeholder. */
  predicate PlainCells(g: Grid)
    requires Shape(g)
  {
    forall y, x :: 0 <= y < 3 && 0 <= x < 3 ==>
      ' ' !in g[y][x] && '\n' !in g[y][x] && !Placeholder(g[y][x])
  }

  /** The trailing spaces of the sample format leave an empty token after
      three cells, which the slice `[0:3]` drops: the tokens are the board. */
  lemma SampleTokens(g: Grid)
    requires Shape(g) && PlainCells(g)
    ensures Tokens(SampleText(g)) == g
  {
    var text := SampleText(g);
    var l0, l1, l2 := SampleRow(g[0]), SampleRow(g[1]), LastSampleRow(g[2]);
    assert text == l0 + "\n" + l1 + "\n" + l2;
    SampleRowTokens(g);
    SplitThree(l0, l1, l2, '\n');
    TokensOfThreeLines(text, l0, l1, l2);
    var rows := Tokens(text);
    assert rows[0] == g[0] && rows[1] == g[1] && rows[2] == g[2];
    assert |rows| == |g|;
  }

  /** The last row of the sample format: no space after its last cell. */
  function LastSampleRow(row: seq<string>): string
    requires |row| == 3
  {
    row[0] + " " + row[1] + " " + row[2]
  }

  /** Each line of the sample format splits into the cells of its row. */
  lemma SampleRowTokens(g: Grid)
    requires Shape(g) && PlainCells(g)
    ensures '\n' !in SampleRow(g[0]) && '\n' !in SampleRow(g[1]) && '\n' !in LastSampleRow(g[2])
    ensures Take3(Split(SampleRow(g[0]), ' ')) == g[0]
    ensures Take3(Split(SampleRow(g[1]), ' ')) == g[1]
    ensures Take3(Split(LastSampleRow(g[2]), ' ')) == g[2]
  {
    TrailingSpace(SampleRow(g[0]), g[0][0], g[0][1], g[0][2]);
    TrailingSpace(SampleRow(g[1]), g[1][0], g[1][1], g[1][2]);
    assert LastSampleRow(g[2]) == g[2][0] + [' '] + g[2][1] + [' '] + g[2][2];
    SplitThree(g[2][0], g[2][1], g[2][2], ' ');
  }

  /** A text of three lines gives one row of tokens per line. */
  lemma TokensOfThreeLines(text: string, l0: string, l1: string, l2: string)
    requires Split(text, '\n') == [l0, l1, l2]
    ensures |Tokens(text)| == 3
    ensures Tokens(text)[0] == Take3(Split(l0, ' '))
    ensures Tokens(text)[1] == Take3(Split(l1, ' '))
    ensures Tokens(text)[2] == Take3(Split(l2, ' '))
  {
    assert Take3(Split(text, '\n')) == [l0, l1, l2];
  }

  /** A board in the sample format parses back to itself. */
  lemma ParseSample(g: Grid)
    requires Shape(g) && PlainCells(g)
    ensures ParseGrid(SampleText(g)) == g
  {
    SampleTokens(g);
    var p := ParseGrid(SampleText(g));
    forall y, x | 0 <= y < 3 && 0 <= x < 3
      ensures p[y][x] == g[y][x]
    {
    }
    GridsEqual(p, g);
  }

  /** The text `manhattan` and `resolve` parse for the goal board reads as
      the goal board. */
  lemma ParseGoalText(text: string)
    requires text == "1 2 3 \n4 5 6 \n7 8 0"
    ensures ParseGrid(text) == Goal
  {
    assert text == SampleText(Goal);
    ParseSample(Goal);
  }

  // ---------------------------------------------------------------------
  // Writing a board out

  /** One row: its cells joined by single spaces. */
  function RenderRow(row: seq<string>): string
    requires |row| >= 1
  {
    Join(row, ' ')
  }

  /** A board: its rows joined by line breaks. */
  function Render(g: Grid): string
    requires |g| >= 1 && forall i :: 0 <= i < |g| ==> |g[i]| >= 1
  {
    Join(seq(|g|, i requires 0 <= i < |g| => RenderRow(g[i])), '\n')
  }

  /** A board that the parser reads back as it is: one to three rows of one
      to three cells, no cell holding a space or a line break, and no cell
      written as a placeholder. */
  predicate Writable(g: Grid) {
    && 1 <= |g| <= 3
    && (forall i :: 0 <= i < |g| ==> 1 <= |g[i]| <= 3)
    && (forall i, j :: 0 <= i < |g| && 0 <= j < |g[i]| ==>
          ' ' !in g[i][j] && '\n' !in g[i][j] && !Placeholder(g[i][j]))
  }

  lemma RowRoundTrip(row: seq<string>)
    requires 1 <= |row| <= 3
    requires forall j :: 0 <= j < |row| ==> ' ' !in row[j]
    ensures Take3(Split(RenderRow(row), ' ')) == row
  {
    SplitJoin(row, ' ');
  }

  /** Parsing a written board gives the board back. */
  lemma ParseRender(g: Grid)
    requires Writable(g)
    ensures ParseGrid(Render(g)) == g
  {
    var lines := seq(|g|, i requires 0 <= i < |g| => RenderRow(g[i]));
    forall i | 0 <= i < |g|
      ensures '\n' !in lines[i]
    {
      JoinAvoids(g[i], ' ', '\n');
    }
    SplitJoin(lines, '\n');
    var rows := Tokens(Render(g));
    assert |rows| == |g|;
    forall i | 0 <= i < |g|
      ensures rows[i] == g[i]
    {
      RowRoundTrip(g[i]);
    }
    var p := ParseGrid(Render(g));
    forall i | 0 <= i < |g|
      ensures p[i] == g[i]
    {
      assert forall j :: 0 <= j < |g[i]| ==> p[i][j] == Clean(g[i][j]) == g[i][j];
    }
  }

  /** Joining pieces that avoid a character, with a different separator, avoids it too. */
  lemma {:induction false} JoinAvoids(parts: seq<string>, sep: char, c: char)
    requires |parts| >= 1 && sep != c
    requires forall i :: 0 <= i < |parts| ==> c !in parts[i]
    ensures c !in Join(parts, sep)
    decreases |parts|
  {
    if |parts| > 1 {
      JoinAvoids(parts[1..], sep, c);
    }
  }
}
