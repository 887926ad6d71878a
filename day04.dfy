/**
  The printing department: a grid of rolls of paper (`@`) and empty floor (`.`).
  A roll can be reached by a forklift when fewer than four of its eight neighbours
  hold rolls. Reachable rolls are removed in rounds, every round deciding on the
  grid as it was when the round began, until none can be reached.
*/
module Day04 {

  /** The grid as the lines of the input; rows may differ in length. */
  type Grid = seq<string>

  datatype GridPosition = GridPosition(column: nat, row: nat)

  /** What the counting loops demand: a row, a non-empty first row, and no row shorter than the first. */
  predicate WellFormed(g: Grid) {
    |g| >= 1 && |g[0]| >= 1 && forall i :: 0 <= i < |g| ==> |g[i]| >= |g[0]|
  }

  /** 1 when `(r, c)` lies inside the grid, inside its own row, and holds a roll. */
  function RollAt(g: Grid, r: int, c: int): nat {
    if 0 <= r < |g| && 0 <= c < |g[r]| && g[r][c] == '@' then 1 else 0
  }

  /** The rolls among the eight cells around `(row, col)`, clipped at every edge. */
  function EightNeighbours(g: Grid, row: int, col: int): (n: nat)
    ensures n <= 8
  {
    RollAt(g, row - 1, col - 1) + RollAt(g, row - 1, col) + RollAt(g, row - 1, col + 1)
    + RollAt(g, row, col - 1) + RollAt(g, row, col + 1)
    + RollAt(g, row + 1, col - 1) + RollAt(g, row + 1, col) + RollAt(g, row + 1, col + 1)
  }

  /** A roll that a forklift can reach: a roll with fewer than four neighbouring rolls. */
  predicate Accessible(g: Grid, row: nat, col: nat) {
    RollAt(g, row, col) == 1 && EightNeighbours(g, row, col) < 4
  }

  // ---------------------------------------------------------------------------
  // number_of_adjacent_rolls_of_paper
  // ---------------------------------------------------------------------------

  /** The first row or column of the window around `k`: one before, clipped at 0. */
  function WindowStart(k: nat): nat {
    if k > 0 then k - 1 else 0
  }

  /** The rolls in row `r` of the window, from the window's first column up to `upto`, the centre excluded. */
  function RowNeighbours(g: Grid, r: nat, row: nat, col: nat, upto: nat): nat
    decreases upto
  {
    if upto <= WindowStart(col) then 0
    else
      RowNeighbours(g, r, row, col, upto - 1)
      + (if r == row && upto - 1 == col then 0 else RollAt(g, r, upto - 1))
  }

  /** The rolls in the window's rows from its first row up to `upto`. */
  function WindowNeighbours(g: Grid, row: nat, col: nat, upto: nat): nat
    decreases upto
  {
    if upto <= WindowStart(row) then 0
    else WindowNeighbours(g, row, col, upto - 1) + RowNeighbours(g, upto - 1, row, col, col + 2)
  }

  /** The window sums, read row by row, are the eight neighbours. */
  lemma WindowIsEightNeighbours(g: Grid, row: nat, col: nat)
    ensures WindowNeighbours(g, row, col, row + 2) == EightNeighbours(g, row, col)
  {
    forall r: nat | r <= row + 1
      ensures RowNeighbours(g, r, row, col, col + 2)
           == (if r == row then 0 else RollAt(g, r, col))
              + RollAt(g, r, col - 1) + RollAt(g, r, col + 1)
    {
      assert RowNeighbours(g, r, row, col, col + 1)
          == RowNeighbours(g, r, row, col, col) + (if r == row then 0 else RollAt(g, r, col));
      if col > 0 {
        assert RowNeighbours(g, r, row, col, col) == RowNeighbours(g, r, row, col, col - 1) + RollAt(g, r, col - 1);
      }
    }
    assert WindowNeighbours(g, row, col, row + 1)
        == WindowNeighbours(g, row, col, row) + RowNeighbours(g, row, row, col, col + 2);
    if row > 0 {
      assert WindowNeighbours(g, row, col, row)
          == WindowNeighbours(g, row, col, row - 1) + RowNeighbours(g, row - 1, row, col, col + 2);
    }
  }

  /** One more column of row `r` adds its roll to the window sum, unless it is the centre. */
  lemma RowNeighboursStep(g: Grid, r: nat, row: nat, col: nat, j: nat)
    requires WindowStart(col) <= j
    ensures RowNeighbours(g, r, row, col, j + 1)
         == RowNeighbours(g, r, row, col, j) + (if r == row && j == col then 0 else RollAt(g, r, j))
  {
  }

  /** One more row of the window adds that row's sum. */
  lemma WindowNeighboursStep(g: Grid, row: nat, col: nat, i: nat)
    requires WindowStart(row) <= i
    ensures WindowNeighbours(g, row, col, i + 1)
         == WindowNeighbours(g, row, col, i) + RowNeighbours(g, i, row, col, col + 2)
  {
  }

  /** Columns past the end of row `r` add nothing to its window sum. */
  lemma {:induction false} RowNeighboursPastRow(g: Grid, r: nat, row: nat, col: nat, j: nat)
    requires WindowStart(col) <= j <= col + 2
    requires j == col + 2 || (r < |g| && j >= |g[r]|) || r >= |g|
    ensures RowNeighbours(g, r, row, col, col + 2) == RowNeighbours(g, r, row, col, j)
    decreases col + 2 - j
  {
    if j < col + 2 {
      RowNeighboursPastRow(g, r, row, col, j + 1);
    }
  }

  /** Rows past the end of the grid add nothing to the window sum. */
  lemma {:induction false} WindowPastGrid(g: Grid, row: nat, col: nat, i: nat)
    requires WindowStart(row) <= i <= row + 2
    requires i == row + 2 || i >= |g|
    ensures WindowNeighbours(g, row, col, row + 2) == WindowNeighbours(g, row, col, i)
    decreases row + 2 - i
  {
    if i < row + 2 {
      RowNeighboursPastRow(g, i, row, col, WindowStart(col));
      WindowPastGrid(g, row, col, i + 1);
    }
  }

  /**
    `number_of_adjacent_rolls_of_paper`: walks the rows and columns around the
    position, stopping at the end of the grid and at the end of each row, skipping
    the position itself, and counts the rolls it meets.
  */
  method NumberOfAdjacentRollsOfPaper(grid: Grid, position: GridPosition) returns (count: nat)
    requires |grid| > 0 && |grid[0]| > 0
    requires position.column < |grid[0]| && position.row < |grid|
    ensures count == EightNeighbours(grid, position.row, position.column)
    ensures count <= 8
  {
    var row, col := position.row, position.column;
    var i := if row > 0 then row - 1 else 0;
    count := 0;
    while i <= row + 1 && i < |grid|
      invariant WindowStart(row) <= i <= row + 2
      invariant count == WindowNeighbours(grid, row, col, i)
    {
      var j := if col > 0 then col - 1 else 0;
      while j <= col + 1 && j < |grid[i]|
        invariant WindowStart(col) <= j <= col + 2
        invariant count == WindowNeighbours(grid, row, col, i) + RowNeighbours(grid, i, row, col, j)
      {
        RowNeighboursStep(grid, i, row, col, j);
        if i == row && j == col {
          j := j + 1;
          continue;
        }
        if grid[i][j] == '@' {
          count := count + 1;
        }
        j := j + 1;
      }
      RowNeighboursPastRow(grid, i, row, col, j);
      WindowNeighboursStep(grid, row, col, i);
      i := i + 1;
    }
    WindowPastGrid(grid, row, col, i);
    WindowIsEightNeighbours(grid, row, col);
  }

  // ---------------------------------------------------------------------------
  // can_be_accessed
  // ---------------------------------------------------------------------------

  /**
    `can_be_accessed`: the cell holds a roll and fewer than four neighbours do. The
    cell must lie inside its row; the neighbour count, taken only for a roll, also
    needs the column inside the first row.
  */
  method CanBeAccessed(grid: Grid, position: GridPosition) returns (accessible: bool)
    requires position.row < |grid| && position.column < |grid[position.row]|
    requires grid[position.row][position.column] == '@' ==> position.column < |grid[0]|
    ensures accessible == Accessible(grid, position.row, position.column)
  {
    if grid[position.row][position.column] != '@' {
      return false;
    }
    var adjacent := NumberOfAdjacentRollsOfPaper(grid, position);
    accessible := adjacent < 4;
  }

  // ---------------------------------------------------------------------------
  // number_of_rolls_that_can_be_accessed
  // ---------------------------------------------------------------------------

  /** The accessible rolls of row `i` among its first `n` columns. */
  function AccessibleInRow(g: Grid, i: nat, n: nat): nat
    decreases n
  {
    if n == 0 then 0 else AccessibleInRow(g, i, n - 1) + (if Accessible(g, i, n - 1) then 1 else 0)
  }

  /** The accessible rolls of the first `m` rows, within the width of the first row. */
  function AccessibleInRows(g: Grid, m: nat): nat
    requires |g| >= 1
    decreases m
  {
    if m == 0 then 0 else AccessibleInRows(g, m - 1) + AccessibleInRow(g, m - 1, |g[0]|)
  }

  /** The rolls a forklift can reach, over the width of the first row. */
  function AccessibleCount(g: Grid): nat
    requires |g| >= 1
  {
    AccessibleInRows(g, |g|)
  }

  /** `number_of_rolls_that_can_be_accessed`: scans every row over the width of the first row. */
  method NumberOfRollsThatCanBeAccessed(grid: Grid) returns (result: nat)
    requires WellFormed(grid)
    ensures result == AccessibleCount(grid)
  {
    result := 0;
    var numberOfRows := |grid|;
    var numberOfColumns := |grid[0]|;
    for i := 0 to numberOfRows
      invariant result == AccessibleInRows(grid, i)
    {
      for j := 0 to numberOfColumns
        invariant result == AccessibleInRows(grid, i) + AccessibleInRow(grid, i, j)
      {
        var accessible := CanBeAccessed(grid, GridPosition(j, i));
        if accessible {
          result := result + 1;
        }
      }
    }
  }

  // ---------------------------------------------------------------------------
  // number_of_rolls_that_can_be_accessed_and_removed
  // ---------------------------------------------------------------------------

  /** The cell at `(i, j)` after one round: `.` for an accessible roll within the first row's width. */
  function Cleared(g: Grid, i: nat, j: nat): char
    requires i < |g| && j < |g[i]|
  {
    if j < |g[0]| && Accessible(g, i, j) then '.' else g[i][j]
  }

  /** Row `i` after one round. */
  function ClearedRow(g: Grid, i: nat): (row: string)
    requires i < |g|
    ensures |row| == |g[i]|
    ensures forall j :: 0 <= j < |g[i]| ==> row[j] == Cleared(g, i, j)
  {
    seq(|g[i]|, j requires 0 <= j < |g[i]| => Cleared(g, i, j))
  }

  /** The grid after one round: every accessible roll within the first row's width becomes `.`. */
  function RemoveAccessible(g: Grid): (h: Grid)
    requires |g| >= 1
    ensures |h| == |g|
    ensures forall i :: 0 <= i < |g| ==> h[i] == ClearedRow(g, i)
  {
    seq(|g|, i requires 0 <= i < |g| => ClearedRow(g, i))
  }

  /** The first `n` cells of row `i` after one round are those of `expected`. */
  predicate ClearedPrefix(g: Grid, i: nat, expected: string, n: nat)
    requires i < |g| && n <= |g[i]| && n <= |expected|
    decreases n
  {
    n == 0 || (Cleared(g, i, n - 1) == expected[n - 1] && ClearedPrefix(g, i, expected, n - 1))
  }

  /** A row whose every cell after one round is that of `expected` is `expected`. */
  lemma {:induction false} ClearedRowIs(g: Grid, i: nat, expected: string)
    requires i < |g| && |expected| == |g[i]| && ClearedPrefix(g, i, expected, |expected|)
    ensures ClearedRow(g, i) == expected
  {
    forall j | 0 <= j < |expected| ensures ClearedRow(g, i)[j] == expected[j] {
      ClearedPrefixAt(g, i, expected, |expected|, j);
    }
  }

  lemma {:induction false} ClearedPrefixAt(g: Grid, i: nat, expected: string, n: nat, j: nat)
    requires i < |g| && n <= |g[i]| && n <= |expected| && ClearedPrefix(g, i, expected, n) && j < n
    ensures Cleared(g, i, j) == expected[j]
    decreases n
  {
    if j < n - 1 {
      ClearedPrefixAt(g, i, expected, n - 1, j);
    }
  }

  /**
    The first loop of `number_of_rolls_that_can_be_accessed_and_removed`: scans the
    grid row by row over the width of the first row, counting the accessible rolls
    and collecting their positions. Exactly the accessible positions are collected.
  */
  method CollectAccessible(grid: Grid) returns (positionsToRemove: seq<GridPosition>, result: nat)
    requires WellFormed(grid)
    ensures result == AccessibleCount(grid) && |positionsToRemove| == result
    ensures forall p :: p in positionsToRemove ==>
      p.row < |grid| && p.column < |grid[0]| && Accessible(grid, p.row, p.column)
    ensures forall r, c :: 0 <= r < |grid| && 0 <= c < |grid[0]| && Accessible(grid, r, c) ==>
      GridPosition(c, r) in positionsToRemove
  {
    result := 0;
    var numberOfRows := |grid|;
    var numberOfColumns := |grid[0]|;
    positionsToRemove := [];
    for i := 0 to numberOfRows
      invariant result == AccessibleInRows(grid, i) && |positionsToRemove| == result
      invariant forall p :: p in positionsToRemove ==>
        p.row < i && p.column < numberOfColumns && Accessible(grid, p.row, p.column)
      invariant forall r, c :: 0 <= r < i && 0 <= c < numberOfColumns && Accessible(grid, r, c) ==>
        GridPosition(c, r) in positionsToRemove
    {
      for j := 0 to numberOfColumns
        invariant result == AccessibleInRows(grid, i) + AccessibleInRow(grid, i, j)
        invariant |positionsToRemove| == result
        invariant forall p :: p in positionsToRemove ==>
          (p.row < i || (p.row == i && p.column < j)) && p.column < numberOfColumns
          && Accessible(grid, p.row, p.column)
        invariant forall r, c :: ((0 <= r < i || (r == i && 0 <= c < j)) && 0 <= c < numberOfColumns
          && Accessible(grid, r, c)) ==> GridPosition(c, r) in positionsToRemove
      {
        var currentPosition := GridPosition(j, i);
        var accessible := CanBeAccessed(grid, currentPosition);
        if accessible {
          positionsToRemove := positionsToRemove + [currentPosition];
          result := result + 1;
        }
      }
    }
  }

  /**
    `number_of_rolls_that_can_be_accessed_and_removed`: first collects every
    accessible position of the grid as it is, then turns each collected cell into
    `.`. It returns the count on the grid as it was on entry, and the new grid is
    the old one with exactly those cells cleared.
  */
  method NumberOfRollsThatCanBeAccessedAndRemoved(grid: array<string>) returns (result: nat)
    requires WellFormed(grid[..])
    modifies grid
    ensures result == AccessibleCount(old(grid[..]))
    ensures grid[..] == RemoveAccessible(old(grid[..]))
  {
    ghost var g0 := grid[..];
    var positionsToRemove;
    positionsToRemove, result := CollectAccessible(grid[..]);
    assert positionsToRemove[..0] == [];
    for k := 0 to |positionsToRemove|
      invariant ClearedAt(g0, grid[..], positionsToRemove[..k])
    {
      var p := positionsToRemove[k];
      assert positionsToRemove[..k + 1] == positionsToRemove[..k] + [p];
      ClearStep(g0, grid[..], positionsToRemove[..k], p);
      grid[p.row] := ClearCell(grid[p.row], p.column);
    }
    assert positionsToRemove[..|positionsToRemove|] == positionsToRemove;
    ClearedAtAccessible(g0, grid[..], positionsToRemove);
  }

  /** `g` is `g0` with the cells at `ps` turned into `.`, and no other change. */
  ghost predicate ClearedAt(g0: Grid, g: Grid, ps: seq<GridPosition>) {
    |g| == |g0|
    && (forall r :: 0 <= r < |g| ==> |g[r]| == |g0[r]|)
    && forall r, c :: 0 <= r < |g| && 0 <= c < |g0[r]| ==>
      g[r][c] == if GridPosition(c, r) in ps then '.' else g0[r][c]
  }

  /** Clearing one more cell inside the grid extends the cleared positions by it. */
  lemma ClearStep(g0: Grid, g: Grid, ps: seq<GridPosition>, p: GridPosition)
    requires ClearedAt(g0, g, ps) && p.row < |g| && p.column < |g[p.row]|
    ensures ClearedAt(g0, g[p.row := ClearCell(g[p.row], p.column)], ps + [p])
  {
  }

  /** Clearing exactly the accessible positions is one round of removal. */
  lemma ClearedAtAccessible(g0: Grid, g: Grid, ps: seq<GridPosition>)
    requires |g0| >= 1 && ClearedAt(g0, g, ps)
    requires forall p :: p in ps ==> p.row < |g0| && p.column < |g0[0]| && Accessible(g0, p.row, p.column)
    requires forall r, c :: 0 <= r < |g0| && 0 <= c < |g0[0]| && Accessible(g0, r, c) ==>
      GridPosition(c, r) in ps
    ensures g == RemoveAccessible(g0)
  {
    forall r | 0 <= r < |g| ensures g[r] == ClearedRow(g0, r) {
      forall c | 0 <= c < |g[r]| ensures g[r][c] == Cleared(g0, r, c) {
        if c < |g0[0]| && Accessible(g0, r, c) {
          assert GridPosition(c, r) in ps;
        }
      }
    }
  }

  /** `replace_range(column..column + 1, ".")` on a line of single-byte characters. */
  function ClearCell(line: string, column: nat): (cleared: string)
    requires column < |line|
    ensures |cleared| == |line|
    ensures forall k :: 0 <= k < |line| ==> cleared[k] == if k == column then '.' else line[k]
  {
    line[..column] + "." + line[column + 1..]
  }

  // ---------------------------------------------------------------------------
  // Counting rolls, and the repeat loop of `main`
  // ---------------------------------------------------------------------------

  /** The rolls of row `i` among its first `n` cells. */
  function RollsInRow(g: Grid, i: nat, n: nat): nat
    decreases n
  {
    if n == 0 then 0 else RollsInRow(g, i, n - 1) + RollAt(g, i, n - 1)
  }

  /** The rolls of the first `m` rows. */
  function RollsInRows(g: Grid, m: nat): nat
    requires m <= |g|
    decreases m
  {
    if m == 0 then 0 else RollsInRows(g, m - 1) + RollsInRow(g, m - 1, |g[m - 1]|)
  }

  /** Every roll in the grid. */
  function RollCount(g: Grid): nat {
    RollsInRows(g, |g|)
  }

  /** Within one row, the cleared cells are exactly the accessible rolls. */
  lemma {:induction false} RemoveAccessibleRow(g: Grid, i: nat, n: nat)
    requires WellFormed(g) && i < |g| && n <= |g[i]|
    ensures RollsInRow(RemoveAccessible(g), i, n) + AccessibleInRow(g, i, if n < |g[0]| then n else |g[0]|)
         == RollsInRow(g, i, n)
    decreases n
  {
    if n > 0 {
      RemoveAccessibleRow(g, i, n - 1);
      var h := RemoveAccessible(g);
      assert h[i][n - 1] == if n - 1 < |g[0]| && Accessible(g, i, n - 1) then '.' else g[i][n - 1];
    }
  }

  /** Over the first `m` rows, the cleared cells are exactly the accessible rolls. */
  lemma {:induction false} RemoveAccessibleRows(g: Grid, m: nat)
    requires WellFormed(g) && m <= |g|
    ensures RollsInRows(RemoveAccessible(g), m) + AccessibleInRows(g, m) == RollsInRows(g, m)
    decreases m
  {
    if m > 0 {
      RemoveAccessibleRows(g, m - 1);
      RemoveAccessibleRow(g, m - 1, |g[m - 1]|);
    }
  }

  /** One round removes exactly as many rolls as it counts, and keeps the grid's shape. */
  lemma RemoveAccessibleCount(g: Grid)
    requires WellFormed(g)
    ensures WellFormed(RemoveAccessible(g))
    ensures RollCount(RemoveAccessible(g)) + AccessibleCount(g) == RollCount(g)
  {
    RemoveAccessibleRows(g, |g|);
  }

  /** A round that finds nothing to remove leaves the grid as it is. */
  lemma {:induction false} NothingAccessibleNothingRemoved(g: Grid)
    requires WellFormed(g) && AccessibleCount(g) == 0
    ensures RemoveAccessible(g) == g
  {
    var h := RemoveAccessible(g);
    forall i | 0 <= i < |g| ensures h[i] == g[i] {
      forall j | 0 <= j < |g[0]| ensures !Accessible(g, i, j) {
        NoneInRows(g, |g|, i, j);
      }
    }
  }

  /** A zero count over the first `m` rows rules out every accessible cell in them. */
  lemma {:induction false} NoneInRows(g: Grid, m: nat, i: nat, j: nat)
    requires |g| >= 1 && AccessibleInRows(g, m) == 0 && i < m && j < |g[0]|
    ensures !Accessible(g, i, j)
    decreases m
  {
    if i < m - 1 {
      NoneInRows(g, m - 1, i, j);
    } else {
      NoneInRow(g, i, |g[0]|, j);
    }
  }

  /** A zero count over the first `n` columns of a row rules out every accessible cell in them. */
  lemma {:induction false} NoneInRow(g: Grid, i: nat, n: nat, j: nat)
    requires AccessibleInRow(g, i, n) == 0 && j < n
    ensures !Accessible(g, i, j)
    decreases n
  {
    if j < n - 1 {
      NoneInRow(g, i, n - 1, j);
    }
  }

  /**
    Rounds of removal from `g` until a round finds nothing: the grid they leave and
    the sum of their counts. Every round that counts some rolls removes that many,
    so the rounds end; the sum is the number of rolls removed, and in the grid left
    no roll is accessible.
  */
  function Rounds(g: Grid): (r: (Grid, nat))
    requires WellFormed(g)
    ensures WellFormed(r.0) && AccessibleCount(r.0) == 0
    ensures r.1 + RollCount(r.0) == RollCount(g)
    decreases RollCount(g)
  {
    if AccessibleCount(g) == 0 then (g, 0)
    else
      RemoveAccessibleCount(g);
      var rest := Rounds(RemoveAccessible(g));
      (rest.0, AccessibleCount(g) + rest.1)
  }

  /**
    The repeat loop of `main`: removes accessible rolls round after round while a
    round finds any, and adds up the rounds' counts. It ends with the grid and the
    sum that `Rounds` gives for the grid on entry.
  */
  method RemoveRollsUntilNoneAccessible(grid: array<string>) returns (sum: nat)
    requires WellFormed(grid[..])
    modifies grid
    ensures grid[..] == Rounds(old(grid[..])).0 && sum == Rounds(old(grid[..])).1
    ensures WellFormed(grid[..])
    ensures sum + RollCount(grid[..]) == RollCount(old(grid[..]))
    ensures AccessibleCount(grid[..]) == 0
  {
    sum := 0;
    while true
      invariant WellFormed(grid[..])
      invariant Rounds(grid[..]).0 == Rounds(old(grid[..])).0
      invariant sum + Rounds(grid[..]).1 == Rounds(old(grid[..])).1
      decreases RollCount(grid[..])
    {
      ghost var before := grid[..];
      RemoveAccessibleCount(before);
      var result := NumberOfRollsThatCanBeAccessedAndRemoved(grid);
      if result == 0 {
        NothingAccessibleNothingRemoved(before);
        return;
      }
      sum := sum + result;
    }
  }

  // ---------------------------------------------------------------------------
  // The repeat loop on a full 4x4 square: it stops with rolls left.
  // ---------------------------------------------------------------------------

  /** A 4x4 square of rolls. */
  predicate IsFullSquare(g: Grid) {
    |g| == 4 && g[0] == "@@@@" && g[1] == "@@@@" && g[2] == "@@@@" && g[3] == "@@@@"
  }

  /** The 4x4 square with its corners cleared. */
  predicate IsCornersCleared(g: Grid) {
    |g| == 4 && g[0] == ".@@." && g[1] == "@@@@" && g[2] == "@@@@" && g[3] == ".@@."
  }

  /** In a full square only the corners, with three neighbours each, can be reached: the top half. */
  lemma FullSquareTop(g: Grid)
    requires IsFullSquare(g)
    ensures Accessible(g, 0, 0) && !Accessible(g, 0, 1) && !Accessible(g, 0, 2) && Accessible(g, 0, 3)
    ensures !Accessible(g, 1, 0) && !Accessible(g, 1, 1) && !Accessible(g, 1, 2) && !Accessible(g, 1, 3)
  {
  }

  /** In a full square only the corners can be reached: the bottom half. */
  lemma FullSquareBottom(g: Grid)
    requires IsFullSquare(g)
    ensures !Accessible(g, 2, 0) && !Accessible(g, 2, 1) && !Accessible(g, 2, 2) && !Accessible(g, 2, 3)
    ensures Accessible(g, 3, 0) && !Accessible(g, 3, 1) && !Accessible(g, 3, 2) && Accessible(g, 3, 3)
  {
  }

  /** The first round on a full square counts its four corners and clears them. */
  lemma FullSquareRound(g: Grid)
    requires IsFullSquare(g)
    ensures WellFormed(g) && AccessibleCount(g) == 4
    ensures IsCornersCleared(RemoveAccessible(g))
  {
    FullSquareTop(g);
    FullSquareBottom(g);
    assert AccessibleInRow(g, 0, 4) == 2 && AccessibleInRow(g, 1, 4) == 0;
    assert AccessibleInRow(g, 2, 4) == 0 && AccessibleInRow(g, 3, 4) == 2;
    ClearedRowIs(g, 0, ".@@.");
    ClearedRowIs(g, 1, "@@@@");
    ClearedRowIs(g, 2, "@@@@");
    ClearedRowIs(g, 3, ".@@.");
  }

  /** Once the corners are gone, every roll left has at least four neighbours: the top half. */
  lemma CornersClearedTop(g: Grid)
    requires IsCornersCleared(g)
    ensures !Accessible(g, 0, 0) && !Accessible(g, 0, 1) && !Accessible(g, 0, 2) && !Accessible(g, 0, 3)
    ensures !Accessible(g, 1, 0) && !Accessible(g, 1, 1) && !Accessible(g, 1, 2) && !Accessible(g, 1, 3)
  {
  }

  /** Once the corners are gone, every roll left has at least four neighbours: the bottom half. */
  lemma CornersClearedBottom(g: Grid)
    requires IsCornersCleared(g)
    ensures !Accessible(g, 2, 0) && !Accessible(g, 2, 1) && !Accessible(g, 2, 2) && !Accessible(g, 2, 3)
    ensures !Accessible(g, 3, 0) && !Accessible(g, 3, 1) && !Accessible(g, 3, 2) && !Accessible(g, 3, 3)
  {
  }

  /** The second round on a full square finds nothing. */
  lemma CornersClearedNone(g: Grid)
    requires IsCornersCleared(g)
    ensures WellFormed(g) && AccessibleCount(g) == 0
  {
    CornersClearedTop(g);
    CornersClearedBottom(g);
    assert AccessibleInRow(g, 0, 4) == 0 && AccessibleInRow(g, 1, 4) == 0;
    assert AccessibleInRow(g, 2, 4) == 0 && AccessibleInRow(g, 3, 4) == 0;
  }

  /**
    On a full 4x4 square the repeat loop removes the four corners, then finds
    nothing: its sum is 4, and 12 rolls stay in the grid.
  */
  lemma FullSquareRounds(g: Grid)
    requires IsFullSquare(g)
    ensures WellFormed(g)
    ensures Rounds(g).1 == 4 && IsCornersCleared(Rounds(g).0)
  {
    FullSquareRound(g);
    var h := RemoveAccessible(g);
    CornersClearedNone(h);
    RoundsStop(h);
    RoundsStep(g);
  }

  /** A round that finds something is followed by the rounds on the grid it leaves. */
  lemma RoundsStep(g: Grid)
    requires WellFormed(g) && AccessibleCount(g) > 0
    ensures WellFormed(RemoveAccessible(g))
    ensures Rounds(g) == (Rounds(RemoveAccessible(g)).0, AccessibleCount(g) + Rounds(RemoveAccessible(g)).1)
  {
    RemoveAccessibleCount(g);
  }

  /** When a round finds nothing the rounds stop, with the grid as it is. */
  lemma RoundsStop(g: Grid)
    requires WellFormed(g) && AccessibleCount(g) == 0
    ensures Rounds(g) == (g, 0)
  {
  }

  // ---------------------------------------------------------------------------
  // The unit tests, on the sample grid.
  // ---------------------------------------------------------------------------

  /** The sample grid of the unit tests, row by row. */
  predicate IsSampleGrid(g: Grid) {
    |g| == 10
    && g[0] == "..@@.@@@@."
    && g[1] == "@@@.@.@.@@"
    && g[2] == "@@@@@.@.@@"
    && g[3] == "@.@@@@..@."
    && g[4] == "@@.@@@@.@@"
    && g[5] == ".@@@@@@@.@"
    && g[6] == ".@.@.@.@@@"
    && g[7] == "@.@@@.@@@@"
    && g[8] == ".@@@@@@@@."
    && g[9] == "@.@.@@@.@."
  }

  /** Unit test: neighbour counts and accessibility along the first row, left. */
  lemma FirstRowLeftExamples(g: Grid)
    requires IsSampleGrid(g)
    ensures EightNeighbours(g, 0, 0) == 2 && !Accessible(g, 0, 0)
    ensures EightNeighbours(g, 0, 1) == 4 && !Accessible(g, 0, 1)
    ensures EightNeighbours(g, 0, 2) == 3 && Accessible(g, 0, 2)
  {
  }

  /** Unit test: neighbour counts and accessibility along the first row, middle. */
  lemma FirstRowMiddleExamples(g: Grid)
    requires IsSampleGrid(g)
    ensures EightNeighbours(g, 0, 3) == 3 && Accessible(g, 0, 3)
    ensures EightNeighbours(g, 0, 4) == 3 && !Accessible(g, 0, 4)
  {
  }

  /** Unit test: neighbour counts and accessibility along the first row, right. */
  lemma FirstRowRightExamples(g: Grid)
    requires IsSampleGrid(g)
    ensures EightNeighbours(g, 0, 5) == 3 && Accessible(g, 0, 5)
    ensures EightNeighbours(g, 0, 6) == 3 && Accessible(g, 0, 6)
    ensures EightNeighbours(g, 0, 7) == 4 && !Accessible(g, 0, 7)
    ensures EightNeighbours(g, 0, 8) == 3 && Accessible(g, 0, 8)
    ensures EightNeighbours(g, 0, 9) == 3 && !Accessible(g, 0, 9)
  {
  }

  /** Unit test: neighbour counts and accessibility along the second row. */
  lemma SecondRowExamples(g: Grid)
    requires IsSampleGrid(g)
    ensures EightNeighbours(g, 1, 0) == 3 && Accessible(g, 1, 0)
    ensures EightNeighbours(g, 1, 1) == 6 && !Accessible(g, 1, 1)
    ensures EightNeighbours(g, 1, 2) == 6 && !Accessible(g, 1, 2)
  {
  }

  /** Unit test: the bottom-right cell, which holds no roll. */
  lemma CornerExample(g: Grid)
    requires IsSampleGrid(g)
    ensures EightNeighbours(g, 9, 9) == 2 && !Accessible(g, 9, 9)
  {
  }

  /** Unit test: 13 rolls of the sample grid can be reached. */
  lemma SampleAccessibleCount(g: Grid)
    requires IsSampleGrid(g)
    ensures AccessibleCount(g) == 13
  {
    SampleRowZero(g);
    SampleRowOne(g);
    SampleRowTwo(g);
    SampleRowThree(g);
    SampleRowFour(g);
    SampleRowFive(g);
    SampleRowSix(g);
    SampleRowSeven(g);
    SampleRowEight(g);
    SampleRowNine(g);
  }

  /** Unit test: the grid after one round of removal on the sample grid. */
  lemma SampleRemoval(g: Grid)
    requires IsSampleGrid(g)
    ensures RemoveAccessible(g) ==
    [ ".......@..",
      ".@@.@.@.@@",
      "@@@@@...@@",
      "@.@@@@..@.",
      ".@.@@@@.@.",
      ".@@@@@@@.@",
      ".@.@.@.@@@",
      "..@@@.@@@@",
      ".@@@@@@@@.",
      "....@@@..." ]
  {
    SampleRowZeroCleared(g);
    SampleRowOneCleared(g);
    SampleRowTwoCleared(g);
    SampleRowThreeCleared(g);
    SampleRowFourCleared(g);
    SampleRowFiveCleared(g);
    SampleRowSixCleared(g);
    SampleRowSevenCleared(g);
    SampleRowEightCleared(g);
    SampleRowNineCleared(g);
  }

  /** Row 0 of the sample grid, columns 0-4: which cells hold a reachable roll. */
  lemma SampleRowZeroLeft(g: Grid)
    requires IsSampleGrid(g)
    ensures !Accessible(g, 0, 0) && !Accessible(g, 0, 1) && Accessible(g, 0, 2)
    ensures Accessible(g, 0, 3) && !Accessible(g, 0, 4)
  {
  }

  /** Row 0 of the sample grid, columns 5-9: which cells hold a reachable roll. */
  lemma SampleRowZeroRight(g: Grid)
    requires IsSampleGrid(g)
    ensures Accessible(g, 0, 5) && Accessible(g, 0, 6) && !Accessible(g, 0, 7)
    ensures Accessible(g, 0, 8) && !Accessible(g, 0, 9)
  {
  }

  /** Row 0 of the sample grid: its accessible rolls. */
  lemma SampleRowZero(g: Grid)
    requires IsSampleGrid(g)
    ensures AccessibleInRow(g, 0, 10) == 5
  {
    SampleRowZeroLeft(g);
    SampleRowZeroRight(g);
  }

  /** Row 0 of the sample grid once its accessible rolls are cleared. */
  lemma SampleRowZeroCleared(g: Grid)
    requires IsSampleGrid(g)
    ensures ClearedRow(g, 0) == ".......@.."
  {
    SampleRowZeroLeft(g);
    SampleRowZeroRight(g);
    ClearedRowIs(g, 0, ".......@..");
  }

  /** Row 1 of the sample grid, columns 0-4: which cells hold a reachable roll. */
  lemma SampleRowOneLeft(g: Grid)
    requires IsSampleGrid(g)
    ensures Accessible(g, 1, 0) && !Accessible(g, 1, 1) && !Accessible(g, 1, 2)
    ensures !Accessible(g, 1, 3) && !Accessible(g, 1, 4)
  {
  }

  /** Row 1 of the sample grid, columns 5-9: which cells hold a reachable roll. */
  lemma SampleRowOneRight(g: Grid)
    requires IsSampleGrid(g)
    ensures !Accessible(g, 1, 5) && !Accessible(g, 1, 6) && !Accessible(g, 1, 7)
    ensures !Accessible(g, 1, 8) && !Accessible(g, 1, 9)
  {
  }

  /** Row 1 of the sample grid: its accessible rolls. */
  lemma SampleRowOne(g: Grid)
    requires IsSampleGrid(g)
    ensures AccessibleInRow(g, 1, 10) == 1
  {
    SampleRowOneLeft(g);
    SampleRowOneRight(g);
  }

  /** Row 1 of the sample grid once its accessible rolls are cleared. */
  lemma SampleRowOneCleared(g: Grid)
    requires IsSampleGrid(g)
    ensures ClearedRow(g, 1) == ".@@.@.@.@@"
  {
    SampleRowOneLeft(g);
    SampleRowOneRight(g);
    ClearedRowIs(g, 1, ".@@.@.@.@@");
  }

  /** Row 2 of the sample grid, columns 0-4: which cells hold a reachable roll. */
  lemma SampleRowTwoLeft(g: Grid)
    requires IsSampleGrid(g)
    ensures !Accessible(g, 2, 0) && !Accessible(g, 2, 1) && !Accessible(g, 2, 2)
    ensures !Accessible(g, 2, 3) && !Accessible(g, 2, 4)
  {
  }

  /** Row 2 of the sample grid, columns 5-9: which cells hold a reachable roll. */
  lemma SampleRowTwoRight(g: Grid)
    requires IsSampleGrid(g)
    ensures !Accessible(g, 2, 5) && Accessible(g, 2, 6) && !Accessible(g, 2, 7)
    ensures !Accessible(g, 2, 8) && !Accessible(g, 2, 9)
  {
  }

  /** Row 2 of the sample grid: its accessible rolls. */
  lemma SampleRowTwo(g: Grid)
    requires IsSampleGrid(g)
    ensures AccessibleInRow(g, 2, 10) == 1
  {
    SampleRowTwoLeft(g);
    SampleRowTwoRight(g);
  }

  /** Row 2 of the sample grid once its accessible rolls are cleared. */
  lemma SampleRowTwoCleared(g: Grid)
    requires IsSampleGrid(g)
    ensures ClearedRow(g, 2) == "@@@@@...@@"
  {
    SampleRowTwoLeft(g);
    SampleRowTwoRight(g);
    ClearedRowIs(g, 2, "@@@@@...@@");
  }

  /** Row 3 of the sample grid, columns 0-4: which cells hold a reachable roll. */
  lemma SampleRowThreeLeft(g: Grid)
    requires IsSampleGrid(g)
    ensures !Accessible(g, 3, 0) && !Accessible(g, 3, 1) && !Accessible(g, 3, 2)
    ensures !Accessible(g, 3, 3) && !Accessible(g, 3, 4)
  {
  }

  /** Row 3 of the sample grid, columns 5-9: which cells hold a reachable roll. */
  lemma SampleRowThreeRight(g: Grid)
    requires IsSampleGrid(g)
    ensures !Accessible(g, 3, 5) && !Accessible(g, 3, 6) && !Accessible(g, 3, 7)
    ensures !Accessible(g, 3, 8) && !Accessible(g, 3, 9)
  {
  }

  /** Row 3 of the sample grid: its accessible rolls. */
  lemma SampleRowThree(g: Grid)
    requires IsSampleGrid(g)
    ensures AccessibleInRow(g, 3, 10) == 0
  {
    SampleRowThreeLeft(g);
    SampleRowThreeRight(g);
  }

  /** Row 3 of the sample grid once its accessible rolls are cleared. */
  lemma SampleRowThreeCleared(g: Grid)
    requires IsSampleGrid(g)
    ensures ClearedRow(g, 3) == "@.@@@@..@."
  {
    SampleRowThreeLeft(g);
    SampleRowThreeRight(g);
    ClearedRowIs(g, 3, "@.@@@@..@.");
  }

  /** Row 4 of the sample grid, columns 0-4: which cells hold a reachable roll. */
  lemma SampleRowFourLeft(g: Grid)
    requires IsSampleGrid(g)
    ensures Accessible(g, 4, 0) && !Accessible(g, 4, 1) && !Accessible(g, 4, 2)
    ensures !Accessible(g, 4, 3) && !Accessible(g, 4, 4)
  {
  }

  /** Row 4 of the sample grid, columns 5-9: which cells hold a reachable roll. */
  lemma SampleRowFourRight(g: Grid)
    requires IsSampleGrid(g)
    ensures !Accessible(g, 4, 5) && !Accessible(g, 4, 6) && !Accessible(g, 4, 7)
    ensures !Accessible(g, 4, 8) && Accessible(g, 4, 9)
  {
  }

  /** Row 4 of the sample grid: its accessible rolls. */
  lemma SampleRowFour(g: Grid)
    requires IsSampleGrid(g)
    ensures AccessibleInRow(g, 4, 10) == 2
  {
    SampleRowFourLeft(g);
    SampleRowFourRight(g);
  }

  /** Row 4 of the sample grid once its accessible rolls are cleared. */
  lemma SampleRowFourCleared(g: Grid)
    requires IsSampleGrid(g)
    ensures ClearedRow(g, 4) == ".@.@@@@.@."
  {
    SampleRowFourLeft(g);
    SampleRowFourRight(g);
    ClearedRowIs(g, 4, ".@.@@@@.@.");
  }

  /** Row 5 of the sample grid, columns 0-4: which cells hold a reachable roll. */
  lemma SampleRowFiveLeft(g: Grid)
    requires IsSampleGrid(g)
    ensures !Accessible(g, 5, 0) && !Accessible(g, 5, 1) && !Accessible(g, 5, 2)
    ensures !Accessible(g, 5, 3) && !Accessible(g, 5, 4)
  {
  }

  /** Row 5 of the sample grid, columns 5-9: which cells hold a reachable roll. */
  lemma SampleRowFiveRight(g: Grid)
    requires IsSampleGrid(g)
    ensures !Accessible(g, 5, 5) && !Accessible(g, 5, 6) && !Accessible(g, 5, 7)
    ensures !Accessible(g, 5, 8) && !Accessible(g, 5, 9)
  {
  }

  /** Row 5 of the sample grid: its accessible rolls. */
  lemma SampleRowFive(g: Grid)
    requires IsSampleGrid(g)
    ensures AccessibleInRow(g, 5, 10) == 0
  {
    SampleRowFiveLeft(g);
    SampleRowFiveRight(g);
  }

  /** Row 5 of the sample grid once its accessible rolls are cleared. */
  lemma SampleRowFiveCleared(g: Grid)
    requires IsSampleGrid(g)
    ensures ClearedRow(g, 5) == ".@@@@@@@.@"
  {
    SampleRowFiveLeft(g);
    SampleRowFiveRight(g);
    ClearedRowIs(g, 5, ".@@@@@@@.@");
  }

  /** Row 6 of the sample grid, columns 0-4: which cells hold a reachable roll. */
  lemma SampleRowSixLeft(g: Grid)
    requires IsSampleGrid(g)
    ensures !Accessible(g, 6, 0) && !Accessible(g, 6, 1) && !Accessible(g, 6, 2)
    ensures !Accessible(g, 6, 3) && !Accessible(g, 6, 4)
  {
  }

  /** Row 6 of the sample grid, columns 5-9: which cells hold a reachable roll. */
  lemma SampleRowSixRight(g: Grid)
    requires IsSampleGrid(g)
    ensures !Accessible(g, 6, 5) && !Accessible(g, 6, 6) && !Accessible(g, 6, 7)
    ensures !Accessible(g, 6, 8) && !Accessible(g, 6, 9)
  {
  }

  /** Row 6 of the sample grid: its accessible rolls. */
  lemma SampleRowSix(g: Grid)
    requires IsSampleGrid(g)
    ensures AccessibleInRow(g, 6, 10) == 0
  {
    SampleRowSixLeft(g);
    SampleRowSixRight(g);
  }

  /** Row 6 of the sample grid once its accessible rolls are cleared. */
  lemma SampleRowSixCleared(g: Grid)
    requires IsSampleGrid(g)
    ensures ClearedRow(g, 6) == ".@.@.@.@@@"
  {
    SampleRowSixLeft(g);
    SampleRowSixRight(g);
    ClearedRowIs(g, 6, ".@.@.@.@@@");
  }

  /** Row 7 of the sample grid, columns 0-4: which cells hold a reachable roll. */
  lemma SampleRowSevenLeft(g: Grid)
    requires IsSampleGrid(g)
    ensures Accessible(g, 7, 0) && !Accessible(g, 7, 1) && !Accessible(g, 7, 2)
    ensures !Accessible(g, 7, 3) && !Accessible(g, 7, 4)
  {
  }

  /** Row 7 of the sample grid, columns 5-9: which cells hold a reachable roll. */
  lemma SampleRowSevenRight(g: Grid)
    requires IsSampleGrid(g)
    ensures !Accessible(g, 7, 5) && !Accessible(g, 7, 6) && !Accessible(g, 7, 7)
    ensures !Accessible(g, 7, 8) && !Accessible(g, 7, 9)
  {
  }

  /** Row 7 of the sample grid: its accessible rolls. */
  lemma SampleRowSeven(g: Grid)
    requires IsSampleGrid(g)
    ensures AccessibleInRow(g, 7, 10) == 1
  {
    SampleRowSevenLeft(g);
    SampleRowSevenRight(g);
  }

  /** Row 7 of the sample grid once its accessible rolls are cleared. */
  lemma SampleRowSevenCleared(g: Grid)
    requires IsSampleGrid(g)
    ensures ClearedRow(g, 7) == "..@@@.@@@@"
  {
    SampleRowSevenLeft(g);
    SampleRowSevenRight(g);
    ClearedRowIs(g, 7, "..@@@.@@@@");
  }

  /** Row 8 of the sample grid, columns 0-4: which cells hold a reachable roll. */
  lemma SampleRowEightLeft(g: Grid)
    requires IsSampleGrid(g)
    ensures !Accessible(g, 8, 0) && !Accessible(g, 8, 1) && !Accessible(g, 8, 2)
    ensures !Accessible(g, 8, 3) && !Accessible(g, 8, 4)
  {
  }

  /** Row 8 of the sample grid, columns 5-9: which cells hold a reachable roll. */
  lemma SampleRowEightRight(g: Grid)
    requires IsSampleGrid(g)
    ensures !Accessible(g, 8, 5) && !Accessible(g, 8, 6) && !Accessible(g, 8, 7)
    ensures !Accessible(g, 8, 8) && !Accessible(g, 8, 9)
  {
  }

  /** Row 8 of the sample grid: its accessible rolls. */
  lemma SampleRowEight(g: Grid)
    requires IsSampleGrid(g)
    ensures AccessibleInRow(g, 8, 10) == 0
  {
    SampleRowEightLeft(g);
    SampleRowEightRight(g);
  }

  /** Row 8 of the sample grid once its accessible rolls are cleared. */
  lemma SampleRowEightCleared(g: Grid)
    requires IsSampleGrid(g)
    ensures ClearedRow(g, 8) == ".@@@@@@@@."
  {
    SampleRowEightLeft(g);
    SampleRowEightRight(g);
    ClearedRowIs(g, 8, ".@@@@@@@@.");
  }

  /** Row 9 of the sample grid, columns 0-4: which cells hold a reachable roll. */
  lemma SampleRowNineLeft(g: Grid)
    requires IsSampleGrid(g)
    ensures Accessible(g, 9, 0) && !Accessible(g, 9, 1) && Accessible(g, 9, 2)
    ensures !Accessible(g, 9, 3) && !Accessible(g, 9, 4)
  {
  }

  /** Row 9 of the sample grid, columns 5-9: which cells hold a reachable roll. */
  lemma SampleRowNineRight(g: Grid)
    requires IsSampleGrid(g)
    ensures !Accessible(g, 9, 5) && !Accessible(g, 9, 6) && !Accessible(g, 9, 7)
    ensures Accessible(g, 9, 8) && !Accessible(g, 9, 9)
  {
  }

  /** Row 9 of the sample grid: its accessible rolls. */
  lemma SampleRowNine(g: Grid)
    requires IsSampleGrid(g)
    ensures AccessibleInRow(g, 9, 10) == 3
  {
    SampleRowNineLeft(g);
    SampleRowNineRight(g);
  }

  /** Row 9 of the sample grid once its accessible rolls are cleared. */
  lemma SampleRowNineCleared(g: Grid)
    requires IsSampleGrid(g)
    ensures ClearedRow(g, 9) == "....@@@..."
  {
    SampleRowNineLeft(g);
    SampleRowNineRight(g);
    ClearedRowIs(g, 9, "....@@@...");
  }
}
