/**
 * Board generation and revealing as the source writes them: mines and
 * numbers are written in place into a two-dimensional array of squares
 * (column index first), and the reveal keeps its nested neighbour loops and
 * its recursive calls. Each method is proved against the functions of
 * `Grid` and `FloodFill`.
 */
module GameLogic {
  import opened DataManagement
  import opened Grid
  import opened FloodFill

  /** The board an array of squares currently holds. */
  function Snapshot(a: array2<Square>): (g: Board)
    reads a
    ensures |g| == a.Length0 && Rectangular(g) && (a.Length0 > 0 ==> Height(g) == a.Length1)
    ensures forall i, j :: 0 <= i < a.Length0 && 0 <= j < a.Length1 ==> InBounds(g, i, j) && g[i][j] == a[i, j]
    ensures forall i, j :: InBounds(g, i, j) ==> 0 <= i < a.Length0 && 0 <= j < a.Length1
  {
    seq(a.Length0, i requires 0 <= i < a.Length0 reads a => seq(a.Length1, j requires 0 <= j < a.Length1 reads a => a[i, j]))
  }

  /**
   * `generateMines`: keeps drawing a square until `count` of them have been
   * turned into mines. A drawn square that already holds a mine is rejected
   * and changes nothing, so every iteration that counts is modelled by the
   * choice of a square that holds none. Such a square exists while fewer
   * than all squares are mines; with more mines asked for than squares the
   * source never returns (`Grid.FullBoardAllMines`).
   */
  method GenerateMines(grid: array2<Square>, count: int)
    requires grid.Length0 > 0
    requires count <= 0 || MineCount(Snapshot(grid)) + count <= grid.Length0 * grid.Length1
    modifies grid
    ensures MineCount(Snapshot(grid)) == MineCount(old(Snapshot(grid))) + (if count > 0 then count else 0)
    ensures forall i, j :: 0 <= i < grid.Length0 && 0 <= j < grid.Length1 ==>
      grid[i, j] == old(grid[i, j]) || (!old(grid[i, j]).isMine && grid[i, j] == old(grid[i, j]).(isMine := true))
  {
    ghost var g0 := Snapshot(grid);
    var placed := 0;
    while placed < count
      invariant 0 <= placed && (count > 0 ==> placed <= count) && (count <= 0 ==> placed == 0)
      invariant MineCount(Snapshot(grid)) == MineCount(g0) + placed
      invariant forall i, j :: 0 <= i < grid.Length0 && 0 <= j < grid.Length1 ==>
        grid[i, j] == old(grid[i, j]) || (!old(grid[i, j]).isMine && grid[i, j] == old(grid[i, j]).(isMine := true))
      decreases count - placed
    {
      PlaceMine(grid);
      placed := placed + 1;
    }
  }

  /**
   * One iteration of the drawing loop that counts: a square that holds no
   * mine is drawn and becomes a mine.
   */
  method PlaceMine(grid: array2<Square>)
    requires grid.Length0 > 0 && MineCount(Snapshot(grid)) < grid.Length0 * grid.Length1
    modifies grid
    ensures MineCount(Snapshot(grid)) == MineCount(old(Snapshot(grid))) + 1
    ensures forall i, j :: 0 <= i < grid.Length0 && 0 <= j < grid.Length1 ==>
      grid[i, j] == old(grid[i, j]) || (!old(grid[i, j]).isMine && grid[i, j] == old(grid[i, j]).(isMine := true))
  {
    var x := grid.Length0;
    var y := grid.Length1;
    ghost var g := Snapshot(grid);
    ghost var fi, fj := UncountedSquare(g, IsMine, y);
    assert !grid[fi, fj].isMine;
    var mineX: int, mineY: int :| 0 <= mineX < x && 0 <= mineY < y && !grid[mineX, mineY].isMine;
    var s := grid[mineX, mineY].(isMine := true);
    grid[mineX, mineY] := s;
    SnapshotAfterWrite(grid, g, mineX, mineY, s);
    CountUpdate(g, mineX, mineY, s, IsMine);
  }

  /** After one square of `grid` is written, the array holds the board `g` with that square updated. */
  lemma SnapshotAfterWrite(grid: array2<Square>, g: Board, mx: int, my: int, s: Square)
    requires 0 <= mx < grid.Length0 && 0 <= my < grid.Length1
    requires |g| == grid.Length0 && forall i :: 0 <= i < |g| ==> |g[i]| == grid.Length1
    requires forall i, j :: 0 <= i < grid.Length0 && 0 <= j < grid.Length1 && (i != mx || j != my) ==> grid[i, j] == g[i][j]
    requires grid[mx, my] == s
    ensures Snapshot(grid) == g[mx := g[mx][my := s]]
  {
    var r := Snapshot(grid);
    forall i | 0 <= i < grid.Length0
      ensures r[i] == g[mx := g[mx][my := s]][i]
    {
    }
  }

  /**
   * `calculateSurrounding`: writes into every square the number of mines
   * among its in-bounds neighbours, itself excluded, and changes nothing else.
   */
  method CalculateSurrounding(grid: array2<Square>)
    requires grid.Length0 > 0
    modifies grid
    ensures Snapshot(grid) == WithNumbers(old(Snapshot(grid)))
  {
    ghost var g0 := Snapshot(grid);
    var x := grid.Length0;
    var y := grid.Length1;
    for currX := 0 to x
      invariant forall i, j :: 0 <= i < x && 0 <= j < y ==>
        grid[i, j] == (if i < currX then Numbered(g0, i, j) else g0[i][j])
    {
      for currY := 0 to y
        invariant forall i, j :: 0 <= i < x && 0 <= j < y ==>
          grid[i, j] == (if i < currX || (i == currX && j < currY) then Numbered(g0, i, j) else g0[i][j])
      {
        var number := NeighbourMines(grid, currX, currY, g0);
        grid[currX, currY] := grid[currX, currY].(number := number);
      }
    }
    ghost var r := Snapshot(grid);
    forall i | 0 <= i < x
      ensures r[i] == WithNumbers(g0)[i]
    {
    }
  }

  /**
   * The two inner loops of `calculateSurrounding`: the mines among the
   * in-bounds neighbours of (currX, currY). Only numbers have been written
   * so far, so the mines are still those of the board `g0` the pass began with.
   */
  method NeighbourMines(grid: array2<Square>, currX: int, currY: int, ghost g0: Board) returns (number: int)
    requires |g0| == grid.Length0 && forall i :: 0 <= i < |g0| ==> |g0[i]| == grid.Length1
    requires forall i, j :: 0 <= i < grid.Length0 && 0 <= j < grid.Length1 ==> grid[i, j].isMine == g0[i][j].isMine
    ensures number == AdjacentMines(g0, currX, currY)
  {
    var x := grid.Length0;
    var y := grid.Length1;
    number := 0;
    for adjX := -1 to 2
      invariant number == AroundHits(g0, currX, currY, adjX + 1)
    {
      for adjY := -1 to 2
        invariant number == AroundHits(g0, currX, currY, adjX + 1) + ColumnHits(g0, currX, currY, adjX, adjY + 1)
      {
        if adjX == 0 && adjY == 0 {
          continue;
        }
        var checkX := adjX + currX;
        var checkY := adjY + currY;
        if 0 <= checkX < x && 0 <= checkY < y && grid[checkX, checkY].isMine {
          number := number + 1;
        }
      }
    }
  }

  /**
   * `generateGrid`: x columns of y fresh squares, `count` mines placed among
   * them and every number computed. Fewer than one column fails in the
   * source when the row count is read from the first column.
   */
  method GenerateGrid(x: int, y: int, count: int) returns (g: Board)
    requires x > 0 && y >= 0 && count <= x * y
    ensures |g| == x && Rectangular(g) && Height(g) == y
    ensures MineCount(g) == if count > 0 then count else 0
    ensures ConsistentNumbers(g)
    ensures forall i, j :: InBounds(g, i, j) ==> !g[i][j].isClicked && !g[i][j].isFlagged
  {
    var grid := MinedGrid(x, y, count);
    ghost var mined := Snapshot(grid);
    CalculateSurrounding(grid);
    g := Snapshot(grid);
    FreshNumbered(mined, g);
  }

  /** The first half of `generateGrid`: fresh squares, then `count` of them made mines. */
  method MinedGrid(x: int, y: int, count: int) returns (grid: array2<Square>)
    requires x > 0 && y >= 0 && count <= x * y
    ensures fresh(grid) && grid.Length0 == x && grid.Length1 == y
    ensures MineCount(Snapshot(grid)) == if count > 0 then count else 0
    ensures forall i, j :: InBounds(Snapshot(grid), i, j) ==> !Snapshot(grid)[i][j].isClicked && !Snapshot(grid)[i][j].isFlagged
  {
    grid := new Square[x, y]((i, j) => DefaultSquare());
    CountNone(Snapshot(grid), IsMine);
    GenerateMines(grid, count);
  }

  /** Numbering a board of hidden, unflagged squares keeps its shape, its mines and its hidden squares. */
  lemma FreshNumbered(mined: Board, g: Board)
    requires Rectangular(mined) && g == WithNumbers(mined)
    requires forall i, j :: InBounds(mined, i, j) ==> !mined[i][j].isClicked && !mined[i][j].isFlagged
    ensures |g| == |mined| && Rectangular(g) && Height(g) == Height(mined)
    ensures MineCount(g) == MineCount(mined) && ConsistentNumbers(g)
    ensures forall i, j :: InBounds(g, i, j) ==> !g[i][j].isClicked && !g[i][j].isFlagged
  {
    MineCountSameMines(mined, g);
    forall i, j | InBounds(g, i, j)
      ensures !g[i][j].isClicked && !g[i][j].isFlagged
    {
      assert InBounds(mined, i, j);
    }
  }

  /** Boards with the same mines have the same number of them. */
  lemma MineCountSameMines(g: Board, h: Board)
    requires SameMines(g, h)
    ensures MineCount(g) == MineCount(h)
  {
    CountSameMines(g, h);
  }

  lemma {:induction false} CountSameMines(g: Board, h: Board)
    requires SameMines(g, h)
    ensures Count(g, IsMine) == Count(h, IsMine)
    decreases |g|
  {
    if g != [] {
      var n := |g| - 1;
      assert SameMines(g[..n], h[..n]) by {
        forall i, j | InBounds(g[..n], i, j)
          ensures g[..n][i][j].isMine == h[..n][i][j].isMine
        {
          assert InBounds(g, i, j);
        }
      }
      CountSameMines(g[..n], h[..n]);
      ColumnCountSameMines(g[n], h[n]);
    }
  }

  lemma {:induction false} ColumnCountSameMines(c: seq<Square>, d: seq<Square>)
    requires |c| == |d| && forall j :: 0 <= j < |c| ==> c[j].isMine == d[j].isMine
    ensures ColumnCount(c, IsMine) == ColumnCount(d, IsMine)
    decreases |c|
  {
    if c != [] {
      ColumnCountSameMines(c[..|c| - 1], d[..|d| - 1]);
    }
  }

  /**
   * `revealSquares` with its loops: the copy with (x, y) revealed, then, when
   * no mine is adjacent, a recursive reveal of each of the eight neighbours.
   * The range test on y reads the length of the first column, as the source
   * does; on a rectangular board that is the length of every column.
   */
  method RevealSquares(original: Board, x: int, y: int) returns (updated: Board)
    requires Rectangular(original)
    ensures updated == Reveal(original, x, y)
    decreases HiddenCount(original), 1
  {
    if x < 0 || x >= |original| || y < 0 || y >= |original[0]| {
      return original;
    }
    if original[x][y].isClicked || original[x][y].isFlagged {
      return original;
    }
    updated := MarkClicked(original, x, y);
    ghost var u := updated;
    MarkClickedFacts(original, x, y);
    if updated[x][y].number > 0 {
      return;
    }
    RevealUnfold(original, x, y);
    for adjX := -1 to 2
      invariant updated == Cascade(u, x, y, adjX + 1)
      invariant Rectangular(updated) && HiddenCount(updated) < HiddenCount(original)
    {
      updated := RevealColumn(updated, x, y, adjX, HiddenCount(original));
      CascadeUnfold(u, x, y, adjX + 2);
    }
  }

  /**
   * The inner neighbour loop of `revealSquares` for column offset adjX,
   * skipping the clicked square itself. `bound` is the hidden count of the
   * board the enclosing reveal started from, which bounds the recursion.
   */
  method RevealColumn(start: Board, x: int, y: int, adjX: int, ghost bound: nat) returns (updated: Board)
    requires Rectangular(start) && HiddenCount(start) < bound
    ensures updated == CascadeColumn(start, x, y, adjX, 3)
    decreases bound, 0
  {
    updated := start;
    for adjY := -1 to 2
      invariant updated == CascadeColumn(start, x, y, adjX, adjY + 1)
      invariant Rectangular(updated) && HiddenCount(updated) < bound
    {
      if adjX == 0 && adjY == 0 {
        CascadeColumnSkip(start, x, y);
        continue;
      }
      CascadeColumnStep(start, x, y, adjX, adjY + 2);
      updated := RevealSquares(updated, x + adjX, y + adjY);
    }
  }
}
