/**
 * The minefield as a value: a list of columns, each a list of squares, so
 * that `g[x][y]` is the square in column x and row y. Counting, adjacency and
 * the adjacent-mine numbers are defined here once and used by generation,
 * the flood fill and the game session.
 */
module Grid {
  import opened DataManagement

  type Board = seq<seq<Square>>

  /** The length of the first column: how the source reads the row count (`grid[0].size`). */
  function Height(g: Board): nat {
    if |g| == 0 then 0 else |g[0]|
  }

  predicate Rectangular(g: Board) {
    forall i :: 0 <= i < |g| ==> |g[i]| == Height(g)
  }

  predicate InBounds(g: Board, x: int, y: int) {
    0 <= x < |g| && 0 <= y < |g[x]|
  }

  predicate SameShape(g: Board, h: Board) {
    |g| == |h| && forall i :: 0 <= i < |g| ==> |g[i]| == |h[i]|
  }

  /** (i, j) is one of the up to eight king-move neighbours of (x, y). */
  predicate Adjacent(i: int, j: int, x: int, y: int) {
    x - 1 <= i <= x + 1 && y - 1 <= j <= y + 1 && (i != x || j != y)
  }

  predicate IsMine(s: Square) {
    s.isMine
  }

  predicate IsHidden(s: Square) {
    !s.isClicked
  }

  // ---------------------------------------------------------------- counting

  function ColumnCount(c: seq<Square>, p: Square -> bool): nat
    decreases |c|
  {
    if c == [] then 0 else ColumnCount(c[..|c| - 1], p) + (if p(c[|c| - 1]) then 1 else 0)
  }

  /** The number of squares of `g` satisfying `p`. */
  function Count(g: Board, p: Square -> bool): nat
    decreases |g|
  {
    if g == [] then 0 else Count(g[..|g| - 1], p) + ColumnCount(g[|g| - 1], p)
  }

  function MineCount(g: Board): nat {
    Count(g, IsMine)
  }

  function HiddenCount(g: Board): nat {
    Count(g, IsHidden)
  }

  lemma {:induction false} ColumnCountUpdate(c: seq<Square>, j: nat, s: Square, p: Square -> bool)
    requires j < |c|
    ensures ColumnCount(c[j := s], p) == ColumnCount(c, p) - (if p(c[j]) then 1 else 0) + (if p(s) then 1 else 0)
    decreases |c|
  {
    var n := |c| - 1;
    if j < n {
      assert c[j := s][..n] == c[..n][j := s];
      ColumnCountUpdate(c[..n], j, s, p);
    } else {
      assert c[j := s][..n] == c[..n];
    }
  }

  lemma {:induction false} CountColumnUpdate(g: Board, i: nat, c: seq<Square>, p: Square -> bool)
    requires i < |g|
    ensures Count(g[i := c], p) == Count(g, p) - ColumnCount(g[i], p) + ColumnCount(c, p)
    decreases |g|
  {
    var n := |g| - 1;
    if i < n {
      assert g[i := c][..n] == g[..n][i := c];
      CountColumnUpdate(g[..n], i, c, p);
    } else {
      assert g[i := c][..n] == g[..n];
    }
  }

  /** Replacing one square changes the count by at most that square's contribution. */
  lemma CountUpdate(g: Board, i: int, j: int, s: Square, p: Square -> bool)
    requires InBounds(g, i, j)
    ensures Count(g[i := g[i][j := s]], p) == Count(g, p) - (if p(g[i][j]) then 1 else 0) + (if p(s) then 1 else 0)
  {
    ColumnCountUpdate(g[i], j, s, p);
    CountColumnUpdate(g, i, g[i][j := s], p);
  }

  lemma {:induction false} ColumnCountAtMost(c: seq<Square>, p: Square -> bool)
    ensures ColumnCount(c, p) <= |c|
    decreases |c|
  {
    if c != [] {
      ColumnCountAtMost(c[..|c| - 1], p);
    }
  }

  lemma {:induction false} ColumnCountBelow(c: seq<Square>, p: Square -> bool, j: nat)
    requires j < |c| && !p(c[j])
    ensures ColumnCount(c, p) < |c|
    decreases |c|
  {
    var n := |c| - 1;
    if j < n {
      ColumnCountBelow(c[..n], p, j);
    } else {
      ColumnCountAtMost(c[..n], p);
    }
  }

  lemma {:induction false} CountAtMost(g: Board, p: Square -> bool, h: nat)
    requires forall i :: 0 <= i < |g| ==> |g[i]| == h
    ensures Count(g, p) <= |g| * h
    decreases |g|
  {
    if g != [] {
      var n := |g| - 1;
      CountAtMost(g[..n], p, h);
      ColumnCountAtMost(g[n], p);
      assert |g| * h == n * h + h;
    }
  }

  /** A square without `p` keeps the count strictly below the number of squares. */
  lemma {:induction false} CountBelow(g: Board, p: Square -> bool, h: nat, i: nat, j: nat)
    requires forall k :: 0 <= k < |g| ==> |g[k]| == h
    requires i < |g| && j < h && !p(g[i][j])
    ensures Count(g, p) < |g| * h
    decreases |g|
  {
    var n := |g| - 1;
    assert |g| * h == n * h + h;
    if i < n {
      CountBelow(g[..n], p, h, i, j);
      ColumnCountAtMost(g[n], p);
    } else {
      CountAtMost(g[..n], p, h);
      ColumnCountBelow(g[n], p, j);
    }
  }

  /** A count below the number of squares has a square without `p` to show for it. */
  lemma {:induction false} UncountedSquare(g: Board, p: Square -> bool, h: nat) returns (i: nat, j: nat)
    requires forall k :: 0 <= k < |g| ==> |g[k]| == h
    requires Count(g, p) < |g| * h
    ensures i < |g| && j < h && !p(g[i][j])
    decreases |g|
  {
    var n := |g| - 1;
    assert |g| * h == n * h + h;
    if ColumnCount(g[n], p) < h {
      j := UncountedInColumn(g[n], p);
      i := n;
    } else {
      i, j := UncountedSquare(g[..n], p, h);
    }
  }

  lemma {:induction false} UncountedInColumn(c: seq<Square>, p: Square -> bool) returns (j: nat)
    requires ColumnCount(c, p) < |c|
    ensures j < |c| && !p(c[j])
    decreases |c|
  {
    var n := |c| - 1;
    if p(c[n]) {
      j := UncountedInColumn(c[..n], p);
    } else {
      j := n;
    }
  }

  lemma {:induction false} CountNone(g: Board, p: Square -> bool)
    requires forall i, j :: InBounds(g, i, j) ==> !p(g[i][j])
    ensures Count(g, p) == 0
    decreases |g|
  {
    if g != [] {
      var n := |g| - 1;
      assert forall i, j :: InBounds(g[..n], i, j) ==> InBounds(g, i, j);
      CountNone(g[..n], p);
      ColumnCountNone(g[n], p);
    }
  }

  lemma {:induction false} ColumnCountNone(c: seq<Square>, p: Square -> bool)
    requires forall j :: 0 <= j < |c| ==> !p(c[j])
    ensures ColumnCount(c, p) == 0
    decreases |c|
  {
    if c != [] {
      ColumnCountNone(c[..|c| - 1], p);
    }
  }

  /**
   * A board that holds as many mines as squares is all mines: no random draw
   * can then be accepted, so placing a further mine never ends.
   */
  lemma FullBoardAllMines(g: Board)
    requires Rectangular(g) && MineCount(g) == |g| * Height(g)
    ensures forall i, j :: InBounds(g, i, j) ==> g[i][j].isMine
  {
    forall i, j | InBounds(g, i, j)
      ensures g[i][j].isMine
    {
      if !g[i][j].isMine {
        CountBelow(g, IsMine, Height(g), i, j);
      }
    }
  }

  // ---------------------------------------------------------- adjacent mines

  /** 1 when (x+dx, y+dy) is an in-bounds mine other than (x, y) itself, as the source's inner test. */
  function Hit(g: Board, x: int, y: int, dx: int, dy: int): nat {
    if (dx == 0 && dy == 0) || !InBounds(g, x + dx, y + dy) || !g[x + dx][y + dy].isMine then 0 else 1
  }

  /** Hits at offsets dx, dy for dy from -1 up to but excluding n - 1. */
  function ColumnHits(g: Board, x: int, y: int, dx: int, n: nat): nat
    requires n <= 3
  {
    if n == 0 then 0 else ColumnHits(g, x, y, dx, n - 1) + Hit(g, x, y, dx, n - 2)
  }

  /** Hits over all dy at offsets dx from -1 up to but excluding m - 1. */
  function AroundHits(g: Board, x: int, y: int, m: nat): nat
    requires m <= 3
  {
    if m == 0 then 0 else AroundHits(g, x, y, m - 1) + ColumnHits(g, x, y, m - 2, 3)
  }

  /** The number the source computes for (x, y): mines among its in-bounds neighbours, itself excluded. */
  function AdjacentMines(g: Board, x: int, y: int): nat {
    AroundHits(g, x, y, 3)
  }

  /** At most eight neighbours, so at most eight adjacent mines. */
  lemma AdjacentMinesAtMostEight(g: Board, x: int, y: int)
    ensures AdjacentMines(g, x, y) <= 8
  {
    AdjacentMinesExpand(g, x, y);
    ColumnHitsExpand(g, x, y, -1);
    ColumnHitsExpand(g, x, y, 0);
    ColumnHitsExpand(g, x, y, 1);
  }

  lemma AdjacentMinesExpand(g: Board, x: int, y: int)
    ensures AdjacentMines(g, x, y) == ColumnHits(g, x, y, -1, 3) + ColumnHits(g, x, y, 0, 3) + ColumnHits(g, x, y, 1, 3)
  {
    assert AroundHits(g, x, y, 1) == ColumnHits(g, x, y, -1, 3);
    assert AroundHits(g, x, y, 2) == AroundHits(g, x, y, 1) + ColumnHits(g, x, y, 0, 3);
  }

  lemma ColumnHitsExpand(g: Board, x: int, y: int, dx: int)
    ensures ColumnHits(g, x, y, dx, 3) == Hit(g, x, y, dx, -1) + Hit(g, x, y, dx, 0) + Hit(g, x, y, dx, 1)
  {
    assert ColumnHits(g, x, y, dx, 1) == Hit(g, x, y, dx, -1);
    assert ColumnHits(g, x, y, dx, 2) == ColumnHits(g, x, y, dx, 1) + Hit(g, x, y, dx, 0);
  }

  lemma {:induction false} HitInColumn(g: Board, x: int, y: int, dx: int, dy: int, n: nat)
    requires n <= 3 && -1 <= dy <= n - 2
    ensures Hit(g, x, y, dx, dy) <= ColumnHits(g, x, y, dx, n)
  {
    if dy < n - 2 {
      HitInColumn(g, x, y, dx, dy, n - 1);
    }
  }

  lemma {:induction false} ColumnInAround(g: Board, x: int, y: int, dx: int, m: nat)
    requires m <= 3 && -1 <= dx <= m - 2
    ensures ColumnHits(g, x, y, dx, 3) <= AroundHits(g, x, y, m)
  {
    if dx < m - 2 {
      ColumnInAround(g, x, y, dx, m - 1);
    }
  }

  /** Mining the square (i, j) adds one hit exactly at its own offset from (x, y). */
  lemma HitAfterMining(g: Board, s: Square, x: int, y: int, i: int, j: int, dx: int, dy: int)
    requires Adjacent(i, j, x, y) && InBounds(g, i, j) && !g[i][j].isMine && s.isMine
    ensures Hit(g[i := g[i][j := s]], x, y, dx, dy) == Hit(g, x, y, dx, dy) + (if x + dx == i && y + dy == j then 1 else 0)
  {
    var h := g[i := g[i][j := s]];
    assert InBounds(h, x + dx, y + dy) == InBounds(g, x + dx, y + dy);
    if (x + dx != i || y + dy != j) && InBounds(g, x + dx, y + dy) {
      assert h[x + dx][y + dy] == g[x + dx][y + dy];
    }
  }

  /**
   * Each in-bounds mine next to (x, y) counts exactly once: mining one
   * unmined neighbour raises the number by one.
   */
  lemma MiningNeighbourAddsOne(g: Board, s: Square, x: int, y: int, i: int, j: int)
    requires Adjacent(i, j, x, y) && InBounds(g, i, j) && !g[i][j].isMine && s.isMine
    ensures AdjacentMines(g[i := g[i][j := s]], x, y) == AdjacentMines(g, x, y) + 1
  {
    var h := g[i := g[i][j := s]];
    AdjacentMinesExpand(g, x, y);
    AdjacentMinesExpand(h, x, y);
    ColumnHitsExpand(g, x, y, -1);
    ColumnHitsExpand(g, x, y, 0);
    ColumnHitsExpand(g, x, y, 1);
    ColumnHitsExpand(h, x, y, -1);
    ColumnHitsExpand(h, x, y, 0);
    ColumnHitsExpand(h, x, y, 1);
    forall dx, dy | -1 <= dx <= 1 && -1 <= dy <= 1
      ensures Hit(h, x, y, dx, dy) == Hit(g, x, y, dx, dy) + (if x + dx == i && y + dy == j then 1 else 0)
    {
      HitAfterMining(g, s, x, y, i, j, dx, dy);
    }
  }

  /** A square with an in-bounds mine among its neighbours has a number of at least one. */
  lemma NeighbourMineCounted(g: Board, x: int, y: int, i: int, j: int)
    requires Adjacent(i, j, x, y) && InBounds(g, i, j) && g[i][j].isMine
    ensures AdjacentMines(g, x, y) >= 1
  {
    HitInColumn(g, x, y, i - x, j - y, 3);
    ColumnInAround(g, x, y, i - x, 3);
  }

  /** Two boards that agree on which neighbours of (x, y) are in-bounds mines. */
  ghost predicate MinesAgreeAround(g: Board, h: Board, x: int, y: int) {
    forall i, j :: Adjacent(i, j, x, y) ==> (InBounds(g, i, j) && g[i][j].isMine) == (InBounds(h, i, j) && h[i][j].isMine)
  }

  lemma {:induction false} ColumnHitsAgree(g: Board, h: Board, x: int, y: int, dx: int, n: nat)
    requires n <= 3 && -1 <= dx <= 1 && MinesAgreeAround(g, h, x, y)
    ensures ColumnHits(g, x, y, dx, n) == ColumnHits(h, x, y, dx, n)
  {
    if n > 0 {
      ColumnHitsAgree(g, h, x, y, dx, n - 1);
      var dy := n - 2;
      if dx != 0 || dy != 0 {
        assert Adjacent(x + dx, y + dy, x, y);
      }
    }
  }

  /** The number of (x, y) depends only on the mines around it, not on (x, y) itself. */
  lemma AdjacentMinesLocal(g: Board, h: Board, x: int, y: int)
    requires MinesAgreeAround(g, h, x, y)
    ensures AdjacentMines(g, x, y) == AdjacentMines(h, x, y)
  {
    AdjacentMinesExpand(g, x, y);
    AdjacentMinesExpand(h, x, y);
    ColumnHitsAgree(g, h, x, y, -1, 3);
    ColumnHitsAgree(g, h, x, y, 0, 3);
    ColumnHitsAgree(g, h, x, y, 1, 3);
  }

  ghost predicate SameMines(g: Board, h: Board) {
    SameShape(g, h) && forall i, j :: InBounds(g, i, j) ==> g[i][j].isMine == h[i][j].isMine
  }

  lemma SameMinesSameNumbers(g: Board, h: Board)
    requires SameMines(g, h)
    ensures forall x, y :: AdjacentMines(g, x, y) == AdjacentMines(h, x, y)
  {
    forall x, y
      ensures AdjacentMines(g, x, y) == AdjacentMines(h, x, y)
    {
      AdjacentMinesLocal(g, h, x, y);
    }
  }

  /** Every square's number is the count of mines next to it. */
  ghost predicate ConsistentNumbers(g: Board) {
    forall i, j :: InBounds(g, i, j) ==> g[i][j].number == AdjacentMines(g, i, j)
  }

  /** Boards with the same mines and the same numbers are consistent together. */
  lemma ConsistentNumbersKept(g: Board, h: Board)
    requires ConsistentNumbers(g) && SameMines(g, h)
    requires forall i, j :: InBounds(g, i, j) ==> g[i][j].number == h[i][j].number
    ensures ConsistentNumbers(h)
  {
    SameMinesSameNumbers(g, h);
  }

  /** Numbers are counts of mines, never negative. */
  lemma ConsistentNumbersNonNegative(g: Board, i: int, j: int)
    requires ConsistentNumbers(g) && InBounds(g, i, j)
    ensures 0 <= g[i][j].number <= 8
  {
    AdjacentMinesAtMostEight(g, i, j);
  }

  /** A square whose number is 0 on a consistent board has no mine next to it. */
  lemma ZeroHasNoMineNeighbour(g: Board, x: int, y: int, i: int, j: int)
    requires ConsistentNumbers(g) && InBounds(g, x, y) && g[x][y].number == 0
    requires Adjacent(i, j, x, y) && InBounds(g, i, j)
    ensures !g[i][j].isMine
  {
    if g[i][j].isMine {
      NeighbourMineCounted(g, x, y, i, j);
    }
  }

  function Numbered(g: Board, i: int, j: int): Square
    requires InBounds(g, i, j)
  {
    g[i][j].(number := AdjacentMines(g, i, j))
  }

  /** What `calculateSurrounding` makes of a board: every number recomputed, all else kept. */
  function WithNumbers(g: Board): (r: Board)
    ensures SameMines(g, r) && ConsistentNumbers(r)
    ensures forall i, j :: InBounds(g, i, j) ==> r[i][j] == g[i][j].(number := AdjacentMines(g, i, j))
  {
    var r := seq(|g|, i requires 0 <= i < |g| => seq(|g[i]|, j requires 0 <= j < |g[i]| => Numbered(g, i, j)));
    SameMinesSameNumbers(g, r);
    r
  }

  /** A board whose numbers are consistent is left as it is by recomputing them. */
  lemma WithNumbersOfConsistent(g: Board)
    requires ConsistentNumbers(g)
    ensures WithNumbers(g) == g
  {
    var r := WithNumbers(g);
    forall i | 0 <= i < |g|
      ensures r[i] == g[i]
    {
    }
  }

  /** Computing the numbers twice gives the board of computing them once. */
  lemma WithNumbersIdempotent(g: Board)
    ensures WithNumbers(WithNumbers(g)) == WithNumbers(g)
  {
    WithNumbersOfConsistent(WithNumbers(g));
  }

  /** No square is both revealed and flagged. */
  ghost predicate NoClickedFlag(g: Board) {
    forall i, j :: InBounds(g, i, j) ==> !(g[i][j].isClicked && g[i][j].isFlagged)
  }

  /** No mine has been revealed. */
  ghost predicate NoMineClicked(g: Board) {
    forall i, j :: InBounds(g, i, j) && g[i][j].isClicked ==> !g[i][j].isMine
  }

  /** The win condition: every square that is not a mine has been revealed. */
  ghost predicate Cleared(g: Board) {
    forall i, j :: InBounds(g, i, j) ==> g[i][j].isMine || g[i][j].isClicked
  }

  /**
   * The copy `onClickHold` makes: the flag of (x, y) flipped, every other
   * square shared with `g`.
   */
  function WithFlagToggled(g: Board, x: int, y: int): (r: Board)
    requires InBounds(g, x, y)
    ensures SameShape(g, r) && r[x][y] == g[x][y].(isFlagged := !g[x][y].isFlagged)
    ensures forall i, j :: InBounds(g, i, j) && (i != x || j != y) ==> r[i][j] == g[i][j]
  {
    g[x := g[x][y := g[x][y].(isFlagged := !g[x][y].isFlagged)]]
  }

  /** Flagging or unflagging a hidden square keeps every board fact the session relies on. */
  lemma ToggleKeepsBoardFacts(g: Board, x: int, y: int)
    requires Rectangular(g) && InBounds(g, x, y) && !g[x][y].isClicked
    ensures Rectangular(WithFlagToggled(g, x, y))
    ensures ConsistentNumbers(g) ==> ConsistentNumbers(WithFlagToggled(g, x, y))
    ensures NoClickedFlag(g) ==> NoClickedFlag(WithFlagToggled(g, x, y))
    ensures NoMineClicked(g) ==> NoMineClicked(WithFlagToggled(g, x, y))
    ensures Cleared(g) ==> Cleared(WithFlagToggled(g, x, y))
  {
    var r := WithFlagToggled(g, x, y);
    assert forall i, j :: InBounds(r, i, j) ==> InBounds(g, i, j) && r[i][j] == g[i][j].(isFlagged := r[i][j].isFlagged);
    if ConsistentNumbers(g) {
      ConsistentNumbersKept(g, r);
    }
  }

  /** Toggling a flag twice restores the board. */
  lemma ToggleTwiceRestores(g: Board, x: int, y: int)
    requires InBounds(g, x, y)
    ensures WithFlagToggled(WithFlagToggled(g, x, y), x, y) == g
  {
    var r := WithFlagToggled(WithFlagToggled(g, x, y), x, y);
    assert r[x] == g[x];
  }
}
