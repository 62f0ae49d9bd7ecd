/**
 * The recursive reveal of `revealSquares` as a function on boards. `Cascade`
 * and `CascadeColumn` are the two nested neighbour loops of the source
 * written as left folds: `Cascade(g, x, y, m)` has run the outer loop for
 * offsets dx = -1 .. m - 2, `CascadeColumn(g, x, y, dx, n)` the inner loop
 * of column dx for offsets dy = -1 .. n - 2. Every non-trivial reveal turns
 * one hidden square into a revealed one, which is what bounds the recursion.
 */
module FloodFill {
  import opened DataManagement
  import opened Grid

  /** The guards of `revealSquares`: in range, not yet revealed, not flagged. */
  predicate Revealable(g: Board, x: int, y: int) {
    InBounds(g, x, y) && !g[x][y].isClicked && !g[x][y].isFlagged
  }

  /** The copy of `g` with (x, y) revealed and every other square shared. */
  function MarkClicked(g: Board, x: int, y: int): Board
    requires InBounds(g, x, y)
  {
    g[x := g[x][y := g[x][y].(isClicked := true)]]
  }

  /**
   * How a square may change under revealing: it keeps its mine, flag and
   * number, stays revealed once revealed, and becomes revealed only if it
   * was not flagged.
   */
  predicate CellStep(a: Square, b: Square) {
    b.isMine == a.isMine && b.isFlagged == a.isFlagged && b.number == a.number
    && (a.isClicked ==> b.isClicked)
    && (b.isClicked && !a.isClicked ==> !a.isFlagged)
  }

  ghost predicate RevealsOnly(g: Board, r: Board) {
    SameShape(g, r) && forall i, j {:trigger InBounds(g, i, j)} :: InBounds(g, i, j) ==> CellStep(g[i][j], r[i][j])
  }

  lemma RevealsOnlyTransitive(a: Board, b: Board, c: Board)
    requires RevealsOnly(a, b) && RevealsOnly(b, c)
    ensures RevealsOnly(a, c)
  {
    forall i, j | InBounds(a, i, j)
      ensures CellStep(a[i][j], c[i][j])
    {
      assert InBounds(b, i, j);
    }
  }

  /** Revealing (x, y) alone: one hidden square fewer, nothing else changed. */
  lemma MarkClickedFacts(g: Board, x: int, y: int)
    requires Rectangular(g) && Revealable(g, x, y)
    ensures Rectangular(MarkClicked(g, x, y)) && RevealsOnly(g, MarkClicked(g, x, y))
    ensures HiddenCount(MarkClicked(g, x, y)) == HiddenCount(g) - 1
  {
    CountUpdate(g, x, y, g[x][y].(isClicked := true), IsHidden);
  }

  /** `revealSquares(g, x, y)`. */
  function Reveal(g: Board, x: int, y: int): (r: Board)
    requires Rectangular(g)
    ensures Rectangular(r) && RevealsOnly(g, r) && HiddenCount(r) <= HiddenCount(g)
    ensures !Revealable(g, x, y) ==> r == g
    ensures Revealable(g, x, y) ==> r[x][y] == g[x][y].(isClicked := true) && HiddenCount(r) < HiddenCount(g)
    ensures Revealable(g, x, y) && g[x][y].number > 0 ==> r == MarkClicked(g, x, y)
    ensures InBounds(g, x, y) ==> r[x][y].isClicked || r[x][y].isFlagged
    decreases HiddenCount(g), 0
  {
    if !Revealable(g, x, y) then g
    else
      var u: Board := MarkClicked(g, x, y);
      MarkClickedFacts(g, x, y);
      if u[x][y].number > 0 then u
      else
        var c := Cascade(u, x, y, 3);
        RevealsOnlyTransitive(g, u, c);
        assert InBounds(u, x, y);
        c
  }

  /** The outer neighbour loop after the columns dx = -1 .. m - 2. */
  function Cascade(g: Board, x: int, y: int, m: nat): (r: Board)
    requires Rectangular(g) && m <= 3
    ensures Rectangular(r) && RevealsOnly(g, r) && HiddenCount(r) <= HiddenCount(g)
    decreases HiddenCount(g), 2, m
  {
    if m == 0 then g
    else
      var h := Cascade(g, x, y, m - 1);
      var r := CascadeColumn(h, x, y, m - 2, 3);
      RevealsOnlyTransitive(g, h, r);
      r
  }

  /** The inner neighbour loop of column dx after the rows dy = -1 .. n - 2, skipping the centre. */
  function CascadeColumn(g: Board, x: int, y: int, dx: int, n: nat): (r: Board)
    requires Rectangular(g) && n <= 3
    ensures Rectangular(r) && RevealsOnly(g, r) && HiddenCount(r) <= HiddenCount(g)
    decreases HiddenCount(g), 1, n
  {
    if n == 0 then g
    else
      var h := CascadeColumn(g, x, y, dx, n - 1);
      if dx == 0 && n - 2 == 0 then h
      else
        var r := Reveal(h, x + dx, y + n - 2);
        RevealsOnlyTransitive(g, h, r);
        r
  }

  lemma CascadeUnfold(g: Board, x: int, y: int, m: nat)
    requires Rectangular(g) && 0 < m <= 3
    ensures Cascade(g, x, y, m) == CascadeColumn(Cascade(g, x, y, m - 1), x, y, m - 2, 3)
  {
  }

  lemma CascadeColumnSkip(g: Board, x: int, y: int)
    requires Rectangular(g)
    ensures CascadeColumn(g, x, y, 0, 2) == CascadeColumn(g, x, y, 0, 1)
  {
  }

  lemma CascadeColumnStep(g: Board, x: int, y: int, dx: int, n: nat)
    requires Rectangular(g) && 0 < n <= 3 && (dx != 0 || n != 2)
    ensures CascadeColumn(g, x, y, dx, n) == Reveal(CascadeColumn(g, x, y, dx, n - 1), x + dx, y + n - 2)
  {
  }

  lemma RevealUnfold(g: Board, x: int, y: int)
    requires Rectangular(g) && Revealable(g, x, y) && g[x][y].number <= 0
    ensures Reveal(g, x, y) == Cascade(MarkClicked(g, x, y), x, y, 3)
  {
  }

  /** Revealing the same square again changes nothing. */
  lemma RevealIdempotent(g: Board, x: int, y: int)
    requires Rectangular(g)
    ensures Reveal(Reveal(g, x, y), x, y) == Reveal(g, x, y)
  {
    var r := Reveal(g, x, y);
    assert !Revealable(r, x, y);
  }

  // ------------------------------------------------ what the cascade reveals

  ghost predicate NewlyRevealed(g: Board, r: Board, i: int, j: int) {
    InBounds(g, i, j) && InBounds(r, i, j) && !g[i][j].isClicked && r[i][j].isClicked
  }

  /** Some square next to (i, j) is revealed and shows no adjacent mine. */
  ghost predicate ZeroNeighbourRevealed(r: Board, i: int, j: int) {
    exists a, b :: Adjacent(a, b, i, j) && InBounds(r, a, b) && r[a][b].isClicked && r[a][b].number <= 0
  }

  /** Every square next to (i, j) is revealed or flagged. */
  ghost predicate Surrounded(r: Board, i: int, j: int) {
    forall a, b :: Adjacent(a, b, i, j) ==> Settled(r, a, b)
  }

  /** Every square revealed on the way from g to r has a revealed zero next to it. */
  ghost predicate Supported(g: Board, r: Board) {
    forall i, j :: NewlyRevealed(g, r, i, j) ==> ZeroNeighbourRevealed(r, i, j)
  }

  /** Every zero revealed on the way from g to r has had all its neighbours revealed (or found flagged). */
  ghost predicate Closed(g: Board, r: Board) {
    forall i, j {:trigger NewlyRevealed(g, r, i, j)} :: NewlyRevealed(g, r, i, j) && r[i][j].number <= 0 ==> Surrounded(r, i, j)
  }

  lemma SupportPersists(r: Board, s: Board, i: int, j: int)
    requires RevealsOnly(r, s) && ZeroNeighbourRevealed(r, i, j)
    ensures ZeroNeighbourRevealed(s, i, j)
  {
    var a, b :| Adjacent(a, b, i, j) && InBounds(r, a, b) && r[a][b].isClicked && r[a][b].number <= 0;
    assert InBounds(s, a, b) && s[a][b].isClicked && s[a][b].number <= 0;
  }

  lemma SurroundPersists(r: Board, s: Board, i: int, j: int)
    requires RevealsOnly(r, s) && Surrounded(r, i, j)
    ensures Surrounded(s, i, j)
  {
    forall a, b | Adjacent(a, b, i, j)
      ensures Settled(s, a, b)
    {
      SettledPersists(r, s, a, b);
    }
  }

  lemma SupportedCompose(g: Board, h: Board, c: Board)
    requires RevealsOnly(g, h) && RevealsOnly(h, c) && Supported(g, h) && Supported(h, c)
    ensures Supported(g, c)
  {
    forall i, j | NewlyRevealed(g, c, i, j)
      ensures ZeroNeighbourRevealed(c, i, j)
    {
      if h[i][j].isClicked {
        assert NewlyRevealed(g, h, i, j);
        SupportPersists(h, c, i, j);
      } else {
        assert NewlyRevealed(h, c, i, j);
      }
    }
  }

  lemma ClosedCompose(g: Board, h: Board, c: Board)
    requires RevealsOnly(g, h) && RevealsOnly(h, c) && Closed(g, h) && Closed(h, c)
    ensures Closed(g, c)
  {
    forall i, j | NewlyRevealed(g, c, i, j) && c[i][j].number <= 0
      ensures Surrounded(c, i, j)
    {
      if h[i][j].isClicked {
        assert NewlyRevealed(g, h, i, j);
        SurroundPersists(h, c, i, j);
      } else {
        assert NewlyRevealed(h, c, i, j);
      }
    }
  }

  /** What holds after revealing (x, y) and cascading to `c` holds for every square but (x, y). */
  lemma MarkedSupport(g: Board, c: Board, x: int, y: int)
    requires Rectangular(g) && Revealable(g, x, y)
    requires RevealsOnly(MarkClicked(g, x, y), c) && Supported(MarkClicked(g, x, y), c)
    ensures forall i, j :: NewlyRevealed(g, c, i, j) && (i != x || j != y) ==> ZeroNeighbourRevealed(c, i, j)
  {
    var u := MarkClicked(g, x, y);
    forall i, j | NewlyRevealed(g, c, i, j) && (i != x || j != y)
      ensures ZeroNeighbourRevealed(c, i, j)
    {
      assert NewlyRevealed(u, c, i, j);
    }
  }

  /**
   * Every square the reveal uncovers, apart from the clicked one, lies next to
   * an uncovered square showing no adjacent mine.
   */
  lemma {:induction false} RevealSupport(g: Board, x: int, y: int)
    requires Rectangular(g)
    ensures forall i, j :: NewlyRevealed(g, Reveal(g, x, y), i, j) && (i != x || j != y) ==> ZeroNeighbourRevealed(Reveal(g, x, y), i, j)
    decreases HiddenCount(g), 0
  {
    if Revealable(g, x, y) {
      var u: Board := MarkClicked(g, x, y);
      MarkClickedFacts(g, x, y);
      if u[x][y].number <= 0 {
        RevealUnfold(g, x, y);
        CascadeSupport(u, x, y, 3);
        MarkedSupport(g, Cascade(u, x, y, 3), x, y);
      }
    }
  }

  lemma {:induction false} CascadeSupport(g: Board, x: int, y: int, m: nat)
    requires Rectangular(g) && m <= 3
    requires InBounds(g, x, y) && g[x][y].isClicked && g[x][y].number <= 0
    ensures Supported(g, Cascade(g, x, y, m))
    decreases HiddenCount(g), 2, m
  {
    if m > 0 {
      var h := Cascade(g, x, y, m - 1);
      CascadeUnfold(g, x, y, m);
      CascadeSupport(g, x, y, m - 1);
      assert InBounds(h, x, y) && h[x][y].isClicked && h[x][y].number <= 0;
      CascadeColumnSupport(h, x, y, m - 2, 3);
      SupportedCompose(g, h, Cascade(g, x, y, m));
    }
  }

  /**
   * One step of a column: the reveal of (x + dx, y + n - 2), next to the
   * revealed zero (x, y), keeps the steps so far from `g` supported — the
   * square itself by (x, y), every other square by the reveal's own support.
   */
  lemma {:induction false} ColumnStepSupport(g: Board, h: Board, x: int, y: int, dx: int, n: nat)
    requires Rectangular(h) && RevealsOnly(g, h) && Supported(g, h)
    requires InBounds(g, x, y) && g[x][y].isClicked && g[x][y].number <= 0
    requires -1 <= dx <= 1 && 0 < n <= 3 && (dx != 0 || n != 2)
    ensures Supported(g, Reveal(h, x + dx, y + n - 2))
    decreases HiddenCount(h), 1, 0
  {
    var sx, sy := x + dx, y + n - 2;
    var r := Reveal(h, sx, sy);
    RevealSupport(h, sx, sy);
    assert InBounds(h, x, y) && h[x][y].isClicked && h[x][y].number <= 0;
    assert InBounds(r, x, y) && r[x][y].isClicked && r[x][y].number <= 0;
    assert Adjacent(x, y, sx, sy);
    SupportedCompose(g, h, r);
  }

  lemma {:induction false} CascadeColumnSupport(g: Board, x: int, y: int, dx: int, n: nat)
    requires Rectangular(g) && n <= 3 && -1 <= dx <= 1
    requires InBounds(g, x, y) && g[x][y].isClicked && g[x][y].number <= 0
    ensures Supported(g, CascadeColumn(g, x, y, dx, n))
    decreases HiddenCount(g), 1, n
  {
    if n > 0 {
      var h := CascadeColumn(g, x, y, dx, n - 1);
      CascadeColumnSupport(g, x, y, dx, n - 1);
      if dx != 0 || n != 2 {
        ColumnStepSupport(g, h, x, y, dx, n);
      }
    }
  }

  /** (a, b) is off the board, revealed or flagged. */
  predicate Settled(r: Board, a: int, b: int) {
    InBounds(r, a, b) ==> r[a][b].isClicked || r[a][b].isFlagged
  }

  /** The neighbours of (x, y) in the columns dx = -1 .. m - 2 are settled. */
  ghost predicate DoneBefore(r: Board, x: int, y: int, m: int) {
    forall a, b :: Adjacent(a, b, x, y) && a < x + m - 1 ==> Settled(r, a, b)
  }

  /** The neighbours of (x, y) in column dx, rows dy = -1 .. n - 2, are settled. */
  ghost predicate ColumnDone(r: Board, x: int, y: int, dx: int, n: int) {
    forall a, b :: a == x + dx && Adjacent(a, b, x, y) && b < y + n - 1 ==> Settled(r, a, b)
  }

  lemma SettledPersists(r: Board, s: Board, a: int, b: int)
    requires RevealsOnly(r, s) && Settled(r, a, b)
    ensures Settled(s, a, b)
  {
    if InBounds(s, a, b) {
      assert InBounds(r, a, b);
    }
  }

  lemma DoneBeforeStep(h: Board, r: Board, x: int, y: int, m: int)
    requires RevealsOnly(h, r) && DoneBefore(h, x, y, m - 1) && ColumnDone(r, x, y, m - 2, 3)
    ensures DoneBefore(r, x, y, m)
  {
    forall a, b | Adjacent(a, b, x, y) && a < x + m - 1
      ensures Settled(r, a, b)
    {
      if a < x + m - 2 {
        assert Settled(h, a, b);
        SettledPersists(h, r, a, b);
      } else {
        assert a == x + m - 2 && b < y + 2;
      }
    }
  }

  lemma ColumnDoneStep(h: Board, r: Board, x: int, y: int, dx: int, n: int)
    requires RevealsOnly(h, r) && ColumnDone(h, x, y, dx, n - 1) && Settled(r, x + dx, y + n - 2)
    ensures ColumnDone(r, x, y, dx, n)
  {
    forall a, b | a == x + dx && Adjacent(a, b, x, y) && b < y + n - 1
      ensures Settled(r, a, b)
    {
      if b < y + n - 2 {
        SettledPersists(h, r, a, b);
      }
    }
  }

  /** Closure after revealing (x, y) and cascading to `c`, once all neighbours of (x, y) are settled. */
  lemma MarkedClosed(g: Board, c: Board, x: int, y: int)
    requires Rectangular(g) && Revealable(g, x, y)
    requires RevealsOnly(MarkClicked(g, x, y), c) && Closed(MarkClicked(g, x, y), c) && DoneBefore(c, x, y, 3)
    ensures Closed(g, c)
  {
    var u := MarkClicked(g, x, y);
    forall i, j | NewlyRevealed(g, c, i, j) && c[i][j].number <= 0
      ensures Surrounded(c, i, j)
    {
      if i != x || j != y {
        assert NewlyRevealed(u, c, i, j);
      }
    }
  }

  /** Every zero the reveal uncovers has all of its neighbours uncovered or flagged. */
  lemma {:induction false} RevealClosure(g: Board, x: int, y: int)
    requires Rectangular(g)
    ensures Closed(g, Reveal(g, x, y))
    decreases HiddenCount(g), 0
  {
    if Revealable(g, x, y) {
      var u: Board := MarkClicked(g, x, y);
      MarkClickedFacts(g, x, y);
      if u[x][y].number <= 0 {
        RevealUnfold(g, x, y);
        CascadeClosure(u, x, y, 3);
        MarkedClosed(g, Cascade(u, x, y, 3), x, y);
      }
    }
  }

  lemma {:induction false} CascadeClosure(g: Board, x: int, y: int, m: nat)
    requires Rectangular(g) && m <= 3
    ensures Closed(g, Cascade(g, x, y, m))
    ensures DoneBefore(Cascade(g, x, y, m), x, y, m)
    decreases HiddenCount(g), 2, m
  {
    if m > 0 {
      CascadeUnfold(g, x, y, m);
      CascadeClosure(g, x, y, m - 1);
      CascadeStepClosure(g, Cascade(g, x, y, m - 1), x, y, m);
    }
  }

  /** One step of the outer loop: column m - 2 keeps closure and settles that column. */
  lemma {:induction false} CascadeStepClosure(g: Board, h: Board, x: int, y: int, m: nat)
    requires Rectangular(h) && RevealsOnly(g, h) && Closed(g, h) && DoneBefore(h, x, y, m - 1)
    ensures Closed(g, CascadeColumn(h, x, y, m - 2, 3)) && DoneBefore(CascadeColumn(h, x, y, m - 2, 3), x, y, m)
    decreases HiddenCount(h), 2, 0
  {
    var r := CascadeColumn(h, x, y, m - 2, 3);
    CascadeColumnClosure(h, x, y, m - 2, 3);
    ClosedCompose(g, h, r);
    DoneBeforeStep(h, r, x, y, m);
  }

  lemma {:induction false} CascadeColumnClosure(g: Board, x: int, y: int, dx: int, n: nat)
    requires Rectangular(g) && n <= 3
    ensures Closed(g, CascadeColumn(g, x, y, dx, n)) && ColumnDone(CascadeColumn(g, x, y, dx, n), x, y, dx, n)
    decreases HiddenCount(g), 1, n
  {
    if n > 0 {
      CascadeColumnClosure(g, x, y, dx, n - 1);
      if dx != 0 || n != 2 {
        ColumnStepClosure(g, CascadeColumn(g, x, y, dx, n - 1), x, y, dx, n);
      }
    }
  }

  /** A reveal from `h` to `r` that settles (x + dx, y + n - 2) keeps closure and extends the settled column. */
  lemma NeighbourClosed(g: Board, h: Board, r: Board, x: int, y: int, dx: int, n: int)
    requires RevealsOnly(g, h) && RevealsOnly(h, r) && Closed(g, h) && Closed(h, r)
    requires ColumnDone(h, x, y, dx, n - 1)
    requires InBounds(h, x + dx, y + n - 2) ==> r[x + dx][y + n - 2].isClicked || r[x + dx][y + n - 2].isFlagged
    ensures Closed(g, r) && ColumnDone(r, x, y, dx, n)
  {
    ClosedCompose(g, h, r);
    ColumnDoneStep(h, r, x, y, dx, n);
  }

  /** One step of a column: the reveal of (x + dx, y + n - 2) settles that square and keeps closure. */
  lemma {:induction false} ColumnStepClosure(g: Board, h: Board, x: int, y: int, dx: int, n: nat)
    requires Rectangular(h) && RevealsOnly(g, h) && Closed(g, h) && ColumnDone(h, x, y, dx, n - 1)
    ensures Closed(g, Reveal(h, x + dx, y + n - 2)) && ColumnDone(Reveal(h, x + dx, y + n - 2), x, y, dx, n)
    decreases HiddenCount(h), 1, 0
  {
    RevealClosure(h, x + dx, y + n - 2);
    NeighbourClosed(g, h, Reveal(h, x + dx, y + n - 2), x, y, dx, n);
  }

  // ------------------------------------------------------------ consequences

  /** Revealing keeps the numbers consistent with the mines. */
  lemma RevealKeepsNumbers(g: Board, x: int, y: int)
    requires Rectangular(g) && ConsistentNumbers(g)
    ensures ConsistentNumbers(Reveal(g, x, y))
  {
    ConsistentNumbersKept(g, Reveal(g, x, y));
  }

  /** Revealing never uncovers a flagged square. */
  lemma RevealKeepsFlagsHidden(g: Board, x: int, y: int)
    requires Rectangular(g) && NoClickedFlag(g)
    ensures NoClickedFlag(Reveal(g, x, y))
  {
    var r := Reveal(g, x, y);
    forall i, j | InBounds(r, i, j)
      ensures !(r[i][j].isClicked && r[i][j].isFlagged)
    {
      assert InBounds(g, i, j);
    }
  }

  /**
   * On a board whose numbers are right, the cascade uncovers no mine: only
   * the clicked square itself can be one.
   */
  lemma RevealSafe(g: Board, x: int, y: int)
    requires Rectangular(g) && ConsistentNumbers(g)
    ensures forall i, j :: NewlyRevealed(g, Reveal(g, x, y), i, j) && (i != x || j != y) ==> !Reveal(g, x, y)[i][j].isMine
  {
    var r := Reveal(g, x, y);
    RevealSupport(g, x, y);
    RevealKeepsNumbers(g, x, y);
    forall i, j | NewlyRevealed(g, r, i, j) && (i != x || j != y)
      ensures !r[i][j].isMine
    {
      var a, b :| Adjacent(a, b, i, j) && InBounds(r, a, b) && r[a][b].isClicked && r[a][b].number <= 0;
      ConsistentNumbersNonNegative(r, a, b);
      ZeroHasNoMineNeighbour(r, a, b, i, j);
    }
  }

  /** Clicking a square that is not a mine leaves every revealed square mine-free. */
  lemma RevealKeepsNoMineClicked(g: Board, x: int, y: int)
    requires Rectangular(g) && ConsistentNumbers(g) && NoMineClicked(g)
    requires InBounds(g, x, y) && !g[x][y].isMine
    ensures NoMineClicked(Reveal(g, x, y))
  {
    var r := Reveal(g, x, y);
    RevealSafe(g, x, y);
    forall i, j | InBounds(r, i, j) && r[i][j].isClicked
      ensures !r[i][j].isMine
    {
      assert InBounds(g, i, j);
      if !g[i][j].isClicked {
        assert NewlyRevealed(g, r, i, j);
      }
    }
  }
}
